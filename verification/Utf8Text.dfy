// UTF-8 from the encoding side: which bytes are text, and which texts trim to `[DONE]`.

module Utf8Text {
  import opened Domain
  import opened Unicode
  import opened SseFraming

  /** Every code point but the surrogates. */
  type Scalar = c: int | 0 <= c < 0xD800 || 0xE000 <= c < 0x11_0000

  /** One character as UTF-8 (section 3 of RFC 3629). */
  function Encode(c: Scalar): Bytes {
    if c < 0x80 then
      var only: byte := c;
      [only]
    else if c < 0x800 then
      var lead: byte := 0xC0 + c / 64;
      [lead, Tail(c)]
    else if c < 0x1_0000 then
      var lead: byte := 0xE0 + c / 4096;
      [lead, Tail(c / 64), Tail(c)]
    else
      var lead: byte := 0xF0 + c / 262144;
      [lead, Tail(c / 4096), Tail(c / 64), Tail(c)]
  }

  function Tail(n: nat): byte {
    0x80 + n % 64
  }

  function EncodeAll(text: seq<Scalar>): Bytes {
    if text == [] then [] else Encode(text[0]) + EncodeAll(text[1..])
  }

  lemma Lead3(c: Scalar)
    requires 0x800 <= c < 0x1_0000
    ensures c / 4096 == 0 ==> c / 64 % 64 >= 32
    ensures c / 4096 == 13 ==> c / 64 % 64 < 32
  {
    assert c / 4096 == 0 ==> 32 <= c / 64 < 64;
    assert c / 4096 == 13 ==> 832 <= c / 64 < 864;
  }

  lemma Lead4(c: Scalar)
    requires 0x1_0000 <= c
    ensures c / 262144 == 0 ==> c / 4096 % 64 >= 16
    ensures c / 262144 == 4 ==> c / 4096 % 64 < 16
  {
    assert c / 262144 == 0 ==> 16 <= c / 4096 < 64;
    assert c / 262144 == 4 ==> 256 <= c / 4096 < 272;
  }

  lemma EncodedIsChar(c: Scalar, more: Bytes)
    ensures CharLength(Encode(c) + more) == |Encode(c)| && (Encode(c) + more)[|Encode(c)|..] == more
  {
    if 0x800 <= c < 0x1_0000 {
      Lead3(c);
    } else if 0x1_0000 <= c {
      Lead4(c);
    }
  }

  lemma Digits(a: nat, b: nat, c: nat, d: nat)
    requires b < 64 && c < 64 && d < 64
    ensures var n := a * 262144 + b * 4096 + c * 64 + d;
            n % 64 == d && n / 64 % 64 == c && n / 4096 % 64 == b && n / 262144 == a
  {
    var n := a * 262144 + b * 4096 + c * 64 + d;
    assert n == (a * 4096 + b * 64 + c) * 64 + d;
    assert n / 64 == a * 4096 + b * 64 + c == (a * 64 + b) * 64 + c;
    assert n / 4096 == a * 64 + b;
  }

  /** Every well-formed character is the encoding of one. */
  lemma CharIsEncoded(b: Bytes) returns (c: Scalar)
    requires CharLength(b) > 0
    ensures b[..CharLength(b)] == Encode(c)
  {
    var n := CharLength(b);
    var b0: int := b[0];
    if n == 1 {
      c := b0;
    } else if n == 2 {
      var b1: int := b[1];
      Digits(0, 0, b0 - 0xC0, b1 - 0x80);
      c := (b0 - 0xC0) * 64 + (b1 - 0x80);
    } else if n == 3 {
      var b1: int, b2: int := b[1], b[2];
      Digits(0, b0 - 0xE0, b1 - 0x80, b2 - 0x80);
      c := (b0 - 0xE0) * 4096 + (b1 - 0x80) * 64 + (b2 - 0x80);
    } else {
      var b1: int, b2: int, b3: int := b[1], b[2], b[3];
      Digits(b0 - 0xF0, b1 - 0x80, b2 - 0x80, b3 - 0x80);
      c := (b0 - 0xF0) * 262144 + (b1 - 0x80) * 4096 + (b2 - 0x80) * 64 + (b3 - 0x80);
    }
  }

  lemma {:induction false} EncodedIsUtf8(text: seq<Scalar>)
    ensures Utf8(EncodeAll(text))
  {
    if text != [] {
      EncodedIsChar(text[0], EncodeAll(text[1..]));
      EncodedIsUtf8(text[1..]);
    }
  }

  lemma {:induction false} Utf8IsEncoded(b: Bytes) returns (text: seq<Scalar>)
    requires Utf8(b)
    ensures EncodeAll(text) == b
    decreases |b|
  {
    text := [];
    if b != [] {
      var c := CharIsEncoded(b);
      var rest := Utf8IsEncoded(b[CharLength(b)..]);
      text := [c] + rest;
    }
  }

  /** Bytes are accepted as text exactly if they encode a sequence of characters. */
  lemma Utf8Iff(b: Bytes)
    ensures Utf8(b) <==> exists text :: EncodeAll(text) == b
  {
    if Utf8(b) {
      var text := Utf8IsEncoded(b);
    }
    if text :| EncodeAll(text) == b {
      EncodedIsUtf8(text);
    }
  }

  // ---------- Trimming ----------

  lemma WhiteIff(c: Scalar, more: Bytes)
    ensures WhiteLength(Encode(c) + more) == if White(c) then |Encode(c)| else 0
  {
    var b := Encode(c) + more;
    assert |b| >= 3 ==> b[..3] == [b[0], b[1], b[2]];
  }

  lemma WhiteIsEncoded(b: Bytes) returns (c: Scalar)
    requires WhiteLength(b) > 0
    ensures White(c) && b[..WhiteLength(b)] == Encode(c)
  {
    assert |b| >= 3 ==> b[..3] == [b[0], b[1], b[2]];
    assert CharLength(b) == WhiteLength(b);
    c := CharIsEncoded(b);
    assert b == Encode(c) + b[CharLength(b)..];
    WhiteIff(c, b[CharLength(b)..]);
  }

  predicate AllWhite(text: seq<Scalar>) {
    forall k :: 0 <= k < |text| ==> White(text[k])
  }

  lemma Group(a: Bytes, b: Bytes, c: Bytes)
    ensures a + (b + c) == (a + b) + c
  {
  }

  lemma TrimsOne(c: Scalar, rest: Bytes)
    requires White(c)
    ensures TrimStart(Encode(c) + rest) == TrimStart(rest)
  {
    WhiteIff(c, rest);
    EncodedIsChar(c, rest);
  }

  lemma {:induction false} TrimsWhite(text: seq<Scalar>, more: Bytes)
    requires AllWhite(text)
    ensures TrimStart(EncodeAll(text) + more) == TrimStart(more)
  {
    if text == [] {
      assert EncodeAll(text) + more == more;
    } else {
      Group(Encode(text[0]), EncodeAll(text[1..]), more);
      TrimsOne(text[0], EncodeAll(text[1..]) + more);
      TrimsWhite(text[1..], more);
    }
  }

  lemma {:induction false} TrimmedWhite(b: Bytes) returns (text: seq<Scalar>)
    ensures AllWhite(text) && b == EncodeAll(text) + TrimStart(b)
    decreases |b|
  {
    text := [];
    if WhiteLength(b) > 0 {
      var n := WhiteLength(b);
      var c := WhiteIsEncoded(b);
      var rest := TrimmedWhite(b[n..]);
      text := [c] + rest;
      assert b == b[..n] + b[n..];
      assert text[1..] == rest;
      Group(Encode(c), EncodeAll(rest), TrimStart(b[n..]));
    }
  }

  /** `data` is `[DONE]` between two runs of white space. */
  ghost predicate DoneBetween(data: Bytes, before: seq<Scalar>, after: seq<Scalar>) {
    AllWhite(before) && AllWhite(after)
    && data == EncodeAll(before) + ([91, 68, 79, 78, 69, 93] + EncodeAll(after))
  }

  lemma DoneIsBetween(data: Bytes) returns (before: seq<Scalar>, after: seq<Scalar>)
    requires IsDone(data)
    ensures DoneBetween(data, before, after)
  {
    before := TrimmedWhite(data);
    var rest := TrimStart(data);
    after := TrimmedWhite(rest[6..]);
    assert rest == DONE + rest[6..];
    assert EncodeAll(after) + [] == EncodeAll(after);
  }

  lemma AllTrimmed(text: seq<Scalar>)
    requires AllWhite(text)
    ensures TrimStart(EncodeAll(text)) == []
  {
    TrimsWhite(text, []);
    assert EncodeAll(text) + [] == EncodeAll(text);
  }

  lemma DoneFirst(after: Bytes)
    requires TrimStart(after) == []
    ensures TrimStart(DONE + after) == DONE + after && IsDone(DONE + after)
  {
    assert (DONE + after)[|DONE|..] == after;
  }

  lemma BetweenIsDone(data: Bytes, before: seq<Scalar>, after: seq<Scalar>)
    requires DoneBetween(data, before, after)
    ensures IsDone(data)
  {
    AllTrimmed(after);
    DoneFirst(EncodeAll(after));
    TrimsWhite(before, DONE + EncodeAll(after));
  }

  /** The end marker is recognised exactly with nothing but white space around it. */
  lemma DoneIff(data: Bytes)
    ensures IsDone(data) <==> exists before, after :: DoneBetween(data, before, after)
  {
    if IsDone(data) {
      var before, after := DoneIsBetween(data);
    }
    if before, after :| DoneBetween(data, before, after) {
      BetweenIsDone(data, before, after);
    }
  }
}
