// Bytes to frames to events: `complete_frame` and `decode_frame`.

module SseFraming {
  import opened Domain
  import opened Json

  type byte = x: int | 0 <= x < 256
  type Bytes = seq<byte>

  const LF: byte := 10
  const CR: byte := 13
  const SPACE: byte := 32
  const COLON: byte := 58
  const OPEN_BRACE: byte := 123
  const DATA: Bytes := [100, 97, 116, 97, 58]      // data:
  const DONE: Bytes := [91, 68, 79, 78, 69, 93]    // [DONE]

  // ---------- Frame boundaries ----------

  /** The line that ends at newline `i` is empty, or is a lone carriage return. */
  predicate BlankLineAt(b: Bytes, i: nat)
    requires i < |b|
  {
    b[i] == LF && (i == 0 || b[i - 1] == LF || (b[i - 1] == CR && (i == 1 || b[i - 2] == LF)))
  }

  /** The first blank line that ends at or after `from`. */
  function FirstBlank(b: Bytes, from: nat): (r: Option<nat>)
    requires from <= |b|
    ensures r.Some? ==>
              from <= r.value < |b| && BlankLineAt(b, r.value) && forall i :: from <= i < r.value ==> !BlankLineAt(b, i)
    ensures r.None? ==> forall i :: from <= i < |b| ==> !BlankLineAt(b, i)
    decreases |b| - from
  {
    if from == |b| then None
    else if BlankLineAt(b, from) then Some(from)
    else FirstBlank(b, from + 1)
  }

  /** Where the frame ends and how many bytes it uses up, blank line included. */
  datatype Cut = Cut(end: nat, consumed: nat)

  function FrameCut(b: Bytes): (r: Option<Cut>)
    ensures r.Some? ==> r.value.end < r.value.consumed <= |b|
  {
    var blank := FirstBlank(b, 0);
    if blank.None? then None
    else
      var i := blank.value;
      Some(Cut(if i > 0 && b[i - 1] == CR then i - 1 else i, i + 1))
  }

  method CompleteFrame(buffer: Bytes) returns (r: Option<Cut>)
    ensures r == FrameCut(buffer)
  {
    var lineStart := 0;
    for index := 0 to |buffer|
      invariant lineStart <= index
      invariant lineStart == 0 || buffer[lineStart - 1] == LF
      invariant forall i :: lineStart <= i < index ==> buffer[i] != LF
      invariant forall i :: 0 <= i < index ==> !BlankLineAt(buffer, i)
    {
      if buffer[index] != LF {
        continue;
      }
      var line := buffer[lineStart..index];
      if line != [] && line[|line| - 1] == CR {
        line := line[..|line| - 1];
      }
      if line == [] {
        assert BlankLineAt(buffer, index);
        return Some(Cut(lineStart, index + 1));
      }
      assert !BlankLineAt(buffer, index);
      lineStart := index + 1;
    }
    return None;
  }

  /** Later bytes do not move a frame boundary that is already there. */
  lemma FrameCutIsStable(a: Bytes, b: Bytes)
    requires FrameCut(a).Some?
    ensures FrameCut(a + b) == FrameCut(a)
    ensures (a + b)[..FrameCut(a).value.end] == a[..FrameCut(a).value.end]
    ensures (a + b)[FrameCut(a).value.consumed..] == a[FrameCut(a).value.consumed..] + b
  {
    var i := FirstBlank(a, 0).value;
    var ab := a + b;
    forall k | 0 <= k < |a|
      ensures BlankLineAt(ab, k) <==> BlankLineAt(a, k)
    {
    }
    var j := FirstBlank(ab, 0);
    assert BlankLineAt(ab, i);
    assert j.Some? && j.value == i;
  }

  // ---------- Text ----------

  predicate Continuation(x: byte) {
    0x80 <= x <= 0xBF
  }

  /** Length of the well-formed UTF-8 character at the front, or 0 (the table in section 4 of RFC 3629). */
  function CharLength(b: Bytes): (n: nat)
    ensures n <= |b|
  {
    if b == [] then 0
    else if b[0] <= 0x7F then 1
    else if |b| < 2 || !Continuation(b[1]) then 0
    else if 0xC2 <= b[0] <= 0xDF then 2
    else if |b| < 3 || !Continuation(b[2]) then 0
    else if b[0] == 0xE0 then (if b[1] >= 0xA0 then 3 else 0)
    else if b[0] == 0xED then (if b[1] <= 0x9F then 3 else 0)
    else if 0xE1 <= b[0] <= 0xEF then 3
    else if |b| < 4 || !Continuation(b[3]) then 0
    else if b[0] == 0xF0 then (if b[1] >= 0x90 then 4 else 0)
    else if b[0] == 0xF4 then (if b[1] <= 0x8F then 4 else 0)
    else if 0xF1 <= b[0] <= 0xF3 then 4
    else 0
  }

  predicate Utf8(b: Bytes)
    decreases |b|
  {
    b == [] || (CharLength(b) > 0 && Utf8(b[CharLength(b)..]))
  }

  lemma {:induction false} Utf8Concat(a: Bytes, b: Bytes)
    requires Utf8(a) && Utf8(b)
    ensures Utf8(a + b)
    decreases |a|
  {
    if a == [] {
      assert a + b == b;
    } else {
      var n := CharLength(a);
      assert CharLength(a + b) == n;
      assert (a + b)[n..] == a[n..] + b;
      Utf8Concat(a[n..], b);
    }
  }

  /** Length of the Unicode white space character at the front, or 0. */
  function WhiteLength(b: Bytes): (n: nat)
    ensures n <= |b|
  {
    if b == [] then 0
    else if 9 <= b[0] <= 13 || b[0] == 32 then 1
    else if |b| >= 2 && b[0] == 0xC2 && (b[1] == 0x85 || b[1] == 0xA0) then 2
    else if |b| >= 3 && b[..3] == [0xE1, 0x9A, 0x80] then 3
    else if |b| >= 3 && b[0] == 0xE2 && b[1] == 0x80 && (0x80 <= b[2] <= 0x8A || b[2] in {0xA8, 0xA9, 0xAF}) then 3
    else if |b| >= 3 && (b[..3] == [0xE2, 0x81, 0x9F] || b[..3] == [0xE3, 0x80, 0x80]) then 3
    else 0
  }

  function TrimStart(b: Bytes): Bytes
    decreases |b|
  {
    if WhiteLength(b) == 0 then b else TrimStart(b[WhiteLength(b)..])
  }

  /** `data.trim() == "[DONE]"` */
  predicate IsDone(data: Bytes) {
    var rest := TrimStart(data);
    DONE <= rest && TrimStart(rest[|DONE|..]) == []
  }

  // ---------- Lines ----------

  function IndexOfLF(b: Bytes): (i: nat)
    ensures i <= |b| && (forall k :: 0 <= k < i ==> b[k] != LF) && (i < |b| ==> b[i] == LF)
  {
    if b == [] then 0 else if b[0] == LF then 0 else 1 + IndexOfLF(b[1..])
  }

  function StripCR(line: Bytes): Bytes {
    if line != [] && line[|line| - 1] == CR then line[..|line| - 1] else line
  }

  /** `str::lines`: split at LF or CRLF; a final line without LF keeps its CR. */
  function Lines(text: Bytes): seq<Bytes>
    decreases |text|
  {
    if text == [] then []
    else
      var i := IndexOfLF(text);
      if i == |text| then [text] else [StripCR(text[..i])] + Lines(text[i + 1..])
  }

  /** The value of one `data:` line. */
  function DataValue(rawLine: Bytes): Option<Bytes> {
    var line := StripCR(rawLine);
    if line != [] && line[0] == COLON then None
    else if DATA <= line then
      var value := line[|DATA|..];
      Some(if value != [] && value[0] == SPACE then value[1..] else value)
    else None
  }

  function DataValues(lines: seq<Bytes>): seq<Bytes> {
    if lines == [] then []
    else if DataValue(lines[0]).Some? then [DataValue(lines[0]).value] + DataValues(lines[1..])
    else DataValues(lines[1..])
  }

  lemma {:induction false} DataValuesAppend(a: seq<Bytes>, line: Bytes)
    ensures DataValues(a + [line]) == DataValues(a) + DataValues([line])
  {
    if a == [] {
      assert a + [line] == [line];
    } else {
      assert (a + [line])[1..] == a[1..] + [line];
      DataValuesAppend(a[1..], line);
    }
  }

  function JoinLF(parts: seq<Bytes>): Bytes {
    if parts == [] then [] else if |parts| == 1 then parts[0] else parts[0] + [LF] + JoinLF(parts[1..])
  }

  // ---------- Events ----------

  datatype Event = Frame(chunk: Json) | Completed | Failed(failure: ProviderFailure)

  predicate IsTerminal(e: Event) {
    !e.Frame?
  }

  /** The JSON library: parsing, printing, and the allow-listing conversion to a chat-completion chunk. A chunk
      is represented by the JSON object it serializes to; `failedBody` is the fixed public error body. */
  datatype Codec = Codec(
    parse: Bytes -> Option<Json>,
    print_: Json -> Bytes,
    toChunk: Json -> Option<Json>,
    failedBody: Bytes
  )

  const I64_MAX := 0x7fff_ffff_ffff_ffff

  /** `now` is the clock in seconds when the failure is built. */
  function SanitizedFailure(category: ErrorCategory, now: nat): ProviderFailure {
    var retries := category.RateLimited? || category.ConcurrencyLimited? || category.ProviderUnavailable?
        || category.Unknown?;
    var message :=
      match category
      case QuotaExhausted | CreditExhausted | SpendLimitExceeded => "provider capacity is currently unavailable"
      case RateLimited | ConcurrencyLimited => "provider is temporarily rate limited"
      case AuthenticationFailed => "provider credential is unavailable"
      case ModelUnavailable => "requested upstream model is unavailable"
      case ProviderUnavailable | Unknown => "provider stream could not be completed";
    ProviderFailure(category, message, None,
                    if retries then Some((if now <= I64_MAX then now else I64_MAX - 60) + 60) else None)
  }

  function Lower(c: char): char {
    if 'A' <= c <= 'Z' then c - 'A' + 'a' else c
  }

  function LowerAll(s: string): string {
    seq(|s|, i requires 0 <= i < |s| => Lower(s[i]))
  }

  predicate MatchesAt(s: string, part: string, i: nat) {
    i + |part| <= |s| && s[i..i + |part|] == part
  }

  predicate Contains(s: string, part: string) {
    exists i :: 0 <= i <= |s| && MatchesAt(s, part, i)
  }

  function CategoryOfCode(code: string): ErrorCategory {
    var lower := LowerAll(code);
    if Contains(lower, "insufficient_quota") || Contains(lower, "quota_exceeded") then QuotaExhausted
    else if Contains(lower, "credit") then CreditExhausted
    else if Contains(lower, "rate") then RateLimited
    else if Contains(lower, "model") then ModelUnavailable
    else if Contains(lower, "auth") || Contains(lower, "key") then AuthenticationFailed
    else ProviderUnavailable
  }

  function CategoryOf(error: Json): ErrorCategory {
    var code := if error.JObject? then AsStr(Get(error.fields, "code")) else None;
    CategoryOfCode(if code.Some? then code.value else "")
  }

  /** What one frame's joined data means. */
  function DecodeData(codec: Codec, data: Bytes, now: nat): Result<Event, ErrorCategory> {
    if IsDone(data) then Ok(Completed)
    else
      var value := codec.parse(data);
      if value.None? || !value.value.JObject? then Err(ProviderUnavailable)
      else if "error" in value.value.fields then
        Ok(Failed(SanitizedFailure(CategoryOf(value.value.fields["error"]), now)))
      else
        var chunk := codec.toChunk(value.value);
        if chunk.None? then Err(ProviderUnavailable) else Ok(Frame(chunk.value))
  }

  function Decoded(codec: Codec, frame: Bytes, now: nat): Result<Option<Event>, ErrorCategory> {
    if !Utf8(frame) then Err(ProviderUnavailable)
    else
      var data := DataValues(Lines(frame));
      if data == [] then Ok(None)
      else
        match DecodeData(codec, JoinLF(data), now)
        case Ok(event) => Ok(Some(event))
        case Err(category) => Err(category)
  }

  method DecodeFrame(codec: Codec, frame: Bytes, now: nat) returns (r: Result<Option<Event>, ErrorCategory>)
    ensures r == Decoded(codec, frame, now)
  {
    if !Utf8(frame) {
      return Err(ProviderUnavailable);
    }
    var lines := Lines(frame);
    var data: seq<Bytes> := [];
    for i := 0 to |lines|
      invariant data == DataValues(lines[..i])
    {
      assert lines[..i + 1] == lines[..i] + [lines[i]];
      DataValuesAppend(lines[..i], lines[i]);
      var line := StripCR(lines[i]);
      if line != [] && line[0] == COLON {
        continue;
      }
      if DATA <= line {
        var value := line[|DATA|..];
        data := data + [if value != [] && value[0] == SPACE then value[1..] else value];
      }
    }
    assert lines[..|lines|] == lines;
    if data == [] {
      return Ok(None);
    }
    var joined := JoinLF(data);
    if IsDone(joined) {
      return Ok(Some(Completed));
    }
    var value := codec.parse(joined);
    if value.None? || !value.value.JObject? {
      return Err(ProviderUnavailable);
    }
    if "error" in value.value.fields {
      return Ok(Some(Failed(SanitizedFailure(CategoryOf(value.value.fields["error"]), now))));
    }
    var chunk := codec.toChunk(value.value);
    if chunk.None? {
      return Err(ProviderUnavailable);
    }
    return Ok(Some(Frame(chunk.value)));
  }
}
