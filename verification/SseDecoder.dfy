// The incremental decoder: a bounded buffer fed by arbitrary chunks, against a one-shot parse of all bytes.

module SseDecoder {
  import opened Domain
  import opened SseFraming

  const MAX_SSE_FRAME_BYTES := 256 * 1024

  /** What one poll of the byte source yields. */
  datatype Item = Chunk(bytes: Bytes) | SourceError | SourceEnd | NotReady

  datatype Decoder = Decoder(source: seq<Item>, buffer: Bytes, terminal: bool)

  datatype Polled = Ready(event: Option<Event>) | Pending

  /** How frames are decoded, and the clock when a failure is built. The properties below hold for any decoding. */
  datatype Reader = Reader(decode: Bytes -> Result<Option<Event>, ErrorCategory>, now: nat)

  function ReaderFor(codec: Codec, now: nat): Reader {
    Reader(frame => Decoded(codec, frame, now), now)
  }

  function Failure(reader: Reader): Event {
    Failed(SanitizedFailure(ProviderUnavailable, reader.now))
  }

  // ---------- The first frame of the buffer ----------

  /** What the bytes at the front hold: no complete frame, one without data, one with a chunk, or the end. */
  datatype Front = Partial | Skip(rest: Bytes) | Emit(event: Event, rest: Bytes) | End(event: Event)

  function FrontOf(reader: Reader, bytes: Bytes): (f: Front)
    ensures f.Skip? || f.Emit? ==> |f.rest| < |bytes|
    ensures f.Emit? ==> !IsTerminal(f.event)
    ensures f.End? ==> IsTerminal(f.event)
    ensures f.Partial? <==> FrameCut(bytes).None?
  {
    var cut := FrameCut(bytes);
    if cut.None? then Partial
    else
      match reader.decode(bytes[..cut.value.end])
      case Ok(None) => Skip(bytes[cut.value.consumed..])
      case Ok(Some(event)) => if IsTerminal(event) then End(event) else Emit(event, bytes[cut.value.consumed..])
      case Err(category) => End(Failed(SanitizedFailure(category, reader.now)))
  }

  function FrontPlus(f: Front, more: Bytes): Front {
    if f.Skip? || f.Emit? then f.(rest := f.rest + more) else f
  }

  /** Later bytes do not change a frame that is already complete. */
  lemma FrontIsStable(reader: Reader, a: Bytes, b: Bytes)
    requires !FrontOf(reader, a).Partial?
    ensures FrontOf(reader, a + b) == FrontPlus(FrontOf(reader, a), b)
  {
    FrameCutIsStable(a, b);
  }

  // ---------- One loop turn and one poll ----------

  /** What a loop turn does: return from the poll, or go round again. */
  datatype Turn = Return(polled: Polled, after: Decoder) | Again(after: Decoder)

  function Stop(d: Decoder, event: Event): Turn {
    Return(Ready(Some(event)), d.(buffer := [], terminal := true))
  }

  /** The source is polled once; a chunk must fit beside what is buffered. */
  function PollSource(reader: Reader, d: Decoder): Turn {
    if d.source == [] then Return(Pending, d)
    else
      var polled := d.(source := d.source[1..]);
      match d.source[0]
      case NotReady => Return(Pending, polled)
      case Chunk(bytes) =>
        if |bytes| > MAX_SSE_FRAME_BYTES - |d.buffer| then Stop(polled, Failure(reader))
        else Again(polled.(buffer := d.buffer + bytes))
      case _ => Stop(polled, Failure(reader))
  }

  function TurnOf(reader: Reader, d: Decoder): Turn {
    if d.terminal then Return(Ready(None), d)
    else
      match FrontOf(reader, d.buffer)
      case Skip(rest) => Again(d.(buffer := rest))
      case Emit(event, rest) => Return(Ready(Some(event)), d.(buffer := rest))
      case End(event) => Stop(d, event)
      case Partial =>
        if |d.buffer| > MAX_SSE_FRAME_BYTES then Stop(d, Failure(reader)) else PollSource(reader, d)
  }

  /** Every turn that goes round again, or hands out a frame, has polled the source or used up buffered bytes. */
  lemma {:induction false} TurnProgress(reader: Reader, d: Decoder)
    ensures var t := TurnOf(reader, d);
            t.Again? || (t.polled.Ready? && t.polled.event.Some?) ==>
              || |t.after.source| < |d.source|
              || (t.after.source == d.source && |t.after.buffer| < |d.buffer|)
  {
  }

  function Poll(reader: Reader, d: Decoder): (Polled, Decoder)
    decreases |d.source|, |d.buffer|
  {
    TurnProgress(reader, d);
    match TurnOf(reader, d)
    case Return(polled, after) => (polled, after)
    case Again(after) => Poll(reader, after)
  }

  class OpenAiSseDecoder {
    const codec: Codec
    const now: nat
    var source: seq<Item>
    var buffer: Bytes
    var terminal: bool

    constructor (codec: Codec, now: nat, source: seq<Item>)
      ensures this.codec == codec && this.now == now && State() == Decoder(source, [], false)
    {
      this.codec, this.now, this.source, buffer, terminal := codec, now, source, [], false;
    }

    ghost function State(): Decoder
      reads this
    {
      Decoder(source, buffer, terminal)
    }

    method FailWith(category: ErrorCategory) returns (r: Polled)
      modifies this`buffer, this`terminal
      ensures r == Ready(Some(Failed(SanitizedFailure(category, now)))) && buffer == [] && terminal
    {
      buffer, terminal := [], true;
      return Ready(Some(Failed(SanitizedFailure(category, now))));
    }

    method PollNext() returns (r: Polled)
      modifies this
      ensures (r, State()) == Poll(ReaderFor(codec, now), old(State()))
    {
      while true
        invariant Poll(ReaderFor(codec, now), State()) == Poll(ReaderFor(codec, now), old(State()))
        decreases |source|, |buffer|
      {
        if terminal {
          return Ready(None);
        }
        var cut := CompleteFrame(buffer);
        if cut.Some? {
          var frame := buffer[..cut.value.end];
          buffer := buffer[cut.value.consumed..];
          var decoded := DecodeFrame(codec, frame, now);
          match decoded {
            case Ok(None) => continue;
            case Ok(Some(event)) =>
              if IsTerminal(event) {
                buffer, terminal := [], true;
              }
              return Ready(Some(event));
            case Err(category) =>
              r := FailWith(category);
              return;
          }
        }
        if |buffer| > MAX_SSE_FRAME_BYTES {
          r := FailWith(ProviderUnavailable);
          return;
        }
        if source == [] {
          return Pending;
        }
        var item := source[0];
        source := source[1..];
        match item {
          case Chunk(bytes) =>
            if |bytes| > MAX_SSE_FRAME_BYTES - |buffer| {
              r := FailWith(ProviderUnavailable);
              return;
            }
            buffer := buffer + bytes;
          case NotReady => return Pending;
          case _ =>
            r := FailWith(ProviderUnavailable);
            return;
        }
      }
    }
  }

  // ---------- All the events a decoder emits ----------

  function Events(reader: Reader, d: Decoder): seq<Event>
    decreases |d.source|, |d.buffer|
  {
    TurnProgress(reader, d);
    match TurnOf(reader, d)
    case Again(after) => Events(reader, after)
    case Return(Ready(Some(event)), after) => [event] + (if after.terminal then [] else Events(reader, after))
    case Return(Ready(None), _) => []
    case Return(Pending, after) => if d.source == [] then [] else Events(reader, after)
  }

  /** However often it is polled, the decoder hands out the events of `Events`, in order. */
  lemma {:induction false} PollHandsOutEvents(reader: Reader, d: Decoder)
    ensures var polled := Poll(reader, d).0;
            var after := Poll(reader, d).1;
            match polled
            case Ready(Some(event)) => Events(reader, d) == [event] + Events(reader, after)
            case Ready(None) => Events(reader, d) == [] && d.terminal
            case Pending => Events(reader, d) == Events(reader, after)
    decreases |d.source|, |d.buffer|
  {
    TurnProgress(reader, d);
    var t := TurnOf(reader, d);
    if t.Again? {
      PollHandsOutEvents(reader, t.after);
    }
  }

  // ---------- The one-shot parse ----------

  /** Frame by frame over the whole byte string: the events, the bytes left over, and whether a terminal event
      ended it. */
  datatype Parsed = Parsed(events: seq<Event>, rest: Bytes, ended: bool)

  function ParseAll(reader: Reader, bytes: Bytes): Parsed
    decreases |bytes|
  {
    match FrontOf(reader, bytes)
    case Partial => Parsed([], bytes, false)
    case Skip(rest) => ParseAll(reader, rest)
    case Emit(event, rest) => Preceded([event], ParseAll(reader, rest))
    case End(event) => Parsed([event], [], true)
  }

  function Preceded(events: seq<Event>, p: Parsed): Parsed {
    p.(events := events + p.events)
  }

  lemma PrecededTwice(a: seq<Event>, b: seq<Event>, p: Parsed)
    ensures Preceded(a, Preceded(b, p)) == Preceded(a + b, p)
    ensures Preceded([], p) == p
  {
    assert a + (b + p.events) == (a + b) + p.events && [] + p.events == p.events;
  }

  lemma {:induction false} RestHasNoFrame(reader: Reader, bytes: Bytes)
    ensures var p := ParseAll(reader, bytes);
            !p.ended ==> FrameCut(p.rest).None? && |p.rest| <= |bytes|
    decreases |bytes|
  {
    var f := FrontOf(reader, bytes);
    if f.Skip? || f.Emit? {
      RestHasNoFrame(reader, f.rest);
    }
  }

  /** Parsing can stop anywhere and resume with what was left over. */
  lemma {:induction false} ParseInTwoParts(reader: Reader, a: Bytes, b: Bytes)
    ensures var p := ParseAll(reader, a);
            ParseAll(reader, a + b) == if p.ended then p else Preceded(p.events, ParseAll(reader, p.rest + b))
    decreases |a|
  {
    var f := FrontOf(reader, a);
    if f.Partial? {
      PrecededTwice([], [], ParseAll(reader, a + b));
    } else {
      FrontIsStable(reader, a, b);
      if !f.End? {
        ParseInTwoParts(reader, f.rest, b);
        var p := ParseAll(reader, f.rest);
        if f.Emit? && !p.ended {
          PrecededTwice([f.event], p.events, ParseAll(reader, p.rest + b));
        }
      }
    }
  }

  // ---------- Chunking does not matter ----------

  /** The bytes the source delivers before it ends or fails. */
  function Delivered(source: seq<Item>): Bytes {
    if source == [] then []
    else
      match source[0]
      case Chunk(bytes) => bytes + Delivered(source[1..])
      case NotReady => Delivered(source[1..])
      case _ => []
  }

  predicate Closes(source: seq<Item>) {
    source != [] && (source[0].SourceError? || source[0].SourceEnd? || Closes(source[1..]))
  }

  /** Each chunk fits beside the partial frame left over from the bytes before it. */
  predicate Admissible(reader: Reader, bytes: Bytes, source: seq<Item>)
    decreases |source|
  {
    if source == [] then true
    else
      match source[0]
      case NotReady => Admissible(reader, bytes, source[1..])
      case Chunk(chunk) =>
        var p := ParseAll(reader, bytes);
        p.ended || (|chunk| <= MAX_SSE_FRAME_BYTES - |p.rest| && Admissible(reader, p.rest + chunk, source[1..]))
      case _ => true
  }

  /** The events of the one-shot parse, and the failure that ends an unfinished stream once its source is over. */
  function OneShot(reader: Reader, bytes: Bytes, closes: bool): seq<Event> {
    var p := ParseAll(reader, bytes);
    if !p.ended && closes then p.events + [Failure(reader)] else p.events
  }

  /** The bytes would give one failure and nothing else: no frame with data comes before the failure or before an
      unfinished end. */
  predicate OnlyFails(reader: Reader, bytes: Bytes, closes: bool)
    decreases |bytes|
  {
    match FrontOf(reader, bytes)
    case Partial => closes
    case Skip(rest) => OnlyFails(reader, rest, closes)
    case Emit(_, _) => false
    case End(event) => event == Failure(reader)
  }

  /** `Admissible`, or else, from the first chunk that does not fit, the remaining bytes hold nothing but a failure:
      the decoder gives up there, and so would the one-shot parse. */
  predicate Tolerable(reader: Reader, bytes: Bytes, source: seq<Item>)
    decreases |source|
  {
    if source == [] then true
    else
      match source[0]
      case NotReady => Tolerable(reader, bytes, source[1..])
      case Chunk(chunk) =>
        var p := ParseAll(reader, bytes);
        || p.ended
        || (if |chunk| <= MAX_SSE_FRAME_BYTES - |p.rest| then Tolerable(reader, p.rest + chunk, source[1..])
            else OnlyFails(reader, p.rest + Delivered(source), Closes(source)))
      case _ => true
  }

  lemma {:induction false} OnlyFailsIff(reader: Reader, bytes: Bytes, closes: bool)
    ensures OnlyFails(reader, bytes, closes) <==> OneShot(reader, bytes, closes) == [Failure(reader)]
    decreases |bytes|
  {
    var f := FrontOf(reader, bytes);
    if f.Skip? {
      OnlyFailsIff(reader, f.rest, closes);
    } else if f.Emit? {
      assert OneShot(reader, bytes, closes)[0] == f.event;
      assert !IsTerminal(f.event) && IsTerminal(Failure(reader));
    } else if f.Partial? {
      assert [] + [Failure(reader)] == [Failure(reader)];
    }
  }

  lemma {:induction false} AdmissibleIsTolerable(reader: Reader, bytes: Bytes, source: seq<Item>)
    requires Admissible(reader, bytes, source)
    ensures Tolerable(reader, bytes, source)
    decreases |source|
  {
    if source != [] && source[0].NotReady? {
      AdmissibleIsTolerable(reader, bytes, source[1..]);
    } else if source != [] && source[0].Chunk? && !ParseAll(reader, bytes).ended {
      AdmissibleIsTolerable(reader, ParseAll(reader, bytes).rest + source[0].bytes, source[1..]);
    }
  }

  lemma Reassociate(a: seq<Event>, b: seq<Event>, c: seq<Event>)
    ensures a + (b + c) == (a + b) + c && [] + c == c
  {
  }

  /** The decoder with `buffer` pending first drains it, and then goes on with what is left over. */
  lemma {:induction false} DrainBuffer(reader: Reader, d: Decoder)
    requires !d.terminal
    ensures var p := ParseAll(reader, d.buffer);
            Events(reader, d) == if p.ended then p.events else p.events + Events(reader, d.(buffer := p.rest))
    decreases |d.buffer|
  {
    var f := FrontOf(reader, d.buffer);
    var p := ParseAll(reader, d.buffer);
    if f.Partial? {
      assert d.(buffer := p.rest) == d;
      Reassociate([], [], Events(reader, d));
    } else if !f.End? {
      DrainBuffer(reader, d.(buffer := f.rest));
      if f.Emit? && !p.ended {
        var q := ParseAll(reader, f.rest);
        Reassociate([f.event], q.events, Events(reader, d.(buffer := q.rest)));
      }
    }
  }

  lemma {:induction false} EventsFromResidual(reader: Reader, source: seq<Item>, rest: Bytes)
    requires FrameCut(rest).None? && |rest| <= MAX_SSE_FRAME_BYTES
    ensures Events(reader, Decoder(source, rest, false)) == OneShot(reader, rest + Delivered(source), Closes(source))
            <==> Tolerable(reader, rest, source)
    decreases |source|, 1
  {
    assert ParseAll(reader, rest) == Parsed([], rest, false);
    if source != [] && source[0].Chunk? {
      if |source[0].bytes| <= MAX_SSE_FRAME_BYTES - |rest| {
        EventsFromChunk(reader, source, rest);
      } else {
        OnlyFailsIff(reader, rest + Delivered(source), Closes(source));
      }
    } else if source != [] && source[0].NotReady? {
      EventsFromResidual(reader, source[1..], rest);
    } else {
      assert rest + Delivered(source) == rest;
      assert [] + [Failure(reader)] == [Failure(reader)];
    }
  }

  lemma {:induction false} EventsFromChunk(reader: Reader, source: seq<Item>, rest: Bytes)
    requires FrameCut(rest).None? && |rest| <= MAX_SSE_FRAME_BYTES
    requires source != [] && source[0].Chunk? && |source[0].bytes| <= MAX_SSE_FRAME_BYTES - |rest|
    ensures Events(reader, Decoder(source, rest, false)) == OneShot(reader, rest + Delivered(source), Closes(source))
            <==> Tolerable(reader, rest + source[0].bytes, source[1..])
    decreases |source|, 0
  {
    var bytes, more := rest + source[0].bytes, source[1..];
    BufferTurn(reader, source, rest);
    EventsAgain(reader, Decoder(source, rest, false), Decoder(more, bytes, false));
    DeliveredChunk(source, rest);
    DrainBuffer(reader, Decoder(more, bytes, false));
    if ParseAll(reader, bytes).ended {
      ParseInTwoParts(reader, bytes, Delivered(more));
      EndedIsTolerable(reader, bytes, more);
    } else {
      RestHasNoFrame(reader, bytes);
      TolerableResidual(reader, bytes, more);
      EventsFromResidual(reader, more, ParseAll(reader, bytes).rest);
      BothGoOn(reader, bytes, more);
    }
  }

  lemma BufferTurn(reader: Reader, source: seq<Item>, rest: Bytes)
    requires FrameCut(rest).None? && |rest| <= MAX_SSE_FRAME_BYTES
    requires source != [] && source[0].Chunk? && |source[0].bytes| <= MAX_SSE_FRAME_BYTES - |rest|
    ensures TurnOf(reader, Decoder(source, rest, false)) == Again(Decoder(source[1..], rest + source[0].bytes, false))
  {
    assert FrontOf(reader, rest) == Partial;
  }

  lemma EventsAgain(reader: Reader, d: Decoder, after: Decoder)
    requires TurnOf(reader, d) == Again(after)
    ensures Events(reader, d) == Events(reader, after)
  {
  }

  lemma DeliveredChunk(source: seq<Item>, rest: Bytes)
    requires source != [] && source[0].Chunk?
    ensures rest + Delivered(source) == (rest + source[0].bytes) + Delivered(source[1..])
    ensures Closes(source) == Closes(source[1..])
  {
  }

  /** After the complete frames of `bytes`, the decoder and the one-shot parse agree exactly if they agree on the
      rest. */
  lemma BothGoOn(reader: Reader, bytes: Bytes, more: seq<Item>)
    requires !ParseAll(reader, bytes).ended
    ensures var p := ParseAll(reader, bytes);
            p.events + Events(reader, Decoder(more, p.rest, false))
              == OneShot(reader, bytes + Delivered(more), Closes(more))
            <==> Events(reader, Decoder(more, p.rest, false)) == OneShot(reader, p.rest + Delivered(more), Closes(more))
  {
    var p := ParseAll(reader, bytes);
    ParseInTwoParts(reader, bytes, Delivered(more));
    OneShotAfter(reader, p.events, p.rest + Delivered(more), Closes(more));
    SameAfter(p.events, Events(reader, Decoder(more, p.rest, false)),
      OneShot(reader, p.rest + Delivered(more), Closes(more)));
  }

  lemma SameAfter(events: seq<Event>, a: seq<Event>, b: seq<Event>)
    ensures events + a == events + b <==> a == b
  {
    assert (events + a)[|events|..] == a && (events + b)[|events|..] == b;
  }

  lemma OneShotAfter(reader: Reader, events: seq<Event>, bytes: Bytes, closes: bool)
    ensures var q := Preceded(events, ParseAll(reader, bytes));
            events + OneShot(reader, bytes, closes) ==
              if !q.ended && closes then q.events + [Failure(reader)] else q.events
  {
    var p := ParseAll(reader, bytes);
    assert events + (p.events + [Failure(reader)]) == (events + p.events) + [Failure(reader)];
  }

  lemma {:induction false} EndedIsTolerable(reader: Reader, bytes: Bytes, source: seq<Item>)
    requires ParseAll(reader, bytes).ended
    ensures Tolerable(reader, bytes, source)
    decreases |source|
  {
    if source != [] && source[0].NotReady? {
      EndedIsTolerable(reader, bytes, source[1..]);
    }
  }

  /** Admissibility, and the exact condition, only look at what is left over from the bytes so far. */
  lemma {:induction false} AdmissibleResidual(reader: Reader, bytes: Bytes, source: seq<Item>)
    requires !ParseAll(reader, bytes).ended
    ensures Admissible(reader, ParseAll(reader, bytes).rest, source) <==> Admissible(reader, bytes, source)
    decreases |source|
  {
    RestHasNoFrame(reader, bytes);
    var rest := ParseAll(reader, bytes).rest;
    assert ParseAll(reader, rest) == Parsed([], rest, false);
    if source != [] && source[0].NotReady? {
      AdmissibleResidual(reader, bytes, source[1..]);
    }
  }

  lemma {:induction false} TolerableResidual(reader: Reader, bytes: Bytes, source: seq<Item>)
    requires !ParseAll(reader, bytes).ended
    ensures Tolerable(reader, ParseAll(reader, bytes).rest, source) <==> Tolerable(reader, bytes, source)
    decreases |source|
  {
    RestHasNoFrame(reader, bytes);
    var rest := ParseAll(reader, bytes).rest;
    assert ParseAll(reader, rest) == Parsed([], rest, false);
    if source != [] && source[0].NotReady? {
      TolerableResidual(reader, bytes, source[1..]);
    }
  }

  /** For every source whatever: the decoder's events are those of a one-shot parse of all the bytes if and only if
      every chunk fits, or what follows the first one that does not holds nothing but a failure. */
  lemma DecoderEqualsOneShotIff(reader: Reader, source: seq<Item>)
    ensures Events(reader, Decoder(source, [], false)) == OneShot(reader, Delivered(source), Closes(source))
            <==> Tolerable(reader, [], source)
  {
    EventsFromResidual(reader, source, []);
    assert [] + Delivered(source) == Delivered(source);
  }

  /** In particular they are for every chunking in which each chunk fits, and for every pattern of pending polls. */
  lemma DecoderEqualsOneShot(reader: Reader, source: seq<Item>)
    requires Admissible(reader, [], source)
    ensures Events(reader, Decoder(source, [], false)) == OneShot(reader, Delivered(source), Closes(source))
  {
    AdmissibleIsTolerable(reader, [], source);
    DecoderEqualsOneShotIff(reader, source);
  }

  /** Two ways of cutting the same bytes give the same events, if one of them is tolerable, exactly when the other
      is too. */
  lemma ChunkingDoesNotMatter(reader: Reader, a: seq<Item>, b: seq<Item>)
    requires Tolerable(reader, [], a)
    requires Delivered(a) == Delivered(b) && Closes(a) == Closes(b)
    ensures Events(reader, Decoder(a, [], false)) == Events(reader, Decoder(b, [], false)) <==> Tolerable(reader, [], b)
  {
    DecoderEqualsOneShotIff(reader, a);
    DecoderEqualsOneShotIff(reader, b);
  }

  predicate AllChunks(source: seq<Item>) {
    forall item :: item in source ==> item.Chunk? || item.NotReady?
  }

  /** Outside that condition the result is fixed too: the first chunk that does not fit ends the stream with a
      failure after the events of the bytes before it. */
  lemma {:induction false} OversizedChunkFails(
      reader: Reader, before: seq<Item>, chunk: Bytes, after: seq<Item>, rest: Bytes)
    requires AllChunks(before) && Admissible(reader, rest, before)
    requires FrameCut(rest).None? && |rest| <= MAX_SSE_FRAME_BYTES
    requires !ParseAll(reader, rest + Delivered(before)).ended
    requires |chunk| > MAX_SSE_FRAME_BYTES - |ParseAll(reader, rest + Delivered(before)).rest|
    ensures Events(reader, Decoder(before + [Chunk(chunk)] + after, rest, false))
         == ParseAll(reader, rest + Delivered(before)).events + [Failure(reader)]
    decreases |before|
  {
    var d := Decoder(before + [Chunk(chunk)] + after, rest, false);
    assert ParseAll(reader, rest) == Parsed([], rest, false);
    if before == [] {
      assert before + [Chunk(chunk)] + after == [Chunk(chunk)] + after;
      assert rest + Delivered(before) == rest;
    } else {
      var more := before[1..];
      assert before[0] in before;
      assert d.source[1..] == more + [Chunk(chunk)] + after && d.source[0] == before[0];
      if before[0].NotReady? {
        OversizedChunkFails(reader, more, chunk, after, rest);
      } else {
        var first := before[0].bytes;
        var grown := Decoder(d.source[1..], rest + first, false);
        assert TurnOf(reader, d) == Again(grown);
        assert rest + Delivered(before) == (rest + first) + Delivered(more);
        ParseInTwoParts(reader, rest + first, Delivered(more));
        DrainBuffer(reader, grown);
        var p := ParseAll(reader, rest + first);
        RestHasNoFrame(reader, rest + first);
        AdmissibleResidual(reader, rest + first, more);
        OversizedChunkFails(reader, more, chunk, after, p.rest);
        var q := ParseAll(reader, p.rest + Delivered(more));
        assert p.events + (q.events + [Failure(reader)]) == (p.events + q.events) + [Failure(reader)];
      }
    }
  }

  /** The limit is 256 KiB: beside a partial frame, a chunk is buffered exactly if the two fit into that. */
  lemma LimitIs256KiB(reader: Reader, chunk: Bytes, more: seq<Item>, rest: Bytes)
    requires FrameCut(rest).None? && |rest| <= 262144
    ensures TurnOf(reader, Decoder([Chunk(chunk)] + more, rest, false)) ==
              if |rest| + |chunk| <= 262144 then Again(Decoder(more, rest + chunk, false))
              else Return(Ready(Some(Failure(reader))), Decoder(more, [], true))
  {
    assert ([Chunk(chunk)] + more)[1..] == more;
  }

  /** A single chunk over the limit gives one failure, while the one-shot parse reads what is in it. */
  lemma OneOversizedChunk(reader: Reader, chunk: Bytes)
    requires |chunk| > MAX_SSE_FRAME_BYTES
    ensures Events(reader, Decoder([Chunk(chunk)], [], false)) == [Failure(reader)]
    ensures Delivered([Chunk(chunk)]) == chunk && !Closes([Chunk(chunk)])
  {
    var source := [Chunk(chunk)];
    assert source[1..] == [] && Delivered(source) == chunk + [];
    assert ParseAll(reader, []) == Parsed([], [], false);
    assert TurnOf(reader, Decoder(source, [], false)) == Stop(Decoder([], [], false), Failure(reader));
  }

  // ---------- Bounded retention, accounting, one terminal ----------

  /** A run of complete frames, each ended by its blank line. */
  ghost predicate WholeFrames(b: Bytes)
    decreases |b|
  {
    b == [] || (FrameCut(b).Some? && WholeFrames(b[FrameCut(b).value.consumed..]))
  }

  lemma {:induction false} OneMoreFrame(frames: Bytes, buffer: Bytes)
    requires WholeFrames(frames) && FrameCut(buffer).Some?
    ensures WholeFrames(frames + buffer[..FrameCut(buffer).value.consumed])
    decreases |frames|
  {
    var last := buffer[..FrameCut(buffer).value.consumed];
    if frames == [] {
      assert frames + last == last;
      CutOfWholeFrame(buffer);
      assert last[|last|..] == [];
    } else {
      FrameCutIsStable(frames, last);
      OneMoreFrame(frames[FrameCut(frames).value.consumed..], buffer);
    }
  }

  lemma CutOfWholeFrame(buffer: Bytes)
    requires FrameCut(buffer).Some?
    ensures FrameCut(buffer[..FrameCut(buffer).value.consumed]) == FrameCut(buffer)
  {
    var i := FirstBlank(buffer, 0).value;
    var frame := buffer[..i + 1];
    forall k | 0 <= k < |frame|
      ensures BlankLineAt(frame, k) <==> BlankLineAt(buffer, k)
    {
    }
    assert BlankLineAt(frame, i);
  }

  /** `d` is reached from the start by loop turns alone. */
  ghost predicate Reaches(reader: Reader, start: Decoder, d: Decoder, turns: nat)
    decreases turns
  {
    if turns == 0 then d == start
    else exists e :: Reaches(reader, start, e, turns - 1) && TurnOf(reader, e).after == d
  }

  /** Before its terminal event the decoder holds at most the frame limit, and every byte received so far lies in
      a complete frame already consumed or in the buffer. */
  ghost predicate Accounted(source: seq<Item>, d: Decoder) {
    && |d.buffer| <= MAX_SSE_FRAME_BYTES
    && |d.source| <= |source| && d.source == source[|source| - |d.source|..]
    && (!d.terminal ==>
          exists frames :: WholeFrames(frames) && ReceivedBytes(source[..|source| - |d.source|]) == frames + d.buffer)
  }

  function ReceivedBytes(items: seq<Item>): Bytes {
    if items == [] then []
    else ReceivedBytes(items[..|items| - 1]) + (if items[|items| - 1].Chunk? then items[|items| - 1].bytes else [])
  }

  /** A turn that uses up a frame moves its bytes from the buffer to the consumed ones. */
  lemma FrameTurnAccounts(source: seq<Item>, d: Decoder, after: Decoder)
    requires Accounted(source, d) && !d.terminal && FrameCut(d.buffer).Some?
    requires after == d.(buffer := d.buffer[FrameCut(d.buffer).value.consumed..])
    ensures Accounted(source, after)
  {
    var received := ReceivedBytes(source[..|source| - |d.source|]);
    var frames :| WholeFrames(frames) && received == frames + d.buffer;
    var used := d.buffer[..FrameCut(d.buffer).value.consumed];
    OneMoreFrame(frames, d.buffer);
    assert received == (frames + used) + after.buffer;
  }

  /** Polling the source moves a chunk that fits into the buffer. */
  lemma PollAccounts(reader: Reader, source: seq<Item>, d: Decoder)
    requires Accounted(source, d) && !d.terminal
    ensures Accounted(source, PollSource(reader, d).after)
  {
    var after := PollSource(reader, d).after;
    if d.source != [] {
      var n := |source| - |d.source|;
      assert source[n] == d.source[0] && after.source == source[n + 1..];
      assert source[..n + 1][..n] == source[..n];
      var frames :| WholeFrames(frames) && ReceivedBytes(source[..n]) == frames + d.buffer;
      if !after.terminal && d.source[0].Chunk? {
        assert (frames + d.buffer) + d.source[0].bytes == frames + after.buffer;
      } else if !after.terminal {
        assert (frames + d.buffer) + [] == frames + after.buffer;
      }
    }
  }

  lemma TurnAccounts(reader: Reader, source: seq<Item>, d: Decoder)
    requires Accounted(source, d)
    ensures Accounted(source, TurnOf(reader, d).after)
  {
    if !d.terminal {
      var f := FrontOf(reader, d.buffer);
      if f.Partial? {
        PollAccounts(reader, source, d);
      } else if !f.End? {
        FrameTurnAccounts(source, d, d.(buffer := f.rest));
      }
    }
  }

  lemma StartAccounted(source: seq<Item>)
    ensures Accounted(source, Decoder(source, [], false))
  {
    assert WholeFrames([]) && ReceivedBytes(source[..0]) == [] + [];
  }

  /** On any source, however long, at the top of every loop turn the buffer is within the limit, so the guard
      before polling never fires, and no received byte has been lost. */
  lemma {:induction false} EveryTurnAccounted(reader: Reader, source: seq<Item>, d: Decoder, turns: nat)
    requires Reaches(reader, Decoder(source, [], false), d, turns)
    ensures Accounted(source, d)
    decreases turns
  {
    if turns == 0 {
      StartAccounted(source);
    } else {
      var e :| Reaches(reader, Decoder(source, [], false), e, turns - 1) && TurnOf(reader, e).after == d;
      EveryTurnAccounted(reader, source, e, turns - 1);
      TurnAccounts(reader, source, e);
    }
  }

  /** Only the last event can be terminal, and it is if the source is over. */
  predicate EndsOnce(events: seq<Event>, closes: bool) {
    && (forall i :: 0 <= i < |events| - 1 ==> events[i].Frame?)
    && (closes ==> events != [] && IsTerminal(events[|events| - 1]))
  }

  lemma FrameThenEnds(event: Event, rest: seq<Event>, closes: bool)
    requires event.Frame? && EndsOnce(rest, closes)
    ensures EndsOnce([event] + rest, closes)
  {
  }

  /** A terminal event is last, and a source that ends or fails always yields one. */
  lemma {:induction false} ExactlyOneTerminal(reader: Reader, d: Decoder)
    requires !d.terminal
    ensures EndsOnce(Events(reader, d), Closes(d.source))
    decreases |d.source|, |d.buffer|
  {
    TurnProgress(reader, d);
    match TurnOf(reader, d)
    case Again(after) => ExactlyOneTerminal(reader, after);
    case Return(Ready(event), after) =>
      if !after.terminal {
        ExactlyOneTerminal(reader, after);
        FrameThenEnds(event.value, Events(reader, after), Closes(d.source));
      }
    case Return(Pending, after) =>
      if d.source != [] {
        ExactlyOneTerminal(reader, after);
      }
  }
}
