/** Deflation: the envelope that carries a compressed Hessian body.  The
    writer frames the body between a start-envelope call with an empty header
    and an empty footer followed by completeEnvelope; the reader checks the
    frame and hands out the body.  DEFLATE itself is an opaque filter: the
    body travels as a `Deflated` value standing for its compressed bytes. */
module Deflation {
  import opened Wire
  import opened HessianOutput
  import opened HessianInput

  /** Deflation.class.getName(), the method name the writer puts on the envelope. */
  const DeflationName := "com.caucho.hessian.io.Deflation"

  /** DeflaterOutputStream: a write after the filter has been finished. */
  const WriteBeyondEnd: Exception := Raised(IOError, 4)

  /** IndexOutOfBoundsException of an offset and length outside the array. */
  const IndexOutOfBounds: Exception := Raised(RuntimeError, 5)

  /** InflaterInputStream: a read after the filter has been closed. */
  const StreamClosed: Exception := Raised(IOError, 6)

  /** The message of the IOException unwrap throws on a foreign envelope. */
  function MismatchText(expected: string, found: string): string
  {
    "expected hessian Envelope method '" + expected + "' at '" + found + "'"
  }

  const NoHeadersText := "expected no headers"
  const FooterText := "Unexpected footer"

  // ---------------------------------------------------------------------------
  // The writer

  /** Calls made on the outer stream one after the other, stopping at the
      first one that throws. */
  function InOrder(failure: Faults, cs: seq<Call>): Outcome
  {
    if cs == [] then Outcome([], None) else Then(Single(failure, cs[0]), InOrder(failure, cs[1..]))
  }

  /** What performing calls in order emits: a prefix of them, every one of
      which succeeded; all of them exactly when there is no failure, and
      otherwise the failure is that of the first call not emitted. */
  lemma {:induction false} InOrderStops(failure: Faults, cs: seq<Call>)
    ensures var r := InOrder(failure, cs);
            |r.emitted| <= |cs| && r.emitted == cs[..|r.emitted|]
            && (r.error.None? <==> |r.emitted| == |cs|)
            && (r.error.Some? ==> r.error == FaultOf(failure, cs[|r.emitted|]))
            && (forall i :: 0 <= i < |r.emitted| ==> FaultOf(failure, cs[i]).None?)
    decreases |cs|
  {
    if cs != [] {
      InOrderStops(failure, cs[1..]);
      var rest := InOrder(failure, cs[1..]);
      if FaultOf(failure, cs[0]).None? {
        var r := InOrder(failure, cs);
        assert r.emitted == [cs[0]] + rest.emitted;
        assert cs == [cs[0]] + cs[1..];
        forall i | 0 <= i < |r.emitted|
          ensures FaultOf(failure, cs[i]).None?
        {
          if i > 0 {
            assert cs[i] == cs[1..][i - 1];
          }
        }
      }
    }
  }

  /** The calls the DeflateOutputStream constructor makes: the envelope start
      naming Deflation, then a header count of 0. */
  function OpenCalls(): seq<Call>
  {
    [StartEnvelope(DeflationName), WriteInt(0)]
  }

  /** The calls the first close makes: the filter's close flushes the
      compressed body into the body stream, the body stream is closed, then
      the footer count 0, completeEnvelope and the close of the outer stream. */
  function CloseCalls(body: seq<Byte>): seq<Call>
  {
    [BodyWrite(Deflated(body)), BodyClose, WriteInt(0), CompleteEnvelope, Close]
  }

  /** DeflateOutputStream: `out` is the outer stream until the first close
      nulls it; `pending` is what has been written to the deflate filter, and
      `finished` says whether the filter has been closed. */
  class DeflateOutputStream {
    var out: Output?
    var pending: seq<Byte>
    var finished: bool

    constructor (out: Output)
      ensures this.out == out && pending == [] && !finished
    {
      this.out := out;
      pending := [];
      finished := false;
    }

    /** write(int): the low byte goes to the deflate filter. */
    method WriteByte(ch: int) returns (e: Option<Exception>)
      modifies this
      ensures out == old(out) && finished == old(finished)
      ensures e == if finished then Some(WriteBeyondEnd) else None
      ensures pending == if finished then old(pending) else old(pending) + [ch % 256]
    {
      if finished {
        return Some(WriteBeyondEnd);
      }
      pending := pending + [ch % 256];
      return None;
    }

    /** write(byte[], int, int): `buffer[offset..offset + length]` goes to the
        deflate filter. */
    method WriteBytes(buffer: array<Byte>, offset: int, length: int) returns (e: Option<Exception>)
      modifies this
      ensures out == old(out) && finished == old(finished)
      ensures e == if finished then Some(WriteBeyondEnd)
                   else if offset < 0 || length < 0 || offset + length > buffer.Length then Some(IndexOutOfBounds)
                   else None
      ensures pending == if e.Some? then old(pending) else old(pending) + buffer[offset..offset + length]
    {
      if finished {
        return Some(WriteBeyondEnd);
      }
      if offset < 0 || length < 0 || offset + length > buffer.Length {
        return Some(IndexOutOfBounds);
      }
      pending := pending + buffer[offset..offset + length];
      return None;
    }

    /** close: nulls `out` first, so only the first close reaches the outer
        stream; it makes the calls of CloseCalls up to the first failure. */
    method Close() returns (e: Option<Exception>)
      modifies this, out
      ensures out == null && pending == old(pending)
      ensures finished == (old(finished) || old(out) != null)
      ensures old(out) == null ==> e.None?
      ensures old(out) != null ==>
                var outcome := InOrder(old(out).failure, CloseCalls(old(pending)));
                e == outcome.error && old(out).trace == old(out.trace) + outcome.emitted
    {
      var o := out;
      out := null;
      if o == null {
        return None;
      }
      finished := true;
      e := PerformAll(o, CloseCalls(pending));
    }
  }

  /** Makes the calls `cs` on `out` one after the other, stopping at the
      first that throws. */
  method PerformAll(out: Output, cs: seq<Call>) returns (e: Option<Exception>)
    modifies out
    ensures var outcome := InOrder(out.failure, cs);
            e == outcome.error && out.trace == old(out.trace) + outcome.emitted
    decreases |cs|
  {
    if cs == [] {
      assert out.trace + [] == out.trace;
      return None;
    }
    ghost var t0 := out.trace;
    e := out.Perform(cs[0]);
    if e.Some? {
      assert out.trace == t0 + [];
      return;
    }
    e := PerformAll(out, cs[1..]);
    assert out.trace == t0 + ([cs[0]] + InOrder(out.failure, cs[1..]).emitted);
  }

  /** The DeflateOutputStream constructor: starts the envelope and writes the
      empty header on `out`; the stream exists only when both calls succeed. */
  method OpenDeflater(out: Output) returns (r: Result<DeflateOutputStream, Exception>)
    modifies out
    ensures var outcome := InOrder(out.failure, OpenCalls());
            out.trace == old(out.trace) + outcome.emitted
            && (r.Err? <==> outcome.error.Some?)
            && (r.Err? ==> r.error == outcome.error.value)
    ensures r.Ok? ==> fresh(r.value) && r.value.out == out && r.value.pending == [] && !r.value.finished
  {
    var e := PerformAll(out, OpenCalls());
    if e.Some? {
      return Err(e.value);
    }
    var s := new DeflateOutputStream(out);
    return Ok(s);
  }

  /** The Hessian2Output that wrap puts over the deflating stream. */
  class FilterOutput {
    const stream: DeflateOutputStream
    var closeStreamOnClose: bool

    constructor (stream: DeflateOutputStream)
      ensures this.stream == stream && !closeStreamOnClose
    {
      this.stream := stream;
      closeStreamOnClose := false;
    }

    method SetCloseStreamOnClose(close: bool)
      modifies this
      ensures closeStreamOnClose == close
    {
      closeStreamOnClose := close;
    }
  }

  // ---------------------------------------------------------------------------
  // The reader

  /** What opening the reader or unwrapping an envelope at `p` gives: the body
      (its uncompressed bytes), where the cursor ends and the calls made. */
  datatype Opened = Opened(result: Result<seq<Byte>, Exception>, stop: nat, calls: seq<InCall>)

  /** The DeflateInputStream constructor: a header count that must be 0, then
      the body. */
  function OpenSpec(ts: seq<Token>, p: nat): Opened
  {
    match IntAt(ts, p)
    case Err(e) => Opened(Err(e), p, [InReadInt])
    case Ok(count) =>
      if count != 0 then Opened(Err(IOExceptionOf(NoHeadersText)), p + 1, [InReadInt])
      else
        match BodyAt(ts, p + 1)
        case Err(e) => Opened(Err(e), p + 1, [InReadInt, InReadInputStream])
        case Ok(chunk) => Opened(Ok(chunk.plain), p + 2, [InReadInt, InReadInputStream])
  }

  /** unwrap: the envelope, its method, which must be `name`, then the
      DeflateInputStream constructor. */
  function UnwrapSpec(ts: seq<Token>, p: nat, name: string): Opened
  {
    match EnvelopeAt(ts, p)
    case Err(e) => Opened(Err(e), p, [InReadEnvelope])
    case Ok(_) =>
      match MethodAt(ts, p + 1)
      case Err(e) => Opened(Err(e), p + 1, [InReadEnvelope, InReadMethod])
      case Ok(m) =>
        if m != name then
          Opened(Err(IOExceptionOf(MismatchText(name, m))), p + 2, [InReadEnvelope, InReadMethod])
        else
          var o := OpenSpec(ts, p + 2);
          Opened(o.result, o.stop, [InReadEnvelope, InReadMethod] + o.calls)
  }

  /** What the first close of the reader does at `p`. */
  datatype Closed = Closed(error: Option<Exception>, stop: nat, calls: seq<InCall>)

  /** A footer count that must be 0, then completeEnvelope and the close of
      the outer stream. */
  function CloseSpec(ts: seq<Token>, p: nat): Closed
  {
    match IntAt(ts, p)
    case Err(e) => Closed(Some(e), p, [InReadInt])
    case Ok(count) =>
      if count != 0 then Closed(Some(IOExceptionOf(FooterText)), p + 1, [InReadInt])
      else if EndMarkAt(ts, p + 1).Some? then Closed(EndMarkAt(ts, p + 1), p + 1, [InReadInt, InCompleteEnvelope])
      else Closed(None, p + 2, [InReadInt, InCompleteEnvelope, InClose])
  }

  /** DeflateInputStream: `input` is the outer stream until the first close
      nulls it; `remaining` is what the inflate filter has yet to yield, and
      `inflaterOpen` says whether the filter is still open. */
  class DeflateInputStream {
    var input: Input?
    var remaining: seq<Byte>
    var inflaterOpen: bool

    constructor (input: Input, body: seq<Byte>)
      ensures this.input == input && remaining == body && inflaterOpen
    {
      this.input := input;
      remaining := body;
      inflaterOpen := true;
    }

    /** read(): the next byte of the body, or -1 at its end. */
    method Read() returns (r: Result<int, Exception>)
      modifies this
      ensures input == old(input) && inflaterOpen == old(inflaterOpen)
      ensures !inflaterOpen ==> r == Err(StreamClosed) && remaining == old(remaining)
      ensures inflaterOpen && old(remaining) == [] ==> r == Ok(-1) && remaining == []
      ensures inflaterOpen && old(remaining) != [] ==>
                r == Ok(old(remaining)[0]) && remaining == old(remaining)[1..]
    {
      if !inflaterOpen {
        return Err(StreamClosed);
      }
      if remaining == [] {
        return Ok(-1);
      }
      r := Ok(remaining[0]);
      remaining := remaining[1..];
    }

    /** read(byte[], int, int): copies up to `length` bytes of the body into
        `buffer` at `offset` and reports how many, or -1 at the end of the body. */
    method ReadBlock(buffer: array<Byte>, offset: int, length: int) returns (r: Result<int, Exception>)
      modifies this, buffer
      ensures input == old(input) && inflaterOpen == old(inflaterOpen)
      ensures r.Err? ==> remaining == old(remaining) && buffer[..] == old(buffer[..])
      ensures !inflaterOpen ==> r == Err(StreamClosed)
      ensures inflaterOpen && (offset < 0 || length < 0 || offset + length > buffer.Length) ==>
                r == Err(IndexOutOfBounds)
      ensures inflaterOpen && 0 <= offset && 0 <= length && offset + length <= buffer.Length ==>
                r.Ok? &&
                var n := if length < |old(remaining)| then length else |old(remaining)|;
                r.value == (if length > 0 && n == 0 then -1 else n)
                && remaining == old(remaining)[n..]
                && buffer[..] == old(buffer[..offset]) + old(remaining)[..n] + old(buffer[offset + n..])
    {
      if !inflaterOpen {
        return Err(StreamClosed);
      }
      if offset < 0 || length < 0 || offset + length > buffer.Length {
        return Err(IndexOutOfBounds);
      }
      var body := remaining;
      var n := if length < |body| then length else |body|;
      var i := 0;
      while i < n
        invariant 0 <= i <= n
        invariant unchanged(this)
        invariant forall k :: 0 <= k < buffer.Length ==>
                    buffer[k] == if offset <= k < offset + i then body[k - offset] else old(buffer[k])
      {
        buffer[offset + i] := body[i];
        i := i + 1;
      }
      assert buffer[..] == old(buffer[..offset]) + body[..n] + old(buffer[offset + n..]);
      remaining := body[n..];
      r := Ok(if length > 0 && n == 0 then -1 else n);
    }

    /** close: nulls `input` first, so only the first close reaches the
        outer stream: the footer count, which must be 0, completeEnvelope and
        the close of the outer stream. */
    method Close() returns (e: Option<Exception>)
      modifies this, input
      ensures input == null && remaining == old(remaining)
      ensures inflaterOpen == (old(inflaterOpen) && old(input) == null)
      ensures old(input) == null ==> e.None?
      ensures old(input) != null ==>
                var spec := CloseSpec(old(input).tokens, old(input.pos));
                e == spec.error && old(input).pos == spec.stop
                && old(input).log == old(input.log) + spec.calls
                && old(input).refs == old(input.refs)
    {
      var i := input;
      input := null;
      if i == null {
        return None;
      }
      inflaterOpen := false;
      ghost var log0 := i.log;
      var count := i.ReadInt();
      if count.Err? {
        return Some(count.error);
      }
      if count.value != 0 {
        return Some(IOExceptionOf(FooterText));
      }
      e := i.CompleteEnvelope();
      if e.Some? {
        return;
      }
      i.Close();
      assert i.log == log0 + [InReadInt, InCompleteEnvelope, InClose];
    }
  }

  /** The DeflateInputStream constructor on `input`. */
  method OpenInflater(input: Input) returns (r: Result<DeflateInputStream, Exception>)
    modifies input
    ensures var spec := OpenSpec(input.tokens, old(input.pos));
            input.pos == spec.stop && input.log == old(input.log) + spec.calls
            && (r.Err? <==> spec.result.Err?)
            && (r.Err? ==> r.error == spec.result.error)
            && (r.Ok? ==> fresh(r.value) && r.value.input == input
                          && r.value.remaining == spec.result.value && r.value.inflaterOpen)
    ensures input.refs == old(input.refs) && input.closed == old(input.closed)
  {
    ghost var log0 := input.log;
    var count := input.ReadInt();
    if count.Err? {
      return Err(count.error);
    }
    if count.value != 0 {
      return Err(IOExceptionOf(NoHeadersText));
    }
    var body := input.ReadInputStream();
    assert input.log == log0 + [InReadInt, InReadInputStream];
    if body.Err? {
      return Err(body.error);
    }
    var s := new DeflateInputStream(input, body.value.plain);
    return Ok(s);
  }

  /** The Hessian2Input that unwrapHeaders puts over the inflating stream. */
  class FilterInput {
    const stream: DeflateInputStream
    var closeStreamOnClose: bool

    constructor (stream: DeflateInputStream)
      ensures this.stream == stream && !closeStreamOnClose
    {
      this.stream := stream;
      closeStreamOnClose := false;
    }

    method SetCloseStreamOnClose(close: bool)
      modifies this
      ensures closeStreamOnClose == close
    {
      closeStreamOnClose := close;
    }
  }

  // ---------------------------------------------------------------------------
  // The envelope

  /** A Deflation envelope; `runtimeName` is getClass().getName(), which is
      DeflationName for Deflation itself and differs for a subclass. */
  class DeflationEnvelope {
    const runtimeName: string

    constructor (runtimeName: string)
      ensures this.runtimeName == runtimeName
    {
      this.runtimeName := runtimeName;
    }

    /** wrap: a Hessian2Output over a new DeflateOutputStream on `out`, set to
        close that stream when it is closed. */
    method Wrap(out: Output) returns (r: Result<FilterOutput, Exception>)
      modifies out
      ensures var outcome := InOrder(out.failure, OpenCalls());
              out.trace == old(out.trace) + outcome.emitted
              && (r.Err? <==> outcome.error.Some?)
              && (r.Err? ==> r.error == outcome.error.value)
      ensures r.Ok? ==> fresh(r.value) && fresh(r.value.stream) && r.value.closeStreamOnClose
                        && r.value.stream.out == out && r.value.stream.pending == [] && !r.value.stream.finished
    {
      var os := OpenDeflater(out);
      if os.Err? {
        return Err(os.error);
      }
      var filter := new FilterOutput(os.value);
      filter.SetCloseStreamOnClose(true);
      return Ok(filter);
    }

    /** unwrap: reads the envelope and its method, rejects a method other
        than `runtimeName`, then unwrapHeaders. */
    method Unwrap(input: Input) returns (r: Result<FilterInput, Exception>)
      modifies input
      ensures var spec := UnwrapSpec(input.tokens, old(input.pos), runtimeName);
              input.pos == spec.stop && input.log == old(input.log) + spec.calls
              && (r.Err? <==> spec.result.Err?)
              && (r.Err? ==> r.error == spec.result.error)
              && (r.Ok? ==> fresh(r.value) && fresh(r.value.stream) && r.value.closeStreamOnClose
                            && r.value.stream.input == input && r.value.stream.remaining == spec.result.value
                            && r.value.stream.inflaterOpen)
      ensures input.refs == old(input.refs) && input.closed == old(input.closed)
    {
      ghost var log0 := input.log;
      var version := input.ReadEnvelope();
      if version.Err? {
        return Err(version.error);
      }
      var m := input.ReadMethod();
      assert input.log == log0 + [InReadEnvelope, InReadMethod];
      if m.Err? {
        return Err(m.error);
      }
      if m.value != runtimeName {
        return Err(IOExceptionOf(MismatchText(runtimeName, m.value)));
      }
      ghost var log1 := input.log;
      r := UnwrapHeaders(input);
      LogAppend(log0, [InReadEnvelope, InReadMethod], input.log[|log1|..]);
      assert input.log == log1 + input.log[|log1|..];
    }

    /** unwrapHeaders: a Hessian2Input over a new DeflateInputStream on
        `input`, set to close that stream when it is closed. */
    method UnwrapHeaders(input: Input) returns (r: Result<FilterInput, Exception>)
      modifies input
      ensures var spec := OpenSpec(input.tokens, old(input.pos));
              input.pos == spec.stop && input.log == old(input.log) + spec.calls
              && (r.Err? <==> spec.result.Err?)
              && (r.Err? ==> r.error == spec.result.error)
              && (r.Ok? ==> fresh(r.value) && fresh(r.value.stream) && r.value.closeStreamOnClose
                            && r.value.stream.input == input && r.value.stream.remaining == spec.result.value
                            && r.value.stream.inflaterOpen)
      ensures input.refs == old(input.refs) && input.closed == old(input.closed)
    {
      var stream := OpenInflater(input);
      if stream.Err? {
        return Err(stream.error);
      }
      var filter := new FilterInput(stream.value);
      filter.SetCloseStreamOnClose(true);
      return Ok(filter);
    }
  }

  // ---------------------------------------------------------------------------
  // Properties

  /** The stream an envelope writer leaves when no call fails: the envelope
      start and empty header, the body, the empty footer and the envelope end. */
  function Session(body: seq<Byte>): seq<Call>
  {
    OpenCalls() + CloseCalls(body)
  }

  /** When no call fails, opening and closing the writer emit the whole
      session, in order. */
  lemma {:induction false} FaultFreeSession(failure: Faults, body: seq<Byte>)
    requires forall c :: c in Session(body) ==> c !in failure
    ensures InOrder(failure, OpenCalls()) == Outcome(OpenCalls(), None)
    ensures InOrder(failure, CloseCalls(body)) == Outcome(CloseCalls(body), None)
  {
    AllSucceed(failure, OpenCalls());
    AllSucceed(failure, CloseCalls(body));
  }

  lemma {:induction false} AllSucceed(failure: Faults, cs: seq<Call>)
    requires forall c :: c in cs ==> c !in failure
    ensures InOrder(failure, cs) == Outcome(cs, None)
    decreases |cs|
  {
    if cs != [] {
      assert cs[0] in cs;
      forall c | c in cs[1..]
        ensures c !in failure
      {
        assert c in cs;
      }
      AllSucceed(failure, cs[1..]);
      assert [cs[0]] + cs[1..] == cs;
    }
  }

  /** The tokens the outer stream hands a reader for the calls a writer made:
      the envelope start becomes the envelope and its method, an int stays
      an int, the body chunk becomes the body and completeEnvelope the end
      marker; the closes of the body and of the stream carry no token. */
  function TokensOfCall(version: int, c: Call): seq<Token>
  {
    if c.StartEnvelope? then [TEnvelope(version), TMethod(c.envelopeMethod)]
    else if c.WriteInt? then [TInt(c.i)]
    else if c.BodyWrite? then [TBody(c.chunk)]
    else if c.CompleteEnvelope? then [TEnd]
    else []
  }

  function Transcribe(version: int, cs: seq<Call>): seq<Token>
  {
    if cs == [] then [] else TokensOfCall(version, cs[0]) + Transcribe(version, cs[1..])
  }

  /** Envelope round trip: what a Deflation writer emits, read back by a
      Deflation reader, unwraps to the body that was written; the reader's
      close then accepts the footer and completes the envelope. */
  lemma EnvelopeRoundTrip(version: int, body: seq<Byte>, after: seq<Token>)
    ensures var ts := Transcribe(version, Session(body)) + after;
            var unwrapped := UnwrapSpec(ts, 0, DeflationName);
            unwrapped == Opened(Ok(body), 4, [InReadEnvelope, InReadMethod, InReadInt, InReadInputStream])
            && CloseSpec(ts, unwrapped.stop) == Closed(None, 6, [InReadInt, InCompleteEnvelope, InClose])
  {
    SessionTokens(version, body);
  }

  /** The tokens of a fault-free session. */
  lemma SessionTokens(version: int, body: seq<Byte>)
    ensures Transcribe(version, Session(body))
            == [TEnvelope(version), TMethod(DeflationName), TInt(0), TBody(Deflated(body)), TInt(0), TEnd]
  {
    TranscribeAppend(version, OpenCalls(), CloseCalls(body));
    OpenTokens(version);
    CloseTokens(version, body);
  }

  lemma OpenTokens(version: int)
    ensures Transcribe(version, OpenCalls()) == [TEnvelope(version), TMethod(DeflationName), TInt(0)]
  {
    TranscribeCons(version, WriteInt(0), []);
    assert [WriteInt(0)] == [WriteInt(0)] + [];
    TranscribeCons(version, StartEnvelope(DeflationName), [WriteInt(0)]);
    assert OpenCalls() == [StartEnvelope(DeflationName)] + [WriteInt(0)];
  }

  lemma CloseTokens(version: int, body: seq<Byte>)
    ensures Transcribe(version, CloseCalls(body)) == [TBody(Deflated(body)), TInt(0), TEnd]
  {
    var c4 := [Call.Close];
    var c3 := [CompleteEnvelope] + c4;
    var c2 := [WriteInt(0)] + c3;
    var c1 := [BodyClose] + c2;
    assert c4 == [Call.Close] + [];
    TranscribeCons(version, Call.Close, []);
    TranscribeCons(version, CompleteEnvelope, c4);
    TranscribeCons(version, WriteInt(0), c3);
    TranscribeCons(version, BodyClose, c2);
    TranscribeCons(version, BodyWrite(Deflated(body)), c1);
    assert CloseCalls(body) == [BodyWrite(Deflated(body))] + c1;
  }

  lemma {:induction false} TranscribeAppend(version: int, a: seq<Call>, b: seq<Call>)
    ensures Transcribe(version, a + b) == Transcribe(version, a) + Transcribe(version, b)
    decreases |a|
  {
    if a == [] {
      assert a + b == b;
    } else {
      TranscribeAppend(version, a[1..], b);
      assert (a + b)[1..] == a[1..] + b;
    }
  }

  lemma TranscribeCons(version: int, c: Call, cs: seq<Call>)
    ensures Transcribe(version, [c] + cs) == TokensOfCall(version, c) + Transcribe(version, cs)
  {
    assert ([c] + cs)[1..] == cs;
  }

  /** The reader rejects an envelope whose method is not its own class name,
      before reading any header. */
  lemma ForeignEnvelopeRejected(ts: seq<Token>, p: nat, name: string)
    requires p + 1 < |ts| && ts[p].TEnvelope? && ts[p + 1].TMethod? && ts[p + 1].name != name
    ensures UnwrapSpec(ts, p, name)
            == Opened(Err(IOExceptionOf(MismatchText(name, ts[p + 1].name))), p + 2, [InReadEnvelope, InReadMethod])
  {
  }

  /** A Deflation writer's envelope, unwrapped by an envelope whose class is
      not Deflation (a subclass), is rejected: wrap always names Deflation. */
  lemma SubclassRejectsDeflationEnvelope(version: int, body: seq<Byte>, name: string)
    requires name != DeflationName
    ensures UnwrapSpec(Transcribe(version, Session(body)), 0, name).result
            == Err(IOExceptionOf(MismatchText(name, DeflationName)))
  {
    SessionTokens(version, body);
  }

  /** A non-zero header count is rejected with "expected no headers" before the body is read. */
  lemma HeadersRejected(ts: seq<Token>, p: nat)
    requires p < |ts| && ts[p].TInt? && ts[p].i != 0
    ensures OpenSpec(ts, p) == Opened(Err(IOExceptionOf(NoHeadersText)), p + 1, [InReadInt])
  {
  }

  /** A non-zero footer count is rejected with "Unexpected footer", and the
      envelope is then neither completed nor closed. */
  lemma FooterRejected(ts: seq<Token>, p: nat)
    requires p < |ts| && ts[p].TInt? && ts[p].i != 0
    ensures CloseSpec(ts, p) == Closed(Some(IOExceptionOf(FooterText)), p + 1, [InReadInt])
  {
  }
}
