/** The input stream (AbstractHessianInput) as seen by the decoders: a fixed
    sequence of tokens read through a cursor, the reference table that addRef
    fills, and the log of the calls made on it.  A read that meets a token of
    the wrong kind fails and leaves the cursor where it was. */
module HessianInput {
  import opened Wire

  /** One call made on the input stream. */
  datatype InCall =
    | InAddRef(obj: ObjId)
    | InReadString
    | InReadInt
    | InReadObject
    | InReadEnd
    | InReadMapEnd
    | InReadEnvelope
    | InReadMethod
    | InReadInputStream
    | InCompleteEnvelope
    | InClose

  /** isEnd: the end marker is next, or the input is exhausted. */
  predicate EndAt(ts: seq<Token>, p: nat)
  {
    p >= |ts| || ts[p].TEnd?
  }

  /** The value readObject makes of a token; None for tokens that are no value. */
  function ValueOf(t: Token): (r: Option<Value>)
    ensures r.Some? <==> (t.TString? || t.TInt? || t.TValue?)
    ensures t.TValue? ==> r == Some(t.v)
  {
    match t
    case TString(s) => Some(if s.Some? then VString(s.value) else VNull)
    case TInt(i) => Some(VInt(i))
    case TValue(v) => Some(v)
    case _ => None
  }

  /** What readString finds at `p`. */
  function StringAt(ts: seq<Token>, p: nat): (r: Result<Option<string>, Exception>)
    ensures r.Ok? <==> p < |ts| && ts[p].TString?
    ensures r.Ok? ==> r.value == ts[p].s
    ensures r.Err? ==> r.error == UnexpectedToken
  {
    if p < |ts| && ts[p].TString? then Ok(ts[p].s) else Err(UnexpectedToken)
  }

  /** What readInt finds at `p`. */
  function IntAt(ts: seq<Token>, p: nat): (r: Result<int, Exception>)
    ensures r.Ok? <==> p < |ts| && ts[p].TInt?
    ensures r.Ok? ==> r.value == ts[p].i
    ensures r.Err? ==> r.error == UnexpectedToken
  {
    if p < |ts| && ts[p].TInt? then Ok(ts[p].i) else Err(UnexpectedToken)
  }

  /** What readObject finds at `p`. */
  function ObjectAt(ts: seq<Token>, p: nat): (r: Result<Value, Exception>)
    ensures r.Ok? <==> p < |ts| && ValueOf(ts[p]).Some?
    ensures r.Ok? ==> Some(r.value) == ValueOf(ts[p])
    ensures r.Err? ==> r.error == UnexpectedToken
  {
    if p < |ts| && ValueOf(ts[p]).Some? then Ok(ValueOf(ts[p]).value) else Err(UnexpectedToken)
  }

  /** Whether readEnd, readMapEnd or completeEnvelope finds the end marker at `p`. */
  function EndMarkAt(ts: seq<Token>, p: nat): (r: Option<Exception>)
    ensures r.None? <==> p < |ts| && ts[p].TEnd?
    ensures r.Some? ==> r.value == UnexpectedToken
  {
    if p < |ts| && ts[p].TEnd? then None else Some(UnexpectedToken)
  }

  /** What readEnvelope finds at `p`: the envelope version. */
  function EnvelopeAt(ts: seq<Token>, p: nat): (r: Result<int, Exception>)
    ensures r.Ok? <==> p < |ts| && ts[p].TEnvelope?
    ensures r.Ok? ==> r.value == ts[p].version
    ensures r.Err? ==> r.error == UnexpectedToken
  {
    if p < |ts| && ts[p].TEnvelope? then Ok(ts[p].version) else Err(UnexpectedToken)
  }

  /** What readMethod finds at `p`. */
  function MethodAt(ts: seq<Token>, p: nat): (r: Result<string, Exception>)
    ensures r.Ok? <==> p < |ts| && ts[p].TMethod?
    ensures r.Ok? ==> r.value == ts[p].name
    ensures r.Err? ==> r.error == UnexpectedToken
  {
    if p < |ts| && ts[p].TMethod? then Ok(ts[p].name) else Err(UnexpectedToken)
  }

  /** What readInputStream finds at `p`: a binary body. */
  function BodyAt(ts: seq<Token>, p: nat): (r: Result<Deflated, Exception>)
    ensures r.Ok? <==> p < |ts| && ts[p].TBody?
    ensures r.Ok? ==> r.value == ts[p].chunk
    ensures r.Err? ==> r.error == UnexpectedToken
  {
    if p < |ts| && ts[p].TBody? then Ok(ts[p].chunk) else Err(UnexpectedToken)
  }

  /** Appending calls to a log in two steps is appending them at once. */
  lemma LogAppend(log: seq<InCall>, a: seq<InCall>, b: seq<InCall>)
    ensures (log + a) + b == log + (a + b)
  {
  }

  class Input {
    const tokens: seq<Token>
    var pos: nat
    var refs: seq<ObjId>
    var log: seq<InCall>
    var closed: bool

    constructor (tokens: seq<Token>)
      ensures this.tokens == tokens
      ensures pos == 0 && refs == [] && log == [] && !closed
    {
      this.tokens := tokens;
      pos := 0;
      refs := [];
      log := [];
      closed := false;
    }

    /** isEnd */
    predicate IsEnd()
      reads this
    {
      EndAt(tokens, pos)
    }

    /** addRef: registers `o` and returns its index in the reference table. */
    method AddRef(o: ObjId) returns (index: nat)
      modifies this
      ensures refs == old(refs) + [o] && index == |old(refs)|
      ensures log == old(log) + [InAddRef(o)]
      ensures pos == old(pos) && closed == old(closed)
    {
      index := |refs|;
      refs := refs + [o];
      log := log + [InAddRef(o)];
    }

    method ReadString() returns (r: Result<Option<string>, Exception>)
      modifies this
      ensures r == StringAt(tokens, old(pos))
      ensures pos == if r.Ok? then old(pos) + 1 else old(pos)
      ensures log == old(log) + [InReadString]
      ensures refs == old(refs) && closed == old(closed)
    {
      r := StringAt(tokens, pos);
      if r.Ok? {
        pos := pos + 1;
      }
      log := log + [InReadString];
    }

    method ReadInt() returns (r: Result<int, Exception>)
      modifies this
      ensures r == IntAt(tokens, old(pos))
      ensures pos == if r.Ok? then old(pos) + 1 else old(pos)
      ensures log == old(log) + [InReadInt]
      ensures refs == old(refs) && closed == old(closed)
    {
      r := IntAt(tokens, pos);
      if r.Ok? {
        pos := pos + 1;
      }
      log := log + [InReadInt];
    }

    /** readObject, and readObject(expectedClass): the expected class is
        checked by the caller's cast. */
    method ReadObject() returns (r: Result<Value, Exception>)
      modifies this
      ensures r == ObjectAt(tokens, old(pos))
      ensures pos == if r.Ok? then old(pos) + 1 else old(pos)
      ensures log == old(log) + [InReadObject]
      ensures refs == old(refs) && closed == old(closed)
    {
      r := ObjectAt(tokens, pos);
      if r.Ok? {
        pos := pos + 1;
      }
      log := log + [InReadObject];
    }

    method ReadEnd() returns (e: Option<Exception>)
      modifies this
      ensures e == EndMarkAt(tokens, old(pos))
      ensures pos == if e.None? then old(pos) + 1 else old(pos)
      ensures log == old(log) + [InReadEnd]
      ensures refs == old(refs) && closed == old(closed)
    {
      e := EndMarkAt(tokens, pos);
      if e.None? {
        pos := pos + 1;
      }
      log := log + [InReadEnd];
    }

    method ReadMapEnd() returns (e: Option<Exception>)
      modifies this
      ensures e == EndMarkAt(tokens, old(pos))
      ensures pos == if e.None? then old(pos) + 1 else old(pos)
      ensures log == old(log) + [InReadMapEnd]
      ensures refs == old(refs) && closed == old(closed)
    {
      e := EndMarkAt(tokens, pos);
      if e.None? {
        pos := pos + 1;
      }
      log := log + [InReadMapEnd];
    }

    method ReadEnvelope() returns (r: Result<int, Exception>)
      modifies this
      ensures r == EnvelopeAt(tokens, old(pos))
      ensures pos == if r.Ok? then old(pos) + 1 else old(pos)
      ensures log == old(log) + [InReadEnvelope]
      ensures refs == old(refs) && closed == old(closed)
    {
      r := EnvelopeAt(tokens, pos);
      if r.Ok? {
        pos := pos + 1;
      }
      log := log + [InReadEnvelope];
    }

    method ReadMethod() returns (r: Result<string, Exception>)
      modifies this
      ensures r == MethodAt(tokens, old(pos))
      ensures pos == if r.Ok? then old(pos) + 1 else old(pos)
      ensures log == old(log) + [InReadMethod]
      ensures refs == old(refs) && closed == old(closed)
    {
      r := MethodAt(tokens, pos);
      if r.Ok? {
        pos := pos + 1;
      }
      log := log + [InReadMethod];
    }

    /** readInputStream: the binary body that follows. */
    method ReadInputStream() returns (r: Result<Deflated, Exception>)
      modifies this
      ensures r == BodyAt(tokens, old(pos))
      ensures pos == if r.Ok? then old(pos) + 1 else old(pos)
      ensures log == old(log) + [InReadInputStream]
      ensures refs == old(refs) && closed == old(closed)
    {
      r := BodyAt(tokens, pos);
      if r.Ok? {
        pos := pos + 1;
      }
      log := log + [InReadInputStream];
    }

    method CompleteEnvelope() returns (e: Option<Exception>)
      modifies this
      ensures e == EndMarkAt(tokens, old(pos))
      ensures pos == if e.None? then old(pos) + 1 else old(pos)
      ensures log == old(log) + [InCompleteEnvelope]
      ensures refs == old(refs) && closed == old(closed)
    {
      e := EndMarkAt(tokens, pos);
      if e.None? {
        pos := pos + 1;
      }
      log := log + [InCompleteEnvelope];
    }

    method Close()
      modifies this
      ensures closed
      ensures log == old(log) + [InClose]
      ensures pos == old(pos) && refs == old(refs)
    {
      closed := true;
      log := log + [InClose];
    }
  }
}
