/** IteratorDeserializer: reads a list of values up to the end marker and
    returns an iterator over them. */
module IteratorDecoding {
  import opened Wire
  import opened HessianInput

  /** Where the run of values starting at `p` stops: at the end marker, at the
      end of the input, or at the first token readObject cannot read. */
  function RunEnd(ts: seq<Token>, p: nat): (q: nat)
    ensures p <= q
    ensures EndAt(ts, q) || ValueOf(ts[q]).None?
    decreases |ts| - p
  {
    if EndAt(ts, p) || ValueOf(ts[p]).None? then p else RunEnd(ts, p + 1)
  }

  /** The values of the run starting at `p`, in stream order. */
  function Elements(ts: seq<Token>, p: nat): seq<Value>
    decreases |ts| - p
  {
    if EndAt(ts, p) || ValueOf(ts[p]).None? then [] else [ValueOf(ts[p]).value] + Elements(ts, p + 1)
  }

  /** `n` readObject calls. */
  function ReadObjects(n: nat): (r: seq<InCall>)
    ensures |r| == n
  {
    if n == 0 then [] else ReadObjects(n - 1) + [InReadObject]
  }

  /** The iterator readList returns: it yields `elements` in order. */
  datatype ListIterator = ListIterator(elements: seq<Value>)

  /** The effect of readList on an input whose cursor is at `p`: its result,
      where the cursor ends, and the calls it makes. */
  datatype ListRead = ListRead(result: Result<ListIterator, Exception>, stop: nat, calls: seq<InCall>)

  function ReadListSpec(ts: seq<Token>, p: nat, list: ObjId): ListRead
  {
    var q := RunEnd(ts, p);
    var es := Elements(ts, p);
    var prefix := [InAddRef(list)] + ReadObjects(|es|);
    if !EndAt(ts, q) then ListRead(Err(UnexpectedToken), q, prefix + [InReadObject])
    else if EndMarkAt(ts, q).Some? then ListRead(Err(EndMarkAt(ts, q).value), q, prefix + [InReadEnd])
    else ListRead(Ok(ListIterator(es)), q + 1, prefix + [InReadEnd])
  }

  class IteratorDeserializer {
    constructor ()
    {
    }

    /** readList: registers the new list (its identity is `list`) before
        reading anything, reads values until isEnd, then consumes the end
        marker.  The length hint is not used. */
    method ReadList(input: Input, length: int, list: ObjId) returns (r: Result<ListIterator, Exception>)
      modifies input
      ensures var spec := ReadListSpec(input.tokens, old(input.pos), list);
              r == spec.result && input.pos == spec.stop && input.log == old(input.log) + spec.calls
      ensures input.refs == old(input.refs) + [list] && input.closed == old(input.closed)
    {
      ghost var log0 := input.log;
      var _ := input.AddRef(list);
      var elements, e := ReadElements(input);
      LogAppend(log0, [InAddRef(list)], ReadObjects(|elements|));
      if e.Some? {
        LogAppend(log0, [InAddRef(list)] + ReadObjects(|elements|), [InReadObject]);
        r := Err(e.value);
        return;
      }
      e := input.ReadEnd();
      LogAppend(log0, [InAddRef(list)] + ReadObjects(|elements|), [InReadEnd]);
      if e.Some? {
        r := Err(e.value);
        return;
      }
      r := Ok(ListIterator(elements));
    }
  }

  /** The loop of readList: readObject until isEnd.  It fails, having read
      the run before it, at the first token that is no value. */
  method ReadElements(input: Input) returns (elements: seq<Value>, e: Option<Exception>)
    modifies input
    ensures var q := RunEnd(input.tokens, old(input.pos));
            elements == Elements(input.tokens, old(input.pos)) && input.pos == q
            && e == (if EndAt(input.tokens, q) then None else Some(UnexpectedToken))
    ensures input.log == old(input.log) + ReadObjects(|elements|) + (if e.Some? then [InReadObject] else [])
    ensures input.refs == old(input.refs) && input.closed == old(input.closed)
  {
    ghost var p0 := input.pos;
    ghost var log0 := input.log;
    elements := [];
    while !input.IsEnd()
      invariant p0 <= input.pos
      invariant RunEnd(input.tokens, p0) == RunEnd(input.tokens, input.pos)
      invariant Elements(input.tokens, p0) == elements + Elements(input.tokens, input.pos)
      invariant input.log == log0 + ReadObjects(|elements|)
      invariant input.refs == old(input.refs) && input.closed == old(input.closed)
      decreases |input.tokens| - input.pos
    {
      var v := input.ReadObject();
      LogAppend(log0, ReadObjects(|elements|), [InReadObject]);
      if v.Err? {
        assert RunEnd(input.tokens, input.pos) == input.pos;
        assert Elements(input.tokens, input.pos) == [];
        assert elements + [] == elements;
        e := Some(v.error);
        return;
      }
      elements := elements + [v.value];
    }
    assert RunEnd(input.tokens, input.pos) == input.pos;
    assert Elements(input.tokens, input.pos) == [];
    assert elements + [] == elements;
    assert input.log + [] == input.log;
    e := None;
  }

  /** The static `_deserializer` slot behind IteratorDeserializer.create. */
  class IteratorDeserializerSlot {
    var instance: IteratorDeserializer?

    constructor ()
      ensures instance == null
    {
      instance := null;
    }

    /** create: the first call makes the shared instance, every later call
        returns it. */
    method Create() returns (d: IteratorDeserializer)
      modifies this
      ensures old(instance) != null ==> d == old(instance)
      ensures old(instance) == null ==> fresh(d)
      ensures instance == d
    {
      if instance == null {
        instance := new IteratorDeserializer();
      }
      d := instance;
    }
  }

  /** The elements are exactly the values of the tokens before the stop, in order. */
  lemma {:induction false} ElementsAreTheRun(ts: seq<Token>, p: nat)
    ensures |Elements(ts, p)| == RunEnd(ts, p) - p
    ensures RunEnd(ts, p) > p ==> RunEnd(ts, p) <= |ts|
    ensures forall i {:trigger ts[i]} :: p <= i < RunEnd(ts, p) ==>
              i < |ts| && ValueOf(ts[i]) == Some(Elements(ts, p)[i - p])
    decreases |ts| - p
  {
    if !(EndAt(ts, p) || ValueOf(ts[p]).None?) {
      ElementsAreTheRun(ts, p + 1);
      var es := Elements(ts, p);
      var rest := Elements(ts, p + 1);
      assert es == [ValueOf(ts[p]).value] + rest;
      forall i | p <= i < RunEnd(ts, p)
        ensures i < |ts| && ValueOf(ts[i]) == Some(es[i - p])
      {
        if i > p {
          assert es[i - p] == rest[i - (p + 1)];
        }
      }
    }
  }

  /** The token that carries a value on the stream. */
  function TokensOf(vs: seq<Value>): (ts: seq<Token>)
    ensures |ts| == |vs| && forall i :: 0 <= i < |vs| ==> ts[i] == TValue(vs[i])
  {
    seq(|vs|, i requires 0 <= i < |vs| => TValue(vs[i]))
  }

  /** Reading a list written as its values followed by the end marker gives
      back exactly those values and leaves the cursor just past the marker. */
  lemma {:induction false} ListRoundTrip(before: seq<Token>, vs: seq<Value>, after: seq<Token>, list: ObjId)
    ensures var ts := before + TokensOf(vs) + [TEnd] + after;
            var spec := ReadListSpec(ts, |before|, list);
            spec.result == Ok(ListIterator(vs)) && spec.stop == |before| + |vs| + 1
            && spec.calls == [InAddRef(list)] + ReadObjects(|vs|) + [InReadEnd]
  {
    var ts := before + TokensOf(vs) + [TEnd] + after;
    RunOverValues(ts, |before|, vs);
  }

  lemma {:induction false} RunOverValues(ts: seq<Token>, p: nat, vs: seq<Value>)
    requires p + |vs| < |ts| && ts[p + |vs|] == TEnd
    requires forall i :: 0 <= i < |vs| ==> ts[p + i] == TValue(vs[i])
    ensures RunEnd(ts, p) == p + |vs| && Elements(ts, p) == vs
    decreases |vs|
  {
    if vs != [] {
      assert ts[p] == TValue(vs[0]);
      RunOverValues(ts, p + 1, vs[1..]);
      assert [vs[0]] + vs[1..] == vs;
    }
  }

  /** The call order readList promises: addRef first and only once, then only
      readObject calls, and readEnd at most once, as the last call, exactly
      when the loop stopped at the end marker. */
  lemma ReadObjectsAreReads(n: nat)
    ensures forall i :: 0 <= i < n ==> ReadObjects(n)[i] == InReadObject
  {
    if n > 0 {
      ReadObjectsAreReads(n - 1);
    }
  }

  lemma ListCallOrder(ts: seq<Token>, p: nat, list: ObjId)
    ensures var calls := ReadListSpec(ts, p, list).calls;
            |calls| >= 2 && calls[0] == InAddRef(list)
            && (forall i :: 0 < i < |calls| - 1 ==> calls[i] == InReadObject)
            && (calls[|calls| - 1] == InReadEnd <==> EndAt(ts, RunEnd(ts, p)))
            && (forall i :: 0 <= i < |calls| - 1 ==> calls[i] != InReadEnd)
  {
    var es := Elements(ts, p);
    var calls := ReadListSpec(ts, p, list).calls;
    ReadObjectsAreReads(|es|);
    assert calls[..1 + |es|] == [InAddRef(list)] + ReadObjects(|es|);
    forall i | 0 < i < |calls| - 1
      ensures calls[i] == InReadObject
    {
      assert calls[i] == calls[..1 + |es|][i];
    }
  }
}
