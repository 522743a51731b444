/** The output stream (AbstractHessianOutput) as seen by the serialization core:
    an append-only trace of the calls made on it, together with the per-stream
    reference table and class-definition table.  Both tables are functions of
    the trace, so a method that says how the trace grows says everything about
    the new state.  Which calls fail is decided by the environment. */
module HessianOutput {
  import opened Wire

  /** The per-stream reference table: object -> index, and the next index. */
  datatype RefTable = RefTable(index: map<Ref, nat>, next: nat)

  const EmptyRefs := RefTable(map[], 0)

  /** Sentinels returned by writeObjectBegin besides a cached class index. */
  const NewDefinition: int := -1
  const LegacyObject: int := -2

  /** Adds `o` to the table unless it is already there. */
  function Register(t: RefTable, o: Ref): (r: RefTable)
    ensures o in r.index
    ensures o in t.index ==> r == t
    ensures o !in t.index ==> r.index == t.index[o := t.next] && r.next == t.next + 1
  {
    if o in t.index then t else RefTable(t.index[o := t.next], t.next + 1)
  }

  /** How one call changes the reference table.  addRef registers its argument;
      writeObject of an object registers it too (the serializer behind it does),
      and so does a write by the base serializer of writeReplace, which is
      UnsafeSerializer and begins with addRef; replaceRef moves the index of
      its first argument to its second. */
  function RefStep(t: RefTable, c: Call): RefTable
  {
    if c.AddRef? then Register(t, c.obj)
    else if c.WriteObject? && c.v.Obj? then Register(t, c.v)
    else if c.WriteWithBase? then Register(t, c.obj)
    else if c.ReplaceRef? && c.oldRef in t.index then
      RefTable((t.index - {c.oldRef})[c.newRef := t.index[c.oldRef]], t.next)
    else t
  }

  /** The reference table after a trace, starting from an empty table. */
  function RefsAfter(trace: seq<Call>): RefTable
  {
    RefsUpTo(trace, |trace|)
  }

  /** The reference table after the first `n` calls of a trace. */
  function RefsUpTo(trace: seq<Call>, n: nat): RefTable
    requires n <= |trace|
  {
    if n == 0 then EmptyRefs else RefStep(RefsUpTo(trace, n - 1), trace[n - 1])
  }

  /** Position of `name` in the class-definition table, or -1. */
  function ClassIndex(defs: seq<string>, name: string): (r: int)
    ensures -1 <= r < |defs|
    ensures r >= 0 ==> defs[r] == name
    ensures r == -1 <==> name !in defs
  {
    if defs == [] then -1
    else if defs[|defs| - 1] == name && name !in defs[..|defs| - 1] then |defs| - 1
    else ClassIndex(defs[..|defs| - 1], name)
  }

  /** The result writeObjectBegin reports: the legacy sentinel on a legacy
      (Hessian 1.0) stream, the class index when the definition was already
      sent, and NewDefinition otherwise. */
  function BeginResult(legacy: bool, defs: seq<string>, name: string): (r: int)
    ensures legacy <==> r == LegacyObject
    ensures !legacy ==> (r == NewDefinition <==> name !in defs)
    ensures r >= 0 ==> r < |defs| && defs[r] == name
  {
    if legacy then LegacyObject else ClassIndex(defs, name)
  }

  /** How one call changes the class-definition table. */
  function DefStep(legacy: bool, defs: seq<string>, c: Call): seq<string>
  {
    if c.WriteObjectBegin? && !legacy && c.typeName !in defs then defs + [c.typeName] else defs
  }

  /** The class-definition table after a trace. */
  function DefsAfter(legacy: bool, trace: seq<Call>): seq<string>
  {
    DefsUpTo(legacy, trace, |trace|)
  }

  /** The class-definition table after the first `n` calls of a trace. */
  function DefsUpTo(legacy: bool, trace: seq<Call>, n: nat): seq<string>
    requires n <= |trace|
  {
    if n == 0 then [] else DefStep(legacy, DefsUpTo(legacy, trace, n - 1), trace[n - 1])
  }

  /** The calls a write makes and the failure it ends with, if any. */
  datatype Outcome = Outcome(emitted: seq<Call>, error: Option<Exception>)

  /** Runs `b` after `a` unless `a` failed. */
  function Then(a: Outcome, b: Outcome): (r: Outcome)
    ensures a.error.Some? ==> r == a
    ensures a.error.None? ==> r.emitted == a.emitted + b.emitted && r.error == b.error
  {
    if a.error.Some? then a else Outcome(a.emitted + b.emitted, b.error)
  }

  /** A single call. */
  function Single(failure: Faults, c: Call): Outcome
  {
    if FaultOf(failure, c).Some? then Outcome([], FaultOf(failure, c)) else Outcome([c], None)
  }

  class Output {
    var trace: seq<Call>
    const legacy: bool
    const failure: Faults

    constructor (legacy: bool, failure: Faults)
      ensures trace == []
      ensures this.legacy == legacy && this.failure == failure
    {
      this.legacy := legacy;
      this.failure := failure;
      trace := [];
    }

    /** The reference table of the stream. */
    function Refs(): RefTable
      reads this
    {
      RefsAfter(trace)
    }

    /** The class definitions already sent on the stream. */
    function ClassDefs(): seq<string>
      reads this
    {
      DefsAfter(legacy, trace)
    }

    /** The index of `o` in the reference table, or -1. */
    function GetRef(o: Ref): (r: int)
      reads this
      ensures r >= 0 <==> o in Refs().index
      ensures o in Refs().index ==> r == Refs().index[o]
    {
      if o in Refs().index then Refs().index[o] else -1
    }

    /** Makes one call on the stream: it either throws what the environment
        decides, leaving the stream as it was, or is recorded. */
    method Perform(c: Call) returns (e: Option<Exception>)
      modifies this
      ensures e == FaultOf(failure, c)
      ensures trace == if e.Some? then old(trace) else old(trace) + [c]
    {
      e := FaultOf(failure, c);
      if e.None? {
        trace := trace + [c];
      }
    }

    /** addRef: reports whether `o` was already in the reference table. */
    method AddRefTo(o: Ref) returns (known: bool, e: Option<Exception>)
      modifies this
      ensures e == FaultOf(failure, AddRef(o))
      ensures trace == if e.Some? then old(trace) else old(trace) + [AddRef(o)]
      ensures known == (o in old(Refs()).index)
      ensures ClassDefs() == old(ClassDefs())
    {
      known := o in Refs().index;
      ghost var t0 := trace;
      e := Perform(AddRef(o));
      if e.None? {
        DefsAfterAppend(legacy, t0, AddRef(o));
      }
    }

    /** writeObjectBegin: reports the class index, NewDefinition or LegacyObject. */
    method ObjectBegin(name: string) returns (ref: int, e: Option<Exception>)
      modifies this
      ensures e == FaultOf(failure, WriteObjectBegin(name))
      ensures trace == if e.Some? then old(trace) else old(trace) + [WriteObjectBegin(name)]
      ensures ref == BeginResult(legacy, old(ClassDefs()), name)
    {
      ref := BeginResult(legacy, ClassDefs(), name);
      e := Perform(WriteObjectBegin(name));
    }
  }

  /** The tables after a prefix do not depend on what follows it. */
  lemma {:induction false} RefsUpToPrefix(a: seq<Call>, b: seq<Call>, n: nat)
    requires n <= |a|
    ensures RefsUpTo(a + b, n) == RefsUpTo(a, n)
  {
    if n > 0 {
      RefsUpToPrefix(a, b, n - 1);
      assert (a + b)[n - 1] == a[n - 1];
    }
  }

  lemma {:induction false} DefsUpToPrefix(legacy: bool, a: seq<Call>, b: seq<Call>, n: nat)
    requires n <= |a|
    ensures DefsUpTo(legacy, a + b, n) == DefsUpTo(legacy, a, n)
  {
    if n > 0 {
      DefsUpToPrefix(legacy, a, b, n - 1);
      assert (a + b)[n - 1] == a[n - 1];
    }
  }

  lemma RefsAfterAppend(trace: seq<Call>, c: Call)
    ensures RefsAfter(trace + [c]) == RefStep(RefsAfter(trace), c)
  {
    RefsUpToPrefix(trace, [c], |trace|);
  }

  lemma DefsAfterAppend(legacy: bool, trace: seq<Call>, c: Call)
    ensures DefsAfter(legacy, trace + [c]) == DefStep(legacy, DefsAfter(legacy, trace), c)
  {
    DefsUpToPrefix(legacy, trace, [c], |trace|);
  }

  /** Substitution keeps graph identity: once a fresh replacement has been
      written and its reference moved to the original, the original resolves
      to the index the replacement received and the replacement no longer has one. */
  lemma {:induction false} ReplacementTakesOverIndex(trace: seq<Call>, obj: Ref, repl: ObjId)
    requires obj != Obj(repl)
    requires Obj(repl) !in RefsAfter(trace).index
    ensures var before := RefsAfter(trace);
            var after := RefsAfter(trace + [WriteObject(Obj(repl)), ReplaceRef(Obj(repl), obj)]);
            obj in after.index && after.index[obj] == before.next
            && Obj(repl) !in after.index && after.next == before.next + 1
  {
    var t1 := trace + [WriteObject(Obj(repl))];
    var t2 := t1 + [ReplaceRef(Obj(repl), obj)];
    assert t2 == trace + [WriteObject(Obj(repl)), ReplaceRef(Obj(repl), obj)];
    RefsAfterAppend(trace, WriteObject(Obj(repl)));
    RefsAfterAppend(t1, ReplaceRef(Obj(repl), obj));
    var before := RefsAfter(trace);
    var mid := RefsAfter(t1);
    assert mid == RefTable(before.index[Obj(repl) := before.next], before.next + 1);
    assert RefsAfter(t2) == RefTable((mid.index - {Obj(repl)})[obj := before.next], mid.next);
  }

  /** The schema of a class is sent once per stream: after a successful
      writeObjectBegin(name) on a non-legacy stream, the next one reports a
      cached index naming the same class. */
  lemma {:induction false} DefinitionSentOnce(legacy: bool, trace: seq<Call>, name: string)
    requires !legacy
    ensures var defs := DefsAfter(legacy, trace + [WriteObjectBegin(name)]);
            BeginResult(legacy, defs, name) >= 0
            && defs[BeginResult(legacy, defs, name)] == name
  {
    DefsAfterAppend(legacy, trace, WriteObjectBegin(name));
  }
}
