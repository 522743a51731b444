/** WriteReplaceSerializer: finding the writeReplace hook of a class (its own
    declarations first, then its superclasses'), the optional companion
    serializer class, and the write that substitutes the hook's result for
    the object while keeping the object's place in the reference table. */
module WriteReplace {
  import opened Wire
  import opened ClassModel
  import opened HessianOutput

  // ---------------------------------------------------------------------------
  // Finding the hook

  /** A writeReplace method found by reflection, with the class declaring it. */
  datatype Hook = Hook(owner: string, decl: MethodDecl)

  /** Whether `m` is the hook looked for: a method named writeReplace taking
      no parameter (`param` = None) or exactly one parameter of class `param`. */
  predicate Matches(m: MethodDecl, param: Option<string>)
  {
    m.name == "writeReplace"
    && match param
       case None => |m.params| == 0
       case Some(p) => |m.params| == 1 && m.params[0] == p
  }

  /** The position of the first matching method of `ms`. */
  function MatchIn(ms: seq<MethodDecl>, param: Option<string>): (r: Option<nat>)
    ensures r.Some? ==> r.value < |ms|
  {
    if ms == [] then None
    else if Matches(ms[0], param) then Some(0)
    else match MatchIn(ms[1..], param)
         case None => None
         case Some(k) => Some(k + 1)
  }

  /** The hook of the chain starting at `c`: the first match among the
      declared methods of the first class of the chain that has one. */
  function Lookup(c: Option<ClassDesc>, param: Option<string>): (r: Option<Hook>)
    ensures r.Some? ==> Matches(r.value.decl, param)
  {
    match c
    case None => None
    case Some(k) =>
      match MatchIn(k.methods, param)
      case Some(i) => MatchInFirst(k.methods, param); Some(Hook(k.name, k.methods[i]))
      case None => Lookup(k.superclass, param)
  }

  /** MatchIn finds the first match and nothing when there is none. */
  lemma {:induction false} MatchInFirst(ms: seq<MethodDecl>, param: Option<string>)
    ensures MatchIn(ms, param).Some? ==>
              var i := MatchIn(ms, param).value;
              i < |ms| && Matches(ms[i], param) && forall j :: 0 <= j < i ==> !Matches(ms[j], param)
    ensures MatchIn(ms, param).None? ==> forall j :: 0 <= j < |ms| ==> !Matches(ms[j], param)
  {
    if ms != [] && !Matches(ms[0], param) {
      MatchInFirst(ms[1..], param);
      assert forall j :: 1 <= j < |ms| ==> ms[j] == ms[1..][j - 1];
    }
  }

  /** The hook found is the first match of the nearest class of the chain
      whose declared methods hold one. */
  lemma {:induction false} LookupIsNearest(c: Option<ClassDesc>, param: Option<string>, i: nat)
    requires i < |ChainFrom(c)|
    requires MatchIn(ChainFrom(c)[i].methods, param).Some?
    requires forall j :: 0 <= j < i ==> MatchIn(ChainFrom(c)[j].methods, param).None?
    ensures var k := ChainFrom(c)[i];
            Lookup(c, param) == Some(Hook(k.name, k.methods[MatchIn(k.methods, param).value]))
  {
    var k := c.value;
    var rest := ChainFrom(k.superclass);
    assert ChainFrom(c) == [k] + rest;
    if i > 0 {
      assert MatchIn(k.methods, param).None? by {
        assert ChainFrom(c)[0] == k;
      }
      forall j | 0 <= j < i - 1
        ensures MatchIn(rest[j].methods, param).None?
      {
        assert ChainFrom(c)[j + 1] == rest[j];
      }
      assert ChainFrom(c)[i] == rest[i - 1];
      LookupIsNearest(k.superclass, param, i - 1);
    }
  }

  /** No hook is found exactly when no class of the chain declares a match. */
  lemma {:induction false} LookupNone(c: Option<ClassDesc>, param: Option<string>)
    ensures Lookup(c, param).None? <==>
              forall j :: 0 <= j < |ChainFrom(c)| ==> MatchIn(ChainFrom(c)[j].methods, param).None?
  {
    if c.Some? {
      var k := c.value;
      var chain, rest := ChainFrom(c), ChainFrom(k.superclass);
      assert chain == [k] + rest;
      assert chain[0] == k;
      LookupNone(k.superclass, param);
      if MatchIn(k.methods, param).None? {
        if forall j :: 0 <= j < |rest| ==> MatchIn(rest[j].methods, param).None? {
          forall j | 0 <= j < |chain|
            ensures MatchIn(chain[j].methods, param).None?
          {
            if j > 0 {
              assert chain[j] == rest[j - 1];
            }
          }
        } else {
          var j :| 0 <= j < |rest| && MatchIn(rest[j].methods, param).Some?;
          assert chain[j + 1] == rest[j];
          assert MatchIn(chain[j + 1].methods, param).Some?;
          assert MatchIn(ChainFrom(k.superclass)[j].methods, param).Some?;
          assert !(forall j :: 0 <= j < |ChainFrom(k.superclass)| ==> MatchIn(ChainFrom(k.superclass)[j].methods, param).None?);
          assert Lookup(k.superclass, param).Some?;
          assert Lookup(c, param) == Lookup(k.superclass, param);
          assert !(forall j :: 0 <= j < |ChainFrom(c)| ==> MatchIn(ChainFrom(c)[j].methods, param).None?);
        }
      }
    }
  }

  /** The inner loop of getWriteReplace: the first matching declared method. */
  method FindDeclared(methods: seq<MethodDecl>, param: Option<string>) returns (r: Option<nat>)
    ensures r == MatchIn(methods, param)
  {
    var i := 0;
    while i < |methods|
      invariant 0 <= i <= |methods|
      invariant MatchIn(methods, param) == MatchFrom(methods, param, i)
    {
      if Matches(methods[i], param) {
        MatchFromHit(methods, param, i);
        return Some(i);
      }
      MatchFromMiss(methods, param, i);
      i := i + 1;
    }
    MatchFromEnd(methods, param);
    return None;
  }

  /** The first match of `ms` at or after position i, as a position of `ms`. */
  function MatchFrom(ms: seq<MethodDecl>, param: Option<string>, i: nat): Option<nat>
    requires i <= |ms|
  {
    match MatchIn(ms[i..], param)
    case None => None
    case Some(k) => Some(i + k)
  }

  lemma MatchFromHit(ms: seq<MethodDecl>, param: Option<string>, i: nat)
    requires i < |ms| && Matches(ms[i], param)
    ensures MatchFrom(ms, param, i) == Some(i)
  {
    assert ms[i..][0] == ms[i];
  }

  lemma MatchFromMiss(ms: seq<MethodDecl>, param: Option<string>, i: nat)
    requires i < |ms| && !Matches(ms[i], param)
    ensures MatchFrom(ms, param, i) == MatchFrom(ms, param, i + 1)
  {
    assert ms[i..][0] == ms[i];
    assert ms[i..][1..] == ms[i + 1..];
  }

  lemma MatchFromEnd(ms: seq<MethodDecl>, param: Option<string>)
    ensures MatchFrom(ms, param, |ms|) == None
  {
    assert ms[|ms|..] == [];
  }

  /** getWriteReplace(cl) (param = None) and getWriteReplace(cl, param):
      walks up from `cl` and returns the first hook found, or None. */
  method GetWriteReplace(cl: ClassDesc, param: Option<string>) returns (r: Option<Hook>)
    ensures r == Lookup(Some(cl), param)
  {
    var c := Some(cl);
    while c.Some?
      invariant Lookup(c, param) == Lookup(Some(cl), param)
      decreases Depth(c)
    {
      var k := c.value;
      var found := FindDeclared(k.methods, param);
      if found.Some? {
        MatchInFirst(k.methods, param);
        return Some(Hook(k.name, k.methods[found.value]));
      }
      c := k.superclass;
    }
    return None;
  }

  // ---------------------------------------------------------------------------
  // The serializer

  /** What a class loader knows about a class: its description and whether
      newInstance succeeds on it. */
  datatype LoadedClass = LoadedClass(desc: ClassDesc, instantiable: bool)

  /** The receiver of a hook call. */
  datatype Receiver = OnFactory(factoryClass: string) | OnObject(target: Ref)

  /** One reflective call of the hook. */
  datatype Invocation = Invocation(hook: Hook, receiver: Receiver, args: seq<Ref>)

  /** What Method.invoke does, as the environment decides: the returned
      object, an exception thrown by invoke itself, or an exception thrown by
      the hook (InvocationTargetException). */
  datatype InvokeResult = Returned(value: Ref) | Threw(error: Exception) | TargetThrew(cause: Exception)

  /** The failure of calling a method on the null hook field. */
  const NullHook: Exception := Raised(RuntimeError, 2)

  /** The name under which the companion serializer class is looked up. */
  function CompanionName(cl: ClassDesc): string
  {
    cl.name + "HessianSerializer"
  }

  /** The factory introspection keeps: the companion class when it loads, can
      be instantiated and declares a one-argument hook for `cl`. */
  function CompanionFactory(cl: ClassDesc, loader: map<string, LoadedClass>): Option<string>
  {
    var name := CompanionName(cl);
    if name in loader && loader[name].instantiable && Lookup(Some(loader[name].desc), Some(cl.name)).Some?
    then Some(name)
    else None
  }

  /** The throwable as it leaves a `catch (RuntimeException) / catch (Exception)`
      pair that rethrows the first and wraps the second. */
  function Rethrown(e: Exception): (r: Exception)
    ensures r.Kind() == RuntimeError || r.Kind() == JavaError
    ensures e.Kind() == RuntimeError || e.Kind() == JavaError ==> r == e
    ensures !(e.Kind() == RuntimeError || e.Kind() == JavaError) ==> r == RuntimeOf(e)
  {
    if e.Kind() == RuntimeError || e.Kind() == JavaError then e else RuntimeOf(e)
  }

  /** The result of the hook call as writeReplace reports it. */
  function HookResult(r: InvokeResult): (v: Result<Ref, Exception>)
    ensures r.TargetThrew? ==> v == Err(RuntimeOf(r.cause))
    ensures r.Threw? ==> v == Err(Rethrown(r.error))
    ensures r.Returned? ==> v == Ok(r.value)
  {
    match r
    case Returned(x) => Ok(x)
    case Threw(e) => Err(Rethrown(e))
    case TargetThrew(cause) => Err(RuntimeOf(cause))
  }

  /** An outcome whose failure has passed through the same catch pair. */
  function RethrownOutcome(o: Outcome): (r: Outcome)
    ensures r.emitted == o.emitted && r.error.Some? == o.error.Some?
    ensures o.error.Some? ==> r.error == Some(Rethrown(o.error.value))
  {
    Outcome(o.emitted, if o.error.Some? then Some(Rethrown(o.error.value)) else None)
  }

  class WriteReplaceSerializer {
    var writeReplaceFactory: Option<string>
    var writeReplace: Option<Hook>

    /** introspectWriteReplace: the companion's one-argument hook is tried
        first, but the zero-argument lookup on `cl` then overwrites the hook
        field unconditionally, while the factory stays as it was set. */
    constructor (cl: ClassDesc, loader: map<string, LoadedClass>)
      ensures writeReplace == Lookup(Some(cl), None)
      ensures writeReplaceFactory == CompanionFactory(cl, loader)
    {
      writeReplaceFactory := None;
      writeReplace := None;
      var className := CompanionName(cl);
      if className in loader && loader[className].instantiable {
        var h := GetWriteReplace(loader[className].desc, Some(cl.name));
        if h.Some? {
          writeReplaceFactory := Some(className);
          writeReplace := h;
        }
      }
      var own := GetWriteReplace(cl, None);
      writeReplace := own;
    }

    /** The reflective call writeReplace makes for `obj`. */
    function HookCall(obj: Ref): Invocation
      requires writeReplace.Some?
      reads this
    {
      match writeReplaceFactory
      case Some(f) => Invocation(writeReplace.value, OnFactory(f), [obj])
      case None => Invocation(writeReplace.value, OnObject(obj), [])
    }

    /** What writeReplace(obj) returns or throws. */
    function ReplaceResult(obj: Ref, invoke: Invocation -> InvokeResult): Result<Ref, Exception>
      reads this
    {
      if writeReplace.None? then Err(NullHook) else HookResult(invoke(HookCall(obj)))
    }

    /** The whole of writeObject, given the reference table before it. */
    function WriteOutcome(obj: Ref, refs: RefTable, failure: Faults, invoke: Invocation -> InvokeResult): Outcome
      reads this
    {
      if obj in refs.index then Single(failure, WriteRef(refs.index[obj]))
      else match ReplaceResult(obj, invoke)
           case Err(x) => Outcome([], Some(Rethrown(x)))
           case Ok(repl) =>
             if repl == obj then RethrownOutcome(Single(failure, WriteWithBase(obj)))
             else RethrownOutcome(Then(Single(failure, Call.WriteObject(repl)), Single(failure, ReplaceRef(repl, obj))))
    }

    /** writeReplace: calls the hook on the factory with `obj` as argument
        when a factory is set, and on `obj` with no argument otherwise. */
    method CallWriteReplace(obj: Ref, invoke: Invocation -> InvokeResult) returns (r: Result<Ref, Exception>)
      ensures r == ReplaceResult(obj, invoke)
    {
      if writeReplace.None? {
        return Err(NullHook);
      }
      var call;
      if writeReplaceFactory.Some? {
        call := Invocation(writeReplace.value, OnFactory(writeReplaceFactory.value), [obj]);
      } else {
        call := Invocation(writeReplace.value, OnObject(obj), []);
      }
      var result := invoke(call);
      match result {
        case Returned(x) => r := Ok(x);
        case Threw(e) =>
          if e.Kind() == RuntimeError || e.Kind() == JavaError {
            r := Err(e);
          } else {
            r := Err(RuntimeOf(e));
          }
        case TargetThrew(cause) => r := Err(RuntimeOf(cause));
      }
    }

    /** writeObject: a back-reference for a known object; otherwise the
        replacement is written (or the object itself by the base serializer
        when the hook returns it) and the object takes over the
        replacement's reference. */
    method WriteObject(obj: Ref, out: Output, invoke: Invocation -> InvokeResult) returns (e: Option<Exception>)
      modifies out
      ensures var o := WriteOutcome(obj, old(out.Refs()), out.failure, invoke);
              out.trace == old(out.trace) + o.emitted && e == o.error
    {
      var ref := out.GetRef(obj);
      if ref >= 0 {
        e := out.Perform(WriteRef(ref));
        return;
      }
      var repl := CallWriteReplace(obj, invoke);
      if repl.Err? {
        e := Some(Rethrown(repl.error));
        return;
      }
      if obj == repl.value {
        e := out.Perform(WriteWithBase(obj));
        if e.Some? {
          e := Some(Rethrown(e.value));
        }
        return;
      }
      e := out.Perform(Call.WriteObject(repl.value));
      if e.Some? {
        e := Some(Rethrown(e.value));
        return;
      }
      e := out.Perform(ReplaceRef(repl.value, obj));
      if e.Some? {
        e := Some(Rethrown(e.value));
      }
    }
  }

  // ---------------------------------------------------------------------------
  // Properties of the write

  /** A known object gets only its back-reference, and the hook is not
      called: the outcome is the same whatever the hook would do. */
  lemma KnownObjectIsBackReference(s: WriteReplaceSerializer, obj: Ref, refs: RefTable, failure: Faults,
                                   invoke1: Invocation -> InvokeResult, invoke2: Invocation -> InvokeResult)
    requires obj in refs.index
    ensures s.WriteOutcome(obj, refs, failure, invoke1) == s.WriteOutcome(obj, refs, failure, invoke2)
    ensures s.WriteOutcome(obj, refs, failure, invoke1).emitted <= [WriteRef(refs.index[obj])]
  {
  }

  /** When the hook returns the object itself, the base serializer writes it
      once and no reference is replaced. */
  lemma IdentityUsesBaseOnce(s: WriteReplaceSerializer, obj: Ref, refs: RefTable, failure: Faults,
                             invoke: Invocation -> InvokeResult)
    requires obj !in refs.index && s.ReplaceResult(obj, invoke) == Ok(obj)
    ensures var o := s.WriteOutcome(obj, refs, failure, invoke);
            o.emitted <= [WriteWithBase(obj)]
            && (FaultOf(failure, WriteWithBase(obj)).None? ==> o == Outcome([WriteWithBase(obj)], None))
  {
  }

  /** Otherwise the replacement is written first and only then does the object
      take over its reference; a failure of the first stops the second. */
  lemma ReplacementThenReplaceRef(s: WriteReplaceSerializer, obj: Ref, refs: RefTable, failure: Faults,
                                  invoke: Invocation -> InvokeResult, repl: Ref)
    requires obj !in refs.index && s.ReplaceResult(obj, invoke) == Ok(repl) && repl != obj
    ensures var o := s.WriteOutcome(obj, refs, failure, invoke);
            o.emitted <= [WriteObject(repl), ReplaceRef(repl, obj)]
            && (ReplaceRef(repl, obj) in o.emitted ==> o.emitted[0] == WriteObject(repl))
            && (failure == map[] ==> o == Outcome([WriteObject(repl), ReplaceRef(repl, obj)], None))
  {
  }

  /** Apart from the back-reference write, writeObject throws only runtime
      exceptions and errors: checked and I/O exceptions come out wrapped. */
  lemma OnlyUncheckedEscape(s: WriteReplaceSerializer, obj: Ref, refs: RefTable, failure: Faults,
                            invoke: Invocation -> InvokeResult)
    requires obj !in refs.index
    ensures var o := s.WriteOutcome(obj, refs, failure, invoke);
            o.error.Some? ==> o.error.value.Kind() == RuntimeError || o.error.value.Kind() == JavaError
  {
  }

  /** A failure inside the hook surfaces as a runtime exception of its cause,
      and nothing is written. */
  lemma HookFailureSurfaces(s: WriteReplaceSerializer, obj: Ref, refs: RefTable, failure: Faults,
                            invoke: Invocation -> InvokeResult, cause: Exception)
    requires obj !in refs.index && s.writeReplace.Some?
    requires invoke(s.HookCall(obj)) == TargetThrew(cause)
    ensures s.WriteOutcome(obj, refs, failure, invoke) == Outcome([], Some(RuntimeOf(cause)))
  {
  }

  /** A failure of the base serializer, or of the output while the
      replacement or the reference move is written, leaves writeObject as it
      leaves the catch pair: a runtime exception or an error unchanged, and
      any other throwable wrapped in a runtime exception. */
  lemma WriteFailureSurfaces(s: WriteReplaceSerializer, obj: Ref, refs: RefTable, failure: Faults,
                             invoke: Invocation -> InvokeResult, repl: Ref)
    requires obj !in refs.index && s.ReplaceResult(obj, invoke) == Ok(repl)
    ensures var o := s.WriteOutcome(obj, refs, failure, invoke);
            && (repl == obj && FaultOf(failure, WriteWithBase(obj)).Some? ==>
                  o == Outcome([], Some(Rethrown(FaultOf(failure, WriteWithBase(obj)).value))))
            && (repl != obj && FaultOf(failure, Call.WriteObject(repl)).Some? ==>
                  o == Outcome([], Some(Rethrown(FaultOf(failure, Call.WriteObject(repl)).value))))
            && (repl != obj && FaultOf(failure, Call.WriteObject(repl)).None?
                && FaultOf(failure, ReplaceRef(repl, obj)).Some? ==>
                  o == Outcome([Call.WriteObject(repl)], Some(Rethrown(FaultOf(failure, ReplaceRef(repl, obj)).value))))
  {
  }

  /** When the hook returns the object itself and the base serializer writes
      it, the object is in the reference table afterwards, so the next write
      of it is only a back-reference, whatever the hook would do. */
  lemma IdentityThenBackReference(s: WriteReplaceSerializer, obj: ObjId, trace: seq<Call>, failure: Faults,
                                  invoke: Invocation -> InvokeResult)
    requires Obj(obj) !in RefsAfter(trace).index && s.ReplaceResult(Obj(obj), invoke) == Ok(Obj(obj))
    requires FaultOf(failure, WriteWithBase(Obj(obj))).None?
    ensures var after := RefsAfter(trace + s.WriteOutcome(Obj(obj), RefsAfter(trace), failure, invoke).emitted);
            Obj(obj) in after.index
            && s.WriteOutcome(Obj(obj), after, failure, invoke) == Single(failure, WriteRef(after.index[Obj(obj)]))
  {
    assert s.WriteOutcome(Obj(obj), RefsAfter(trace), failure, invoke).emitted == [WriteWithBase(Obj(obj))];
    RefsAfterAppend(trace, WriteWithBase(Obj(obj)));
  }

  /** Because introspectWriteReplace overwrites the hook with the class's own
      zero-argument writeReplace, a serializer that keeps a companion factory
      calls a hook declaring no parameter with one argument. */
  lemma FactoryHookArityMismatch(cl: ClassDesc, loader: map<string, LoadedClass>, s: WriteReplaceSerializer, obj: Ref)
    requires s.writeReplace == Lookup(Some(cl), None) && s.writeReplaceFactory == CompanionFactory(cl, loader)
    requires s.writeReplace.Some? && CompanionFactory(cl, loader).Some?
    ensures |s.HookCall(obj).args| == 1 && |s.HookCall(obj).hook.decl.params| == 0
  {
  }

  /** The companion factory is kept exactly when the companion class loads,
      can be instantiated and has a class in its chain declaring
      writeReplace with the serialized class as its one parameter. */
  lemma CompanionFactoryKept(cl: ClassDesc, loader: map<string, LoadedClass>)
    ensures var name := CompanionName(cl);
            CompanionFactory(cl, loader).Some? <==>
              name in loader && loader[name].instantiable
              && exists j :: 0 <= j < |ChainFrom(Some(loader[name].desc))|
                   && MatchIn(ChainFrom(Some(loader[name].desc))[j].methods, Some(cl.name)).Some?
    ensures CompanionFactory(cl, loader).Some? ==> CompanionFactory(cl, loader).value == CompanionName(cl)
  {
    var name := CompanionName(cl);
    if name in loader {
      LookupNone(Some(loader[name].desc), Some(cl.name));
    }
  }

  /** After a successful substitution by a fresh replacement object, the
      original object resolves to the index the replacement received, and the
      replacement no longer has one. */
  lemma SubstitutedObjectTakesReplacementIndex(s: WriteReplaceSerializer, obj: Ref, trace: seq<Call>,
                                               invoke: Invocation -> InvokeResult, repl: ObjId)
    requires obj !in RefsAfter(trace).index && Obj(repl) !in RefsAfter(trace).index
    requires s.ReplaceResult(obj, invoke) == Ok(Obj(repl)) && obj != Obj(repl)
    ensures var o := s.WriteOutcome(obj, RefsAfter(trace), map[], invoke);
            var after := RefsAfter(trace + o.emitted);
            obj in after.index && after.index[obj] == RefsAfter(trace).next && Obj(repl) !in after.index
  {
    assert s.WriteOutcome(obj, RefsAfter(trace), map[], invoke).emitted
        == [Call.WriteObject(Obj(repl)), ReplaceRef(Obj(repl), obj)];
    ReplacementTakesOverIndex(trace, obj, repl);
  }
}
