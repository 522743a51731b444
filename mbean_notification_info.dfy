/** MBeanNotificationInfoDeserializer: decodes a map of named entries into the
    arguments of the MBeanNotificationInfo constructor. */
module NotificationInfoDecoding {
  import opened Wire
  import opened HessianInput

  /** The change one entry makes to the decoder's locals. */
  datatype Update =
    | SetName(name: Option<string>)
    | SetDescription(description: Option<string>)
    | SetTypes(types: Option<seq<Option<string>>>)
    | Skip

  /** The decoder's locals: name, description and types. */
  datatype NotificationFields = NotificationFields(
    name: Option<string>,
    description: Option<string>,
    types: Option<seq<Option<string>>>)

  /** Their values before the first entry is read: all null. */
  const Defaults := NotificationFields(None, None, None)

  /** The arguments of MBeanNotificationInfo, in the constructor's order. */
  datatype NotificationArgs = NotificationArgs(
    types: Option<seq<Option<string>>>,
    name: Option<string>,
    description: Option<string>)

  const NameKey := "name"
  const DescriptionKey := "description"
  const TypesKey := "types"

  predicate IsKnownKey(key: Option<string>)
  {
    key == Some(NameKey) || key == Some(DescriptionKey) || key == Some(TypesKey)
  }

  /** The call that reads the value of an entry with this key. */
  function ReaderFor(key: Option<string>): InCall
  {
    if key == Some(NameKey) || key == Some(DescriptionKey) then InReadString else InReadObject
  }

  /** Whether that call succeeds on the token at `q` (and so consumes it). */
  predicate ReaderSucceeds(ts: seq<Token>, q: nat, key: Option<string>)
  {
    if ReaderFor(key) == InReadString then StringAt(ts, q).Ok? else ObjectAt(ts, q).Ok?
  }

  /** The cast `(String[])` of a value read for "types". */
  function TypesOf(v: Value): (r: Result<Option<seq<Option<string>>>, Exception>)
    ensures r == Ok(None) <==> v == VNull
    ensures v.VStrings? <==> r.Ok? && r.value.Some?
    ensures v.VStrings? ==> r.value.value == v.strs
    ensures r.Err? ==> r.error == CastFailure
  {
    match v
    case VNull => Ok(None)
    case VStrings(ss) => Ok(Some(ss))
    case _ => Err(CastFailure)
  }

  /** The update the entry with this key makes, reading its value at `q`. */
  function EntryValue(ts: seq<Token>, q: nat, key: Option<string>): (r: Result<Update, Exception>)
    ensures r.Ok? ==> q < |ts| && ReaderSucceeds(ts, q, key)
  {
    if key == Some(NameKey) then
      (match StringAt(ts, q) case Ok(s) => Ok(SetName(s)) case Err(e) => Err(e))
    else if key == Some(DescriptionKey) then
      (match StringAt(ts, q) case Ok(s) => Ok(SetDescription(s)) case Err(e) => Err(e))
    else if key == Some(TypesKey) then
      (match ObjectAt(ts, q)
       case Ok(v) => (match TypesOf(v) case Ok(types) => Ok(SetTypes(types)) case Err(e) => Err(e))
       case Err(e) => Err(e))
    else
      (match ObjectAt(ts, q) case Ok(_) => Ok(Skip) case Err(e) => Err(e))
  }

  /** The entry loop from `p`: the updates of the entries read, where the
      cursor stops, the failure that ended the loop if any, and the calls made. */
  datatype Run = Run(updates: seq<Update>, stop: nat, error: Option<Exception>, calls: seq<InCall>)

  /** One entry read at `p`: its key with readString, then its value with the
      reader the key selects.  `next` is where the cursor is afterwards. */
  datatype EntryRead = EntryRead(update: Result<Update, Exception>, next: nat, calls: seq<InCall>)

  function EntryAt(ts: seq<Token>, p: nat): (r: EntryRead)
    ensures r.update.Ok? ==> r.next == p + 2 <= |ts|
  {
    match StringAt(ts, p)
    case Err(e) => EntryRead(Err(e), p, [InReadString])
    case Ok(key) =>
      EntryRead(EntryValue(ts, p + 1, key),
                if ReaderSucceeds(ts, p + 1, key) then p + 2 else p + 1,
                [InReadString, ReaderFor(key)])
  }

  function Entries(ts: seq<Token>, p: nat): (r: Run)
    decreases |ts| - p
  {
    if EndAt(ts, p) then Run([], p, None, [])
    else
      var entry := EntryAt(ts, p);
      if entry.update.Err? then Run([], entry.next, Some(entry.update.error), entry.calls)
      else
        var rest := Entries(ts, entry.next);
        Run([entry.update.value] + rest.updates, rest.stop, rest.error, entry.calls + rest.calls)
  }

  /** `r` preceded by updates `us` and calls `cs`. */
  function Prefixed(us: seq<Update>, cs: seq<InCall>, r: Run): Run
  {
    Run(us + r.updates, r.stop, r.error, cs + r.calls)
  }

  function Apply(f: NotificationFields, u: Update): NotificationFields
  {
    match u
    case SetName(s) => f.(name := s)
    case SetDescription(s) => f.(description := s)
    case SetTypes(types) => f.(types := types)
    case Skip => f
  }

  /** The locals after the updates `us`, applied in order to the defaults. */
  function Fold(us: seq<Update>): NotificationFields
  {
    if us == [] then Defaults else Apply(Fold(us[..|us| - 1]), us[|us| - 1])
  }

  function ArgsOf(f: NotificationFields): NotificationArgs
  {
    NotificationArgs(f.types, f.name, f.description)
  }

  /** The effect of readMap from `p`. */
  datatype Decoded = Decoded(result: Result<ObjId, Exception>, stop: nat, calls: seq<InCall>)

  function Decode(ts: seq<Token>, p: nat, construct: NotificationArgs -> Construction): Decoded
  {
    var run := Entries(ts, p);
    if run.error.Some? then Decoded(Err(run.error.value), run.stop, run.calls)
    else if EndMarkAt(ts, run.stop).Some? then
      Decoded(Err(EndMarkAt(ts, run.stop).value), run.stop, run.calls + [InReadMapEnd])
    else
      var built := match construct(ArgsOf(Fold(run.updates)))
        case Built(info) => Ok(info)
        case Failed(text) => Err(IOExceptionOf(text));
      Decoded(built, run.stop + 1, run.calls + [InReadMapEnd])
  }

  class MBeanNotificationInfoDeserializer {
    constructor ()
    {
    }

    /** readMap: dispatches each entry on its key until isEnd, consumes the
        end marker and constructs the info; `construct` is the foreign
        MBeanNotificationInfo constructor. */
    method ReadMap(input: Input, construct: NotificationArgs -> Construction) returns (r: Result<ObjId, Exception>)
      modifies input
      ensures var d := Decode(input.tokens, old(input.pos), construct);
              r == d.result && input.pos == d.stop && input.log == old(input.log) + d.calls
      ensures input.refs == old(input.refs) && input.closed == old(input.closed)
    {
      var fields, e := ReadEntries(input);
      if e.Some? {
        r := Err(e.value);
        return;
      }
      e := input.ReadMapEnd();
      if e.Some? {
        r := Err(e.value);
        return;
      }
      var built := construct(NotificationArgs(fields.types, fields.name, fields.description));
      match built {
        case Built(info) => r := Ok(info);
        case Failed(text) => r := Err(IOExceptionOf(text));
      }
    }
  }

  /** The entry loop of readMap: the locals start null and each entry's key
      selects the local its value is read into. */
  method ReadEntries(input: Input) returns (fields: NotificationFields, e: Option<Exception>)
    modifies input
    ensures var run := Entries(input.tokens, old(input.pos));
            e == run.error && input.pos == run.stop && input.log == old(input.log) + run.calls
            && (e.None? ==> fields == Fold(run.updates))
    ensures input.refs == old(input.refs) && input.closed == old(input.closed)
  {
    fields := Defaults;
    ghost var p0 := input.pos;
    ghost var log0 := input.log;
    ghost var done: seq<Update> := [];
    ghost var doneCalls: seq<InCall> := [];
    while !input.IsEnd()
      invariant p0 <= input.pos
      invariant Entries(input.tokens, p0) == Prefixed(done, doneCalls, Entries(input.tokens, input.pos))
      invariant fields == Fold(done)
      invariant input.log == log0 + doneCalls
      invariant input.refs == old(input.refs) && input.closed == old(input.closed)
      decreases |input.tokens| - input.pos
    {
      ghost var p := input.pos;
      ghost var step := EntryAt(input.tokens, p);
      var u := ReadEntry(input);
      if u.Err? {
        assert Entries(input.tokens, p) == Run([], input.pos, Some(u.error), step.calls);
        assert Entries(input.tokens, p0).calls == doneCalls + step.calls;
        LogAppend(log0, doneCalls, step.calls);
        e := Some(u.error);
        return;
      }
      fields := Apply(fields, u.value);
      FoldAppend(done, u.value);
      PrefixedStep(done, doneCalls, u.value, step.calls, Entries(input.tokens, input.pos));
      LogAppend(log0, doneCalls, step.calls);
      done := done + [u.value];
      doneCalls := doneCalls + step.calls;
    }
    assert done + [] == done && doneCalls + [] == doneCalls;
    assert Entries(input.tokens, p0).calls == doneCalls;
    e := None;
  }

  /** Reads one entry: its key, then its value with the reader the key selects. */
  method ReadEntry(input: Input) returns (r: Result<Update, Exception>)
    modifies input
    ensures var entry := EntryAt(input.tokens, old(input.pos));
            r == entry.update && input.pos == entry.next && input.log == old(input.log) + entry.calls
    ensures input.refs == old(input.refs) && input.closed == old(input.closed)
  {
    var key := input.ReadString();
    if key.Err? {
      r := Err(key.error);
      return;
    }
    r := ReadEntryValue(input, key.value);
  }

  /** Reads the value of the entry with key `key`, with the reader the key
      selects; the types are cast to a string array. */
  method ReadEntryValue(input: Input, key: Option<string>) returns (r: Result<Update, Exception>)
    modifies input
    ensures r == EntryValue(input.tokens, old(input.pos), key)
    ensures input.pos == if ReaderSucceeds(input.tokens, old(input.pos), key) then old(input.pos) + 1 else old(input.pos)
    ensures input.log == old(input.log) + [ReaderFor(key)]
    ensures input.refs == old(input.refs) && input.closed == old(input.closed)
  {
    if key == Some(NameKey) {
      var v := input.ReadString();
      r := if v.Ok? then Ok(SetName(v.value)) else Err(v.error);
    } else if key == Some(DescriptionKey) {
      var v := input.ReadString();
      r := if v.Ok? then Ok(SetDescription(v.value)) else Err(v.error);
    } else if key == Some(TypesKey) {
      var v := input.ReadObject();
      if v.Err? {
        r := Err(v.error);
      } else {
        var cast := TypesOf(v.value);
        r := if cast.Ok? then Ok(SetTypes(cast.value)) else Err(cast.error);
      }
    } else {
      var v := input.ReadObject();
      r := if v.Ok? then Ok(Skip) else Err(v.error);
    }
  }

  lemma FoldAppend(us: seq<Update>, u: Update)
    ensures Fold(us + [u]) == Apply(Fold(us), u)
  {
    assert (us + [u])[..|us|] == us;
  }

  lemma PrefixedStep(us: seq<Update>, cs: seq<InCall>, u: Update, step: seq<InCall>, rest: Run)
    ensures Prefixed(us, cs, Run([u] + rest.updates, rest.stop, rest.error, step + rest.calls))
            == Prefixed(us + [u], cs + step, rest)
  {
    assert us + ([u] + rest.updates) == (us + [u]) + rest.updates;
    assert cs + (step + rest.calls) == (cs + step) + rest.calls;
  }

  /** The local an update assigns. */
  datatype Slot = NameSlot | DescriptionSlot | TypesSlot

  function SlotOf(u: Update): Option<Slot>
  {
    match u
    case SetName(_) => Some(NameSlot)
    case SetDescription(_) => Some(DescriptionSlot)
    case SetTypes(_) => Some(TypesSlot)
    case Skip => None
  }

  /** Whether `f` and `g` agree on slot `k`. */
  predicate SameAt(f: NotificationFields, g: NotificationFields, k: Slot)
  {
    match k
    case NameSlot => f.name == g.name
    case DescriptionSlot => f.description == g.description
    case TypesSlot => f.types == g.types
  }

  /** Whether `f` holds the value `u` assigns. */
  predicate Holds(f: NotificationFields, u: Update)
  {
    match u
    case SetName(s) => f.name == s
    case SetDescription(s) => f.description == s
    case SetTypes(types) => f.types == types
    case Skip => true
  }

  /** An absent key keeps its local null. */
  lemma {:induction false} AbsentKeyStaysNull(us: seq<Update>, k: Slot)
    requires forall i :: 0 <= i < |us| ==> SlotOf(us[i]) != Some(k)
    ensures SameAt(Fold(us), Defaults, k)
  {
    if us != [] {
      AbsentKeyStaysNull(us[..|us| - 1], k);
    }
  }

  /** A repeated key keeps its last value. */
  lemma {:induction false} LastValueWins(us: seq<Update>, i: nat)
    requires i < |us| && SlotOf(us[i]).Some?
    requires forall j :: i < j < |us| ==> SlotOf(us[j]) != SlotOf(us[i])
    ensures Holds(Fold(us), us[i])
  {
    var n := |us| - 1;
    if i < n {
      LastValueWins(us[..n], i);
      assert SlotOf(us[n]) != SlotOf(us[i]);
    }
  }

  /** An unrecognised key, null included, has its value read with readObject
      and changes no local. */
  lemma UnknownKeyIsSkipped(ts: seq<Token>, q: nat, key: Option<string>)
    requires !IsKnownKey(key)
    ensures ReaderFor(key) == InReadObject
    ensures EntryValue(ts, q, key) == (if ObjectAt(ts, q).Ok? then Ok(Skip) else Err(UnexpectedToken))
    ensures forall f :: Apply(f, Skip) == f
  {
  }

  /** A "types" value that is neither null nor a string array fails the cast,
      and the whole decode fails with it, before readMapEnd. */
  lemma {:induction false} BadTypesFails(ts: seq<Token>, p: nat, construct: NotificationArgs -> Construction)
    requires p + 1 < |ts| && ts[p] == TString(Some(TypesKey))
    requires ValueOf(ts[p + 1]).Some? && !ValueOf(ts[p + 1]).value.VNull? && !ValueOf(ts[p + 1]).value.VStrings?
    ensures Decode(ts, p, construct) == Decoded(Err(CastFailure), p + 2, [InReadString, InReadObject])
  {
    assert !EndAt(ts, p);
    assert EntryAt(ts, p).update == Err(CastFailure);
  }

  /** The entry loop makes no readMapEnd call; readMap makes exactly one, as
      its last call, when the loop ended at isEnd, and none otherwise. */
  lemma {:induction false} NoMapEndInEntries(ts: seq<Token>, p: nat)
    ensures forall i :: 0 <= i < |Entries(ts, p).calls| ==> Entries(ts, p).calls[i] != InReadMapEnd
    decreases |ts| - p
  {
    if !EndAt(ts, p) && StringAt(ts, p).Ok? {
      var key := StringAt(ts, p).value;
      if EntryValue(ts, p + 1, key).Ok? {
        NoMapEndInEntries(ts, p + 2);
      }
    }
  }

  lemma MapEndOnce(ts: seq<Token>, p: nat, construct: NotificationArgs -> Construction)
    ensures var calls := Decode(ts, p, construct).calls;
            var run := Entries(ts, p);
            (run.error.None? ==> calls == run.calls + [InReadMapEnd])
            && (run.error.Some? ==> forall i :: 0 <= i < |calls| ==> calls[i] != InReadMapEnd)
  {
    NoMapEndInEntries(ts, p);
  }

  /** The tokens of a map holding every key once, in the source's key order. */
  function EncodeFields(f: NotificationFields): seq<Token>
  {
    [TString(Some(NameKey)), TString(f.name),
     TString(Some(DescriptionKey)), TString(f.description),
     TString(Some(TypesKey)), TValue(if f.types.Some? then VStrings(f.types.value) else VNull),
     TEnd]
  }

  lemma NameEntry(ts: seq<Token>, p: nat)
    requires p + 1 < |ts| && ts[p] == TString(Some(NameKey)) && ts[p + 1].TString?
    ensures EntryAt(ts, p).update == Ok(SetName(ts[p + 1].s)) && EntryAt(ts, p).next == p + 2
  {
  }

  lemma DescriptionEntry(ts: seq<Token>, p: nat)
    requires p + 1 < |ts| && ts[p] == TString(Some(DescriptionKey)) && ts[p + 1].TString?
    ensures EntryAt(ts, p).update == Ok(SetDescription(ts[p + 1].s)) && EntryAt(ts, p).next == p + 2
  {
  }

  lemma TypesEntry(ts: seq<Token>, p: nat, types: Option<seq<Option<string>>>)
    requires p + 1 < |ts| && ts[p] == TString(Some(TypesKey))
    requires ts[p + 1] == TValue(if types.Some? then VStrings(types.value) else VNull)
    ensures EntryAt(ts, p).update == Ok(SetTypes(types)) && EntryAt(ts, p).next == p + 2
  {
  }

  /** Setting every field once, from the defaults, gives exactly those fields. */
  lemma FoldEveryField(f: NotificationFields)
    ensures Fold([SetName(f.name), SetDescription(f.description), SetTypes(f.types)]) == f
  {
    var us := [SetName(f.name), SetDescription(f.description), SetTypes(f.types)];
    assert us[..2] == [SetName(f.name), SetDescription(f.description)];
    assert us[..2][..1] == [SetName(f.name)];
    assert us[..2][..1][..0] == [];
    assert Fold(us[..2][..1]) == Defaults.(name := f.name);
    assert Fold(us[..2]) == Defaults.(name := f.name, description := f.description);
  }

  /** A map that names every field once, in the order name, description,
      types, decodes to the constructor call on exactly those fields, with
      the cursor just past the end marker. */
  lemma DecodeEncodedFields(f: NotificationFields, after: seq<Token>, construct: NotificationArgs -> Construction)
    ensures var d := Decode(EncodeFields(f) + after, 0, construct);
            d.stop == 7
            && d.result == match construct(NotificationArgs(f.types, f.name, f.description))
                           case Built(info) => Ok(info)
                           case Failed(text) => Err(IOExceptionOf(text))
  {
    var ts := EncodeFields(f) + after;
    assert ts[..7] == EncodeFields(f);
    NameEntry(ts, 0);
    DescriptionEntry(ts, 2);
    TypesEntry(ts, 4, f.types);
    assert EndAt(ts, 6) && !EndAt(ts, 4) && !EndAt(ts, 2) && !EndAt(ts, 0);
    var r6 := Entries(ts, 6);
    assert r6 == Run([], 6, None, []);
    var r4 := Entries(ts, 4);
    assert r4.updates == [SetTypes(f.types)] && r4.stop == 6 && r4.error.None?;
    var r2 := Entries(ts, 2);
    assert r2.updates == [SetDescription(f.description), SetTypes(f.types)] && r2.stop == 6 && r2.error.None?;
    var r0 := Entries(ts, 0);
    assert r0.updates == [SetName(f.name), SetDescription(f.description), SetTypes(f.types)];
    assert r0.stop == 6 && r0.error.None?;
    FoldEveryField(f);
  }
}
