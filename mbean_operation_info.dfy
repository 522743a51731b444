/** MBeanOperationInfoDeserializer: decodes a map of named entries into the
    arguments of the MBeanOperationInfo constructor. */
module OperationInfoDecoding {
  import opened Wire
  import opened HessianInput

  /** The change one entry makes to the decoder's locals. */
  datatype Update =
    | SetName(name: Option<string>)
    | SetDescription(description: Option<string>)
    | SetType(returnType: Option<string>)
    | SetImpact(impact: int)
    | SetSignature(signature: Option<seq<ParamInfo>>)
    | Skip

  /** The decoder's locals: name, type, description, sig and impact. */
  datatype OperationFields = OperationFields(
    name: Option<string>,
    returnType: Option<string>,
    description: Option<string>,
    signature: Option<seq<ParamInfo>>,
    impact: int)

  /** Their values before the first entry is read. */
  const Defaults := OperationFields(None, None, None, None, 0)

  /** The arguments of MBeanOperationInfo, in the constructor's order. */
  datatype OperationArgs = OperationArgs(
    name: Option<string>,
    description: Option<string>,
    signature: Option<seq<ParamInfo>>,
    returnType: Option<string>,
    impact: int)

  const NameKey := "name"
  const DescriptionKey := "description"
  const TypeKey := "type"
  const ImpactKey := "impact"
  const SignatureKey := "signature"

  predicate IsKnownKey(key: Option<string>)
  {
    key == Some(NameKey) || key == Some(DescriptionKey) || key == Some(TypeKey)
    || key == Some(ImpactKey) || key == Some(SignatureKey)
  }

  /** The call that reads the value of an entry with this key. */
  function ReaderFor(key: Option<string>): InCall
  {
    if key == Some(NameKey) || key == Some(DescriptionKey) || key == Some(TypeKey) then InReadString
    else if key == Some(ImpactKey) then InReadInt
    else InReadObject
  }

  /** Whether that call succeeds on the token at `q` (and so consumes it). */
  predicate ReaderSucceeds(ts: seq<Token>, q: nat, key: Option<string>)
  {
    match ReaderFor(key)
    case InReadString => StringAt(ts, q).Ok?
    case InReadInt => IntAt(ts, q).Ok?
    case _ => ObjectAt(ts, q).Ok?
  }

  /** The cast `(MBeanParameterInfo[])` of a value read for "signature". */
  function SignatureOf(v: Value): (r: Result<Option<seq<ParamInfo>>, Exception>)
    ensures r == Ok(None) <==> v == VNull
    ensures v.VParamInfos? <==> r.Ok? && r.value.Some?
    ensures v.VParamInfos? ==> r.value.value == v.params
    ensures r.Err? ==> r.error == CastFailure
  {
    match v
    case VNull => Ok(None)
    case VParamInfos(ps) => Ok(Some(ps))
    case _ => Err(CastFailure)
  }

  /** The update the entry with this key makes, reading its value at `q`. */
  function EntryValue(ts: seq<Token>, q: nat, key: Option<string>): (r: Result<Update, Exception>)
    ensures r.Ok? ==> q < |ts| && ReaderSucceeds(ts, q, key)
  {
    if key == Some(NameKey) then
      (match StringAt(ts, q) case Ok(s) => Ok(SetName(s)) case Err(e) => Err(e))
    else if key == Some(DescriptionKey) then
      (match StringAt(ts, q) case Ok(s) => Ok(SetDescription(s)) case Err(e) => Err(e))
    else if key == Some(TypeKey) then
      (match StringAt(ts, q) case Ok(s) => Ok(SetType(s)) case Err(e) => Err(e))
    else if key == Some(ImpactKey) then
      (match IntAt(ts, q) case Ok(i) => Ok(SetImpact(i)) case Err(e) => Err(e))
    else if key == Some(SignatureKey) then
      (match ObjectAt(ts, q)
       case Ok(v) => (match SignatureOf(v) case Ok(sig) => Ok(SetSignature(sig)) case Err(e) => Err(e))
       case Err(e) => Err(e))
    else
      (match ObjectAt(ts, q) case Ok(_) => Ok(Skip) case Err(e) => Err(e))
  }

  /** The entry loop from `p`: the updates of the entries read, where the
      cursor stops, the failure that ended the loop if any, and the calls made. */
  datatype Run = Run(updates: seq<Update>, stop: nat, error: Option<Exception>, calls: seq<InCall>)

  /** One entry read at `p`: its key with readString, then its value with the
      reader the key selects.  `next` is where the cursor is afterwards. */
  datatype EntryRead = EntryRead(update: Result<Update, Exception>, next: nat, calls: seq<InCall>)

  function EntryAt(ts: seq<Token>, p: nat): (r: EntryRead)
    ensures r.update.Ok? ==> r.next == p + 2 <= |ts|
  {
    match StringAt(ts, p)
    case Err(e) => EntryRead(Err(e), p, [InReadString])
    case Ok(key) =>
      EntryRead(EntryValue(ts, p + 1, key),
                if ReaderSucceeds(ts, p + 1, key) then p + 2 else p + 1,
                [InReadString, ReaderFor(key)])
  }

  function Entries(ts: seq<Token>, p: nat): (r: Run)
    decreases |ts| - p
  {
    if EndAt(ts, p) then Run([], p, None, [])
    else
      var entry := EntryAt(ts, p);
      if entry.update.Err? then Run([], entry.next, Some(entry.update.error), entry.calls)
      else
        var rest := Entries(ts, entry.next);
        Run([entry.update.value] + rest.updates, rest.stop, rest.error, entry.calls + rest.calls)
  }

  /** `r` preceded by updates `us` and calls `cs`. */
  function Prefixed(us: seq<Update>, cs: seq<InCall>, r: Run): Run
  {
    Run(us + r.updates, r.stop, r.error, cs + r.calls)
  }

  function Apply(f: OperationFields, u: Update): OperationFields
  {
    match u
    case SetName(s) => f.(name := s)
    case SetDescription(s) => f.(description := s)
    case SetType(s) => f.(returnType := s)
    case SetImpact(i) => f.(impact := i)
    case SetSignature(sig) => f.(signature := sig)
    case Skip => f
  }

  /** The locals after the updates `us`, applied in order to the defaults. */
  function Fold(us: seq<Update>): OperationFields
  {
    if us == [] then Defaults else Apply(Fold(us[..|us| - 1]), us[|us| - 1])
  }

  function ArgsOf(f: OperationFields): OperationArgs
  {
    OperationArgs(f.name, f.description, f.signature, f.returnType, f.impact)
  }

  /** The effect of readMap from `p`. */
  datatype Decoded = Decoded(result: Result<ObjId, Exception>, stop: nat, calls: seq<InCall>)

  function Decode(ts: seq<Token>, p: nat, construct: OperationArgs -> Construction): Decoded
  {
    var run := Entries(ts, p);
    if run.error.Some? then Decoded(Err(run.error.value), run.stop, run.calls)
    else if EndMarkAt(ts, run.stop).Some? then
      Decoded(Err(EndMarkAt(ts, run.stop).value), run.stop, run.calls + [InReadMapEnd])
    else
      var built := match construct(ArgsOf(Fold(run.updates)))
        case Built(info) => Ok(info)
        case Failed(text) => Err(IOExceptionOf(text));
      Decoded(built, run.stop + 1, run.calls + [InReadMapEnd])
  }

  class MBeanOperationInfoDeserializer {
    constructor ()
    {
    }

    /** readMap: dispatches each entry on its key until isEnd, consumes the
        end marker and constructs the info; `construct` is the foreign
        MBeanOperationInfo constructor. */
    method ReadMap(input: Input, construct: OperationArgs -> Construction) returns (r: Result<ObjId, Exception>)
      modifies input
      ensures var d := Decode(input.tokens, old(input.pos), construct);
              r == d.result && input.pos == d.stop && input.log == old(input.log) + d.calls
      ensures input.refs == old(input.refs) && input.closed == old(input.closed)
    {
      var fields, e := ReadEntries(input);
      if e.Some? {
        r := Err(e.value);
        return;
      }
      e := input.ReadMapEnd();
      if e.Some? {
        r := Err(e.value);
        return;
      }
      var built := construct(OperationArgs(fields.name, fields.description, fields.signature,
                                           fields.returnType, fields.impact));
      match built {
        case Built(info) => r := Ok(info);
        case Failed(text) => r := Err(IOExceptionOf(text));
      }
    }
  }

  /** The entry loop of readMap: the locals start at their defaults and each
      entry's key selects the local its value is read into. */
  method ReadEntries(input: Input) returns (fields: OperationFields, e: Option<Exception>)
    modifies input
    ensures var run := Entries(input.tokens, old(input.pos));
            e == run.error && input.pos == run.stop && input.log == old(input.log) + run.calls
            && (e.None? ==> fields == Fold(run.updates))
    ensures input.refs == old(input.refs) && input.closed == old(input.closed)
  {
    fields := Defaults;
    ghost var p0 := input.pos;
    ghost var log0 := input.log;
    ghost var done: seq<Update> := [];
    ghost var doneCalls: seq<InCall> := [];
    while !input.IsEnd()
      invariant p0 <= input.pos
      invariant Entries(input.tokens, p0) == Prefixed(done, doneCalls, Entries(input.tokens, input.pos))
      invariant fields == Fold(done)
      invariant input.log == log0 + doneCalls
      invariant input.refs == old(input.refs) && input.closed == old(input.closed)
      decreases |input.tokens| - input.pos
    {
      ghost var p := input.pos;
      ghost var step := EntryAt(input.tokens, p);
      var u := ReadEntry(input);
      if u.Err? {
        assert Entries(input.tokens, p) == Run([], input.pos, Some(u.error), step.calls);
        assert Entries(input.tokens, p0).calls == doneCalls + step.calls;
        LogAppend(log0, doneCalls, step.calls);
        e := Some(u.error);
        return;
      }
      fields := Apply(fields, u.value);
      FoldAppend(done, u.value);
      PrefixedStep(done, doneCalls, u.value, step.calls, Entries(input.tokens, input.pos));
      LogAppend(log0, doneCalls, step.calls);
      done := done + [u.value];
      doneCalls := doneCalls + step.calls;
    }
    assert done + [] == done && doneCalls + [] == doneCalls;
    assert Entries(input.tokens, p0).calls == doneCalls;
    e := None;
  }

  /** Reads one entry: its key, then its value with the reader the key selects. */
  method ReadEntry(input: Input) returns (r: Result<Update, Exception>)
    modifies input
    ensures var entry := EntryAt(input.tokens, old(input.pos));
            r == entry.update && input.pos == entry.next && input.log == old(input.log) + entry.calls
    ensures input.refs == old(input.refs) && input.closed == old(input.closed)
  {
    var key := input.ReadString();
    if key.Err? {
      r := Err(key.error);
      return;
    }
    r := ReadEntryValue(input, key.value);
  }

  /** Reads the value of the entry with key `key`, with the reader the key
      selects; the signature is cast to a parameter-info array. */
  method ReadEntryValue(input: Input, key: Option<string>) returns (r: Result<Update, Exception>)
    modifies input
    ensures r == EntryValue(input.tokens, old(input.pos), key)
    ensures input.pos == if ReaderSucceeds(input.tokens, old(input.pos), key) then old(input.pos) + 1 else old(input.pos)
    ensures input.log == old(input.log) + [ReaderFor(key)]
    ensures input.refs == old(input.refs) && input.closed == old(input.closed)
  {
    if key == Some(NameKey) {
      var v := input.ReadString();
      r := if v.Ok? then Ok(SetName(v.value)) else Err(v.error);
    } else if key == Some(DescriptionKey) {
      var v := input.ReadString();
      r := if v.Ok? then Ok(SetDescription(v.value)) else Err(v.error);
    } else if key == Some(TypeKey) {
      var v := input.ReadString();
      r := if v.Ok? then Ok(SetType(v.value)) else Err(v.error);
    } else if key == Some(ImpactKey) {
      var v := input.ReadInt();
      r := if v.Ok? then Ok(SetImpact(v.value)) else Err(v.error);
    } else if key == Some(SignatureKey) {
      var v := input.ReadObject();
      if v.Err? {
        r := Err(v.error);
      } else {
        var cast := SignatureOf(v.value);
        r := if cast.Ok? then Ok(SetSignature(cast.value)) else Err(cast.error);
      }
    } else {
      var v := input.ReadObject();
      r := if v.Ok? then Ok(Skip) else Err(v.error);
    }
  }

  lemma FoldAppend(us: seq<Update>, u: Update)
    ensures Fold(us + [u]) == Apply(Fold(us), u)
  {
    assert (us + [u])[..|us|] == us;
  }

  lemma PrefixedStep(us: seq<Update>, cs: seq<InCall>, u: Update, step: seq<InCall>, rest: Run)
    ensures Prefixed(us, cs, Run([u] + rest.updates, rest.stop, rest.error, step + rest.calls))
            == Prefixed(us + [u], cs + step, rest)
  {
    assert us + ([u] + rest.updates) == (us + [u]) + rest.updates;
    assert cs + (step + rest.calls) == (cs + step) + rest.calls;
  }

  /** The local an update assigns. */
  datatype Slot = NameSlot | DescriptionSlot | TypeSlot | ImpactSlot | SignatureSlot

  function SlotOf(u: Update): Option<Slot>
  {
    match u
    case SetName(_) => Some(NameSlot)
    case SetDescription(_) => Some(DescriptionSlot)
    case SetType(_) => Some(TypeSlot)
    case SetImpact(_) => Some(ImpactSlot)
    case SetSignature(_) => Some(SignatureSlot)
    case Skip => None
  }

  /** Whether `f` and `g` agree on slot `k`. */
  predicate SameAt(f: OperationFields, g: OperationFields, k: Slot)
  {
    match k
    case NameSlot => f.name == g.name
    case DescriptionSlot => f.description == g.description
    case TypeSlot => f.returnType == g.returnType
    case ImpactSlot => f.impact == g.impact
    case SignatureSlot => f.signature == g.signature
  }

  /** Whether `f` holds the value `u` assigns. */
  predicate Holds(f: OperationFields, u: Update)
  {
    match u
    case SetName(s) => f.name == s
    case SetDescription(s) => f.description == s
    case SetType(s) => f.returnType == s
    case SetImpact(i) => f.impact == i
    case SetSignature(sig) => f.signature == sig
    case Skip => true
  }

  /** An absent key keeps its default: null strings, a null signature, impact 0. */
  lemma {:induction false} AbsentKeyKeepsDefault(us: seq<Update>, k: Slot)
    requires forall i :: 0 <= i < |us| ==> SlotOf(us[i]) != Some(k)
    ensures SameAt(Fold(us), Defaults, k)
  {
    if us != [] {
      AbsentKeyKeepsDefault(us[..|us| - 1], k);
    }
  }

  /** A repeated key keeps its last value: the last update of a slot is what
      the locals hold at the end. */
  lemma {:induction false} LastValueWins(us: seq<Update>, i: nat)
    requires i < |us| && SlotOf(us[i]).Some?
    requires forall j :: i < j < |us| ==> SlotOf(us[j]) != SlotOf(us[i])
    ensures Holds(Fold(us), us[i])
  {
    var n := |us| - 1;
    if i < n {
      LastValueWins(us[..n], i);
      assert SlotOf(us[n]) != SlotOf(us[i]);
    }
  }

  /** An unrecognised key, null included, has its value read with readObject
      and changes no local. */
  lemma UnknownKeyIsSkipped(ts: seq<Token>, q: nat, key: Option<string>)
    requires !IsKnownKey(key)
    ensures ReaderFor(key) == InReadObject
    ensures EntryValue(ts, q, key) == (if ObjectAt(ts, q).Ok? then Ok(Skip) else Err(UnexpectedToken))
    ensures forall f :: Apply(f, Skip) == f
  {
  }

  /** The entry loop makes no readMapEnd call; readMap makes exactly one, as
      its last call, when the loop ended at isEnd, and none otherwise. */
  lemma {:induction false} NoMapEndInEntries(ts: seq<Token>, p: nat)
    ensures forall i :: 0 <= i < |Entries(ts, p).calls| ==> Entries(ts, p).calls[i] != InReadMapEnd
    decreases |ts| - p
  {
    if !EndAt(ts, p) && StringAt(ts, p).Ok? {
      var key := StringAt(ts, p).value;
      if EntryValue(ts, p + 1, key).Ok? {
        NoMapEndInEntries(ts, p + 2);
      }
    }
  }

  lemma MapEndOnce(ts: seq<Token>, p: nat, construct: OperationArgs -> Construction)
    ensures var calls := Decode(ts, p, construct).calls;
            var run := Entries(ts, p);
            (run.error.None? ==> calls == run.calls + [InReadMapEnd])
            && (run.error.Some? ==> forall i :: 0 <= i < |calls| ==> calls[i] != InReadMapEnd)
  {
    NoMapEndInEntries(ts, p);
  }

  /** The tokens of a map holding every key once, in the source's key order. */
  function EncodeFields(f: OperationFields): seq<Token>
  {
    [TString(Some(NameKey)), TString(f.name),
     TString(Some(DescriptionKey)), TString(f.description),
     TString(Some(TypeKey)), TString(f.returnType),
     TString(Some(ImpactKey)), TInt(f.impact),
     TString(Some(SignatureKey)), TValue(if f.signature.Some? then VParamInfos(f.signature.value) else VNull),
     TEnd]
  }

  lemma NameEntry(ts: seq<Token>, p: nat)
    requires p + 1 < |ts| && ts[p] == TString(Some(NameKey)) && ts[p + 1].TString?
    ensures EntryAt(ts, p).update == Ok(SetName(ts[p + 1].s)) && EntryAt(ts, p).next == p + 2
  {
  }

  lemma DescriptionEntry(ts: seq<Token>, p: nat)
    requires p + 1 < |ts| && ts[p] == TString(Some(DescriptionKey)) && ts[p + 1].TString?
    ensures EntryAt(ts, p).update == Ok(SetDescription(ts[p + 1].s)) && EntryAt(ts, p).next == p + 2
  {
  }

  lemma TypeEntry(ts: seq<Token>, p: nat)
    requires p + 1 < |ts| && ts[p] == TString(Some(TypeKey)) && ts[p + 1].TString?
    ensures EntryAt(ts, p).update == Ok(SetType(ts[p + 1].s)) && EntryAt(ts, p).next == p + 2
  {
  }

  lemma ImpactEntry(ts: seq<Token>, p: nat)
    requires p + 1 < |ts| && ts[p] == TString(Some(ImpactKey)) && ts[p + 1].TInt?
    ensures EntryAt(ts, p).update == Ok(SetImpact(ts[p + 1].i)) && EntryAt(ts, p).next == p + 2
  {
  }

  lemma SignatureEntry(ts: seq<Token>, p: nat, sig: Option<seq<ParamInfo>>)
    requires p + 1 < |ts| && ts[p] == TString(Some(SignatureKey))
    requires ts[p + 1] == TValue(if sig.Some? then VParamInfos(sig.value) else VNull)
    ensures EntryAt(ts, p).update == Ok(SetSignature(sig)) && EntryAt(ts, p).next == p + 2
  {
  }

  /** The loop over a well-formed entry: its update, then the rest of the run. */
  lemma EntriesStep(ts: seq<Token>, p: nat, u: Update)
    requires !EndAt(ts, p) && EntryAt(ts, p).update == Ok(u) && EntryAt(ts, p).next == p + 2
    ensures Entries(ts, p).updates == [u] + Entries(ts, p + 2).updates
    ensures Entries(ts, p).stop == Entries(ts, p + 2).stop && Entries(ts, p).error == Entries(ts, p + 2).error
  {
  }

  /** The entry loop over an encoded map makes one update per key, in order,
      and stops cleanly at the end marker. */
  lemma EncodedEntries(f: OperationFields, ts: seq<Token>)
    requires |ts| > 10
    requires ts[0] == TString(Some(NameKey)) && ts[1] == TString(f.name)
    requires ts[2] == TString(Some(DescriptionKey)) && ts[3] == TString(f.description)
    requires ts[4] == TString(Some(TypeKey)) && ts[5] == TString(f.returnType)
    requires ts[6] == TString(Some(ImpactKey)) && ts[7] == TInt(f.impact)
    requires ts[8] == TString(Some(SignatureKey))
    requires ts[9] == TValue(if f.signature.Some? then VParamInfos(f.signature.value) else VNull)
    requires ts[10] == TEnd
    ensures Entries(ts, 0).updates == [SetName(f.name), SetDescription(f.description), SetType(f.returnType),
                                       SetImpact(f.impact), SetSignature(f.signature)]
    ensures Entries(ts, 0).stop == 10 && Entries(ts, 0).error.None?
  {
    EncodedMiddle(f, ts);
    NameEntry(ts, 0);
    EntriesStep(ts, 0, SetName(f.name));
  }

  /** The entries of an encoded map after the name. */
  lemma EncodedMiddle(f: OperationFields, ts: seq<Token>)
    requires |ts| > 10
    requires ts[2] == TString(Some(DescriptionKey)) && ts[3] == TString(f.description)
    requires ts[4] == TString(Some(TypeKey)) && ts[5] == TString(f.returnType)
    requires ts[6] == TString(Some(ImpactKey)) && ts[7] == TInt(f.impact)
    requires ts[8] == TString(Some(SignatureKey))
    requires ts[9] == TValue(if f.signature.Some? then VParamInfos(f.signature.value) else VNull)
    requires ts[10] == TEnd
    ensures Entries(ts, 2).updates == [SetDescription(f.description), SetType(f.returnType),
                                       SetImpact(f.impact), SetSignature(f.signature)]
    ensures Entries(ts, 2).stop == 10 && Entries(ts, 2).error.None?
  {
    EncodedFromType(f, ts);
    DescriptionEntry(ts, 2);
    EntriesStep(ts, 2, SetDescription(f.description));
  }

  /** The entries of an encoded map from the return type on. */
  lemma EncodedFromType(f: OperationFields, ts: seq<Token>)
    requires |ts| > 10
    requires ts[4] == TString(Some(TypeKey)) && ts[5] == TString(f.returnType)
    requires ts[6] == TString(Some(ImpactKey)) && ts[7] == TInt(f.impact)
    requires ts[8] == TString(Some(SignatureKey))
    requires ts[9] == TValue(if f.signature.Some? then VParamInfos(f.signature.value) else VNull)
    requires ts[10] == TEnd
    ensures Entries(ts, 4).updates == [SetType(f.returnType), SetImpact(f.impact), SetSignature(f.signature)]
    ensures Entries(ts, 4).stop == 10 && Entries(ts, 4).error.None?
  {
    EncodedTail(f, ts);
    TypeEntry(ts, 4);
    EntriesStep(ts, 4, SetType(f.returnType));
  }

  /** The last two entries of an encoded map, then the end marker. */
  lemma EncodedTail(f: OperationFields, ts: seq<Token>)
    requires |ts| > 10
    requires ts[6] == TString(Some(ImpactKey)) && ts[7] == TInt(f.impact)
    requires ts[8] == TString(Some(SignatureKey))
    requires ts[9] == TValue(if f.signature.Some? then VParamInfos(f.signature.value) else VNull)
    requires ts[10] == TEnd
    ensures Entries(ts, 6).updates == [SetImpact(f.impact), SetSignature(f.signature)]
    ensures Entries(ts, 6).stop == 10 && Entries(ts, 6).error.None?
  {
    ImpactEntry(ts, 6);
    SignatureEntry(ts, 8, f.signature);
    assert Entries(ts, 10) == Run([], 10, None, []);
    EntriesStep(ts, 8, SetSignature(f.signature));
    EntriesStep(ts, 6, SetImpact(f.impact));
  }

  /** Setting every field once, from the defaults, gives exactly those fields. */
  lemma FoldEveryField(f: OperationFields)
    ensures Fold([SetName(f.name), SetDescription(f.description), SetType(f.returnType),
                  SetImpact(f.impact), SetSignature(f.signature)]) == f
  {
    var us := [SetName(f.name), SetDescription(f.description), SetType(f.returnType),
               SetImpact(f.impact), SetSignature(f.signature)];
    assert us[..1][..0] == [];
    assert us[..2][..1] == us[..1];
    assert us[..3][..2] == us[..2];
    assert us[..4][..3] == us[..3];
    assert us[..4] == us[..|us| - 1];
    assert Fold(us[..1]) == Defaults.(name := f.name);
    assert Fold(us[..2]) == Defaults.(name := f.name, description := f.description);
    assert Fold(us[..3]) == Defaults.(name := f.name, description := f.description, returnType := f.returnType);
    assert Fold(us[..4]) == f.(signature := None);
  }

  /** A map that names every field once, in the order name, description,
      type, impact, signature, decodes to the constructor call on exactly
      those fields, with the cursor just past the end marker. */
  lemma DecodeEncodedFields(f: OperationFields, after: seq<Token>, construct: OperationArgs -> Construction)
    ensures var d := Decode(EncodeFields(f) + after, 0, construct);
            d.stop == 11
            && d.result == match construct(OperationArgs(f.name, f.description, f.signature, f.returnType, f.impact))
                           case Built(info) => Ok(info)
                           case Failed(text) => Err(IOExceptionOf(text))
  {
    var ts := EncodeFields(f) + after;
    EncodedEntries(f, ts);
    FoldEveryField(f);
    assert ts[10] == TEnd;
  }
}
