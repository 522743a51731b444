/** UnsafeSerializer: the per-class field plan (introspection), the typed field
    writers, the three-way object write keyed on writeObjectBegin, and the
    process-wide serializer cache. */
module ObjectSerializer {
  import opened Wire
  import opened ClassModel
  import opened HessianOutput

  // ---------------------------------------------------------------------------
  // Field classification and the field plan

  predicate StartsWith(s: string, prefix: string)
  {
    |prefix| <= |s| && s[..|prefix|] == prefix
  }

  /** A field type is primitive-like when it is a primitive type or a class of
      java.lang other than java.lang.Object (boxed types, String, ...). */
  predicate PrimitiveLike(t: FieldType)
  {
    !t.Reference? || (StartsWith(t.typeName, "java.lang.") && t.typeName != "java.lang.Object")
  }

  /** Introspection keeps the fields that are neither transient nor static. */
  predicate Serialized(f: FieldDecl)
  {
    !f.isTransient && !f.isStatic
  }

  /** The kept fields of `fs`, in order. */
  function Kept(fs: seq<FieldDecl>): seq<FieldDecl>
  {
    if fs == [] then []
    else (if Serialized(fs[0]) then [fs[0]] else []) + Kept(fs[1..])
  }

  /** The kept primitive-like fields of `fs`, in order. */
  function Primitives(fs: seq<FieldDecl>): seq<FieldDecl>
  {
    if fs == [] then []
    else (if Serialized(fs[0]) && PrimitiveLike(fs[0].ftype) then [fs[0]] else []) + Primitives(fs[1..])
  }

  /** The kept compound fields of `fs`, in order. */
  function Compounds(fs: seq<FieldDecl>): seq<FieldDecl>
  {
    if fs == [] then []
    else (if Serialized(fs[0]) && !PrimitiveLike(fs[0].ftype) then [fs[0]] else []) + Compounds(fs[1..])
  }

  /** The field plan of a class: every primitive-like field of the chain, then
      every compound field, each group in discovery order. */
  function Plan(cl: ClassDesc): seq<FieldDecl>
  {
    Primitives(AllFields(cl)) + Compounds(AllFields(cl))
  }

  /** Exactly the kept primitive-like fields are in the primitive group, and
      exactly the kept compound ones in the compound group. */
  lemma {:induction false} GroupMembers(fs: seq<FieldDecl>)
    ensures forall f :: f in Kept(fs) <==> f in fs && Serialized(f)
    ensures forall f :: f in Primitives(fs) <==> f in fs && Serialized(f) && PrimitiveLike(f.ftype)
    ensures forall f :: f in Compounds(fs) <==> f in fs && Serialized(f) && !PrimitiveLike(f.ftype)
  {
    if fs != [] {
      GroupMembers(fs[1..]);
      assert fs == [fs[0]] + fs[1..];
    }
  }

  /** The plan holds exactly the fields of the chain that are neither
      transient nor static. */
  lemma PlanMembers(cl: ClassDesc)
    ensures forall f :: f in Plan(cl) <==> f in AllFields(cl) && Serialized(f)
  {
    GroupMembers(AllFields(cl));
  }

  lemma {:induction false} PrimitivesAppend(a: seq<FieldDecl>, b: seq<FieldDecl>)
    ensures Primitives(a + b) == Primitives(a) + Primitives(b)
  {
    if a != [] {
      assert (a + b)[1..] == a[1..] + b;
      PrimitivesAppend(a[1..], b);
    } else {
      assert a + b == b;
    }
  }

  lemma {:induction false} CompoundsAppend(a: seq<FieldDecl>, b: seq<FieldDecl>)
    ensures Compounds(a + b) == Compounds(a) + Compounds(b)
  {
    if a != [] {
      assert (a + b)[1..] == a[1..] + b;
      CompoundsAppend(a[1..], b);
    } else {
      assert a + b == b;
    }
  }

  lemma {:induction false} SplitIsPermutation(fs: seq<FieldDecl>)
    ensures multiset(Primitives(fs)) + multiset(Compounds(fs)) == multiset(Kept(fs))
  {
    if fs != [] {
      SplitIsPermutation(fs[1..]);
    }
  }

  /** The plan is a permutation of the kept fields of the whole chain. */
  lemma PlanIsPermutationOfKept(cl: ClassDesc)
    ensures multiset(Plan(cl)) == multiset(Kept(AllFields(cl)))
  {
    SplitIsPermutation(AllFields(cl));
  }

  /** Every primitive-like field of the plan comes before every compound one. */
  lemma PlanPrimitivesFirst(cl: ClassDesc)
    ensures var p, n := Plan(cl), |Primitives(AllFields(cl))|;
            && (forall i :: 0 <= i < n ==> PrimitiveLike(p[i].ftype))
            && (forall i :: n <= i < |p| ==> !PrimitiveLike(p[i].ftype))
  {
    var p, n := Plan(cl), |Primitives(AllFields(cl))|;
    GroupMembers(AllFields(cl));
    forall i | 0 <= i < |p|
      ensures i < n ==> PrimitiveLike(p[i].ftype)
      ensures i >= n ==> !PrimitiveLike(p[i].ftype)
    {
      if i < n {
        assert p[i] in Primitives(AllFields(cl));
      } else {
        assert p[i] == Compounds(AllFields(cl))[i - n];
        assert p[i] in Compounds(AllFields(cl));
      }
    }
  }

  /** The wire order of fields: the class's own primitive-like fields, those of
      its ancestors, then its own compound fields and those of its ancestors. */
  lemma PlanOrder(cl: ClassDesc)
    ensures Plan(cl) == Primitives(cl.fields) + Primitives(AllFieldsFrom(cl.superclass))
                      + Compounds(cl.fields) + Compounds(AllFieldsFrom(cl.superclass))
  {
    PrimitivesAppend(cl.fields, AllFieldsFrom(cl.superclass));
    CompoundsAppend(cl.fields, AllFieldsFrom(cl.superclass));
  }

  // ---------------------------------------------------------------------------
  // Typed field writers

  /** The field serializer bound to a field (one per FieldSerializer subclass). */
  datatype FieldWriter =
    | BooleanWriter | ByteWriter | CharWriter | ShortWriter | IntWriter | LongWriter
    | DoubleWriter | FloatWriter | StringWriter | DateWriter | ObjectWriter

  predicate IsDateClass(name: string)
  {
    name == "java.util.Date" || name == "java.sql.Date"
    || name == "java.sql.Timestamp" || name == "java.sql.Time"
  }

  /** getFieldSerializer: the writer is chosen by the declared type alone. */
  function WriterFor(t: FieldType): (w: FieldWriter)
    ensures w == StringWriter <==> t == Reference("java.lang.String")
    ensures w == DateWriter <==> t.Reference? && IsDateClass(t.typeName)
    ensures w == ObjectWriter <==> t.Reference? && t.typeName != "java.lang.String" && !IsDateClass(t.typeName)
  {
    match t
    case Boolean => BooleanWriter
    case Byte => ByteWriter
    case Char => CharWriter
    case Short => ShortWriter
    case Int => IntWriter
    case Long => LongWriter
    case Double => DoubleWriter
    case Float => FloatWriter
    case Reference(name) =>
      if name == "java.lang.String" then StringWriter
      else if IsDateClass(name) then DateWriter
      else ObjectWriter
  }

  /** The raw content of a field slot of an object. */
  datatype Raw = RBool(b: bool) | RInt(i: int) | RChar(c: char)
               | RFloat(bits32: nat) | RDouble(bits64: nat) | RRef(r: Ref)

  /** The raw values a writer's slot can hold, as Java's static typing guarantees. */
  predicate Fits(w: FieldWriter, raw: Raw)
  {
    match w
    case BooleanWriter => raw.RBool?
    case ByteWriter => raw.RInt? && -0x80 <= raw.i < 0x80
    case ShortWriter => raw.RInt? && -0x8000 <= raw.i < 0x8000
    case IntWriter => raw.RInt? && -0x8000_0000 <= raw.i < 0x8000_0000
    case LongWriter => raw.RInt? && -0x8000_0000_0000_0000 <= raw.i < 0x8000_0000_0000_0000
    case CharWriter => raw.RChar?
    case FloatWriter => raw.RFloat?
    case DoubleWriter => raw.RDouble?
    case StringWriter => raw.RRef? && (raw.r.Null? || raw.r.Str?)
    case DateWriter => raw.RRef? && (raw.r.Null? || raw.r.Date?)
    case ObjectWriter => raw.RRef?
  }

  /** The one call a field writer makes on the output for a raw value. */
  function Serialize(w: FieldWriter, raw: Raw): Call
    requires Fits(w, raw)
  {
    match w
    case BooleanWriter => WriteBoolean(raw.b)
    case ByteWriter => WriteInt(raw.i)
    case ShortWriter => WriteInt(raw.i)
    case IntWriter => WriteInt(raw.i)
    case LongWriter => WriteLong(raw.i)
    case CharWriter => WriteString(Some([raw.c]))
    case FloatWriter => WriteDouble(FromFloat(raw.bits32))
    case DoubleWriter => WriteDouble(FromDouble(raw.bits64))
    case StringWriter => WriteString(if raw.r.Null? then None else Some(raw.r.s))
    case DateWriter => if raw.r.Null? then WriteNull else WriteUTCDate(raw.r.millis)
    case ObjectWriter => WriteObject(raw.r)
  }

  /** What a field of each declared type contributes to the stream. */
  lemma FieldWriteByDeclaredType(t: FieldType, raw: Raw)
    requires Fits(WriterFor(t), raw)
    ensures var c := Serialize(WriterFor(t), raw);
            && (t == Boolean ==> c == WriteBoolean(raw.b))
            && (t == Byte || t == Short || t == Int ==> c == WriteInt(raw.i))
            && (t == Long ==> c == WriteLong(raw.i))
            && (t == Char ==> c == WriteString(Some([raw.c])))
            && (t == Float ==> c == WriteDouble(FromFloat(raw.bits32)))
            && (t == Double ==> c == WriteDouble(FromDouble(raw.bits64)))
            && (t == Reference("java.lang.String") ==> c == WriteString(if raw.r.Null? then None else Some(raw.r.s)))
            && (t.Reference? && IsDateClass(t.typeName) ==>
                  c == if raw.r == Null then WriteNull else WriteUTCDate(raw.r.millis))
            && (t.Reference? && t.typeName != "java.lang.String" && !IsDateClass(t.typeName) ==>
                  c == WriteObject(raw.r))
  {
  }

  /** Boxed java.lang types are primitive-like in the plan order but are still
      written through writeObject. */
  lemma BoxedTypesUseWriteObject(name: string)
    requires StartsWith(name, "java.lang.") && name != "java.lang.String"
    ensures PrimitiveLike(Reference(name)) <==> name != "java.lang.Object"
    ensures WriterFor(Reference(name)) == ObjectWriter
  {
    assert name[5] == 'l' by {
      assert name[..10][5] == name[5];
    }
  }

  /** Errors: a writer rethrows runtime and I/O failures with context; other
      throwables pass through unchanged. */
  predicate Rewrapped(e: Exception)
  {
    e.Kind() == RuntimeError || e.Kind() == IOError
  }

  /** The failure as it leaves a field writer: the object writer attaches the
      declaring class and the field name. */
  function FieldFailure(w: FieldWriter, f: FieldDecl, e: Exception): (r: Exception)
    ensures r.Kind() == e.Kind()
  {
    if w.ObjectWriter? && Rewrapped(e) then InField(e.Kind(), f.declaringClass, f.name, e) else e
  }

  /** The failure as it leaves writeInstance: the object's class is attached. */
  function InstanceFailure(className: string, e: Exception): (r: Exception)
    ensures r.Kind() == e.Kind()
  {
    if Rewrapped(e) then InClass(e.Kind(), className, e) else e
  }

  /** The failure thrown by the raw-offset lookup for a field it cannot resolve. */
  const InvalidOffset: Exception := Raised(RuntimeError, 1)

  // ---------------------------------------------------------------------------
  // Introspection

  /** One step of introspect's walk keeps the primitive group on track. */
  lemma WalkPrimitives(k: ClassDesc, before: seq<FieldDecl>, after: seq<FieldDecl>)
    requires after == before + Primitives(k.fields)
    ensures before + Primitives(AllFieldsFrom(Some(k))) == after + Primitives(AllFieldsFrom(k.superclass))
  {
    PrimitivesAppend(k.fields, AllFieldsFrom(k.superclass));
  }

  /** One step of introspect's walk keeps the compound group on track. */
  lemma WalkCompounds(k: ClassDesc, before: seq<FieldDecl>, after: seq<FieldDecl>)
    requires after == before + Compounds(k.fields)
    ensures before + Compounds(AllFieldsFrom(Some(k))) == after + Compounds(AllFieldsFrom(k.superclass))
  {
    CompoundsAppend(k.fields, AllFieldsFrom(k.superclass));
  }

  /** The body of introspect's walk for one class: its declared fields, in
      order, join the primitive-like or the compound group unless they are
      transient or static. */
  method SortDeclared(declared: seq<FieldDecl>, primitiveFields: seq<FieldDecl>, compoundFields: seq<FieldDecl>)
    returns (prims: seq<FieldDecl>, comps: seq<FieldDecl>)
    ensures prims == primitiveFields + Primitives(declared)
    ensures comps == compoundFields + Compounds(declared)
  {
    prims, comps := primitiveFields, compoundFields;
    var i := 0;
    while i < |declared|
      invariant 0 <= i <= |declared|
      invariant prims + Primitives(declared[i..]) == primitiveFields + Primitives(declared)
      invariant comps + Compounds(declared[i..]) == compoundFields + Compounds(declared)
    {
      var field := declared[i];
      assert declared[i..][1..] == declared[i + 1..];
      if field.isTransient || field.isStatic {
      } else if PrimitiveLike(field.ftype) {
        prims := prims + [field];
      } else {
        comps := comps + [field];
      }
      i := i + 1;
    }
  }

  /** introspect: walks the class and its superclasses, keeps the serialized
      fields in two groups, and binds a writer to every field of the plan;
      it fails when a field's raw offset cannot be resolved. */
  method Introspect(cl: ClassDesc) returns (r: Result<(seq<FieldDecl>, seq<FieldWriter>), Exception>)
    ensures r.Ok? <==> forall f | f in Plan(cl) :: f.offsetValid
    ensures r.Ok? ==> r.value.0 == Plan(cl) && |r.value.1| == |r.value.0|
    ensures r.Ok? ==> forall i :: 0 <= i < |r.value.1| ==> r.value.1[i] == WriterFor(r.value.0[i].ftype)
    ensures r.Err? ==> r.error == InvalidOffset
  {
    var primitiveFields, compoundFields := GatherFields(cl);
    var fields := primitiveFields + compoundFields;
    assert fields == Plan(cl);
    var writers := BindWriters(fields);
    if writers.Err? {
      return Err(writers.error);
    }
    return Ok((fields, writers.value));
  }

  /** The walk of introspect up the superclass chain, from the class itself
      to the root, sorting each class's declared fields into the two groups. */
  method GatherFields(cl: ClassDesc) returns (primitiveFields: seq<FieldDecl>, compoundFields: seq<FieldDecl>)
    ensures primitiveFields == Primitives(AllFields(cl))
    ensures compoundFields == Compounds(AllFields(cl))
  {
    primitiveFields := [];
    compoundFields := [];
    var c := Some(cl);
    while c.Some?
      invariant primitiveFields + Primitives(AllFieldsFrom(c)) == Primitives(AllFields(cl))
      invariant compoundFields + Compounds(AllFieldsFrom(c)) == Compounds(AllFields(cl))
      decreases Depth(c)
    {
      var k := c.value;
      ghost var p0, c0 := primitiveFields, compoundFields;
      primitiveFields, compoundFields := SortDeclared(k.fields, primitiveFields, compoundFields);
      WalkPrimitives(k, p0, primitiveFields);
      WalkCompounds(k, c0, compoundFields);
      c := k.superclass;
    }
    assert primitiveFields + [] == primitiveFields;
    assert compoundFields + [] == compoundFields;
  }

  /** The last step of introspect: a writer for each field of the plan, in
      order; creating a writer fails when its field's raw offset is invalid. */
  method BindWriters(fields: seq<FieldDecl>) returns (r: Result<seq<FieldWriter>, Exception>)
    ensures r.Ok? <==> forall f | f in fields :: f.offsetValid
    ensures r.Ok? ==> |r.value| == |fields| && forall i :: 0 <= i < |fields| ==> r.value[i] == WriterFor(fields[i].ftype)
    ensures r.Err? ==> r.error == InvalidOffset
  {
    var writers: seq<FieldWriter> := [];
    var j := 0;
    while j < |fields|
      invariant 0 <= j <= |fields|
      invariant |writers| == j
      invariant forall m :: 0 <= m < j ==> writers[m] == WriterFor(fields[m].ftype) && fields[m].offsetValid
    {
      if !fields[j].offsetValid {
        return Err(InvalidOffset);
      }
      writers := writers + [WriterFor(fields[j].ftype)];
      j := j + 1;
    }
    return Ok(writers);
  }

  // ---------------------------------------------------------------------------
  // The object writer

  /** An object to serialize: its identity, its runtime class name and the raw
      content of its field slots. */
  datatype Instance = Instance(id: ObjId, className: string, slots: map<FieldDecl, Raw>)

  class UnsafeSerializer {
    const fields: seq<FieldDecl>
    const writers: seq<FieldWriter>
    const unshared: bool

    /** There is one writer per field. */
    ghost predicate Aligned()
    {
      |writers| == |fields|
    }

    /** Entry i of the writers is the writer bound to field i's declared type. */
    ghost predicate Valid()
    {
      Aligned() && forall i :: 0 <= i < |fields| ==> writers[i] == WriterFor(fields[i].ftype)
    }

    constructor (fields: seq<FieldDecl>, writers: seq<FieldWriter>, unshared: bool)
      requires |writers| == |fields|
      requires forall i :: 0 <= i < |fields| ==> writers[i] == WriterFor(fields[i].ftype)
      ensures Valid()
      ensures this.fields == fields && this.writers == writers && this.unshared == unshared
    {
      this.fields := fields;
      this.writers := writers;
      this.unshared := unshared;
    }

    /** Every slot of `obj` that the plan reads holds a value of its declared type. */
    ghost predicate Conforming(obj: Instance)
      requires Aligned()
    {
      forall i :: 0 <= i < |fields| ==> fields[i] in obj.slots && Fits(writers[i], obj.slots[fields[i]])
    }

    /** The name of field i, as the schema and the legacy form write it. */
    function FieldName(i: nat): Call
      requires i < |fields|
    {
      WriteString(Some(fields[i].name))
    }

    /** The value of field i of `obj`, as its writer writes it. */
    function FieldValue(obj: Instance, i: nat): Call
      requires Aligned() && Conforming(obj) && i < |fields|
    {
      Serialize(writers[i], obj.slots[fields[i]])
    }

    /** The values of the first m fields of `obj`, in plan order. */
    function Values(obj: Instance, m: nat): (cs: seq<Call>)
      requires Aligned() && Conforming(obj) && m <= |fields|
      ensures |cs| == m
    {
      if m == 0 then [] else Values(obj, m - 1) + [FieldValue(obj, m - 1)]
    }

    /** The field values of `obj`, one call per field in plan order. */
    function InstanceCalls(obj: Instance): seq<Call>
      requires Aligned() && Conforming(obj)
    {
      Values(obj, |fields|)
    }

    /** The names of the first m fields, in plan order. */
    function Names(m: nat): (cs: seq<Call>)
      requires m <= |fields|
      ensures |cs| == m
    {
      if m == 0 then [] else Names(m - 1) + [FieldName(m - 1)]
    }

    /** The schema: the field count, then every field name in plan order. */
    function DefinitionCalls(): seq<Call>
    {
      [WriteClassFieldLength(|fields|)] + Names(|fields|)
    }

    /** The (name, value) pairs of the first m fields. */
    function LegacyPairs(obj: Instance, m: nat): (cs: seq<Call>)
      requires Aligned() && Conforming(obj) && m <= |fields|
      ensures |cs| == 2 * m
    {
      if m == 0 then [] else LegacyPairs(obj, m - 1) + [FieldName(m - 1), FieldValue(obj, m - 1)]
    }

    /** The legacy map form: a (name, value) pair per field, then the map end. */
    function LegacyCalls(obj: Instance): (cs: seq<Call>)
      requires Aligned() && Conforming(obj)
    {
      LegacyPairs(obj, |fields|) + [WriteMapEnd]
    }

    /** What the writer of field i does. */
    function FieldOutcome(obj: Instance, i: nat, failure: Faults): Outcome
      requires Aligned() && Conforming(obj) && i < |fields|
    {
      var c := FieldValue(obj, i);
      if FaultOf(failure, c).Some? then Outcome([], Some(FieldFailure(writers[i], fields[i], FaultOf(failure, c).value)))
      else Outcome([c], None)
    }

    /** The legacy form up to the first m pairs. */
    function PairsOutcome(obj: Instance, failure: Faults, m: nat): Outcome
      requires Aligned() && Conforming(obj) && m <= |fields|
    {
      if m == 0 then Outcome([], None)
      else Then(PairsOutcome(obj, failure, m - 1), PairOutcome(obj, m - 1, failure))
    }

    /** The name of field i, then its value. */
    function PairOutcome(obj: Instance, i: nat, failure: Faults): Outcome
      requires Aligned() && Conforming(obj) && i < |fields|
    {
      Then(Single(failure, FieldName(i)), FieldOutcome(obj, i, failure))
    }

    /** The values of the first m fields, stopping at the first failing writer. */
    function ValuesOutcome(obj: Instance, failure: Faults, m: nat): Outcome
      requires Aligned() && Conforming(obj) && m <= |fields|
    {
      if m == 0 then Outcome([], None)
      else Then(ValuesOutcome(obj, failure, m - 1), FieldOutcome(obj, m - 1, failure))
    }

    /** writeInstance: the field values; a failure leaves with the object's class attached. */
    function InstanceOutcome(obj: Instance, failure: Faults): Outcome
      requires Aligned() && Conforming(obj)
    {
      var v := ValuesOutcome(obj, failure, |fields|);
      if v.error.Some? then Outcome(v.emitted, Some(InstanceFailure(obj.className, v.error.value))) else v
    }

    /** The names of the first m fields, stopping at the first failing call. */
    function NamesOutcome(failure: Faults, m: nat): Outcome
      requires m <= |fields|
    {
      if m == 0 then Outcome([], None)
      else Then(NamesOutcome(failure, m - 1), Single(failure, FieldName(m - 1)))
    }

    /** writeDefinition20: the field count, then the names. */
    function DefinitionOutcome(failure: Faults): Outcome
    {
      Then(Single(failure, WriteClassFieldLength(|fields|)), NamesOutcome(failure, |fields|))
    }

    function LegacyOutcome(obj: Instance, failure: Faults): Outcome
      requires Aligned() && Conforming(obj)
    {
      Then(PairsOutcome(obj, failure, |fields|), Single(failure, WriteMapEnd))
    }

    /** The whole object write, given whether the object was already referenced
        and the class definitions already sent on the stream. */
    function ObjectOutcome(obj: Instance, legacy: bool, defs: seq<string>, known: bool,
                           failure: Faults): Outcome
      requires Aligned() && Conforming(obj)
    {
      var addRef := AddRef(Obj(obj.id));
      if FaultOf(failure, addRef).Some? then Outcome([], FaultOf(failure, addRef))
      else if known then Outcome([addRef], None)
      else var u := UnknownOutcome(obj, legacy, defs, failure); Outcome([addRef] + u.emitted, u.error)
    }

    /** The write of an object not yet referenced: writeObjectBegin, then the
        form it selects. */
    function UnknownOutcome(obj: Instance, legacy: bool, defs: seq<string>,
                            failure: Faults): Outcome
      requires Aligned() && Conforming(obj)
    {
      var begin := WriteObjectBegin(obj.className);
      if FaultOf(failure, begin).Some? then Outcome([], FaultOf(failure, begin))
      else Then(Outcome([begin], None), BodyOutcome(obj, BeginResult(legacy, defs, obj.className), failure))
    }

    /** What follows writeObjectBegin, keyed on the integer it returned. */
    function BodyOutcome(obj: Instance, ref: int, failure: Faults): Outcome
      requires Aligned() && Conforming(obj)
    {
      if ref >= 0 then InstanceOutcome(obj, failure)
      else if ref == NewDefinition then
        Then(DefinitionOutcome(failure),
             Then(Single(failure, WriteObjectBegin(obj.className)), InstanceOutcome(obj, failure)))
      else LegacyOutcome(obj, failure)
    }

    /** The serialize body of the writer bound to field i. */
    method SerializeField(i: nat, obj: Instance, out: Output) returns (e: Option<Exception>)
      requires Aligned() && Conforming(obj) && i < |fields|
      modifies out
      ensures out.trace == old(out.trace) + FieldOutcome(obj, i, out.failure).emitted
      ensures e == FieldOutcome(obj, i, out.failure).error
    {
      var c := Serialize(writers[i], obj.slots[fields[i]]);
      e := out.Perform(c);
      if e.Some? && writers[i].ObjectWriter? && Rewrapped(e.value) {
        e := Some(InField(e.value.Kind(), fields[i].declaringClass, fields[i].name, e.value));
      }
    }

    /** writeInstance: the field values in plan order. */
    method WriteInstance(obj: Instance, out: Output) returns (e: Option<Exception>)
      requires Aligned() && Conforming(obj)
      modifies out
      ensures out.trace == old(out.trace) + InstanceOutcome(obj, out.failure).emitted
      ensures e == InstanceOutcome(obj, out.failure).error
    {
      var fe: Option<Exception> := None;
      var i := 0;
      while i < |writers| && fe.None?
        invariant 0 <= i <= |writers|
        invariant fe == ValuesOutcome(obj, out.failure, i).error
        invariant out.trace == old(out.trace) + ValuesOutcome(obj, out.failure, i).emitted
      {
        fe := SerializeField(i, obj, out);
        i := i + 1;
      }
      if fe.Some? {
        ValuesFailureSticks(obj, out.failure, i, |fields|);
        e := Some(InstanceFailure(obj.className, fe.value));
      } else {
        e := None;
      }
    }

    /** writeDefinition20: the schema of the class. */
    method WriteDefinition20(out: Output) returns (e: Option<Exception>)
      modifies out
      ensures out.trace == old(out.trace) + DefinitionOutcome(out.failure).emitted
      ensures e == DefinitionOutcome(out.failure).error
    {
      ghost var t0 := out.trace;
      e := out.Perform(WriteClassFieldLength(|fields|));
      if e.Some? {
        assert out.trace == t0;
        return;
      }
      e := WriteNames(out);
      AppendAssoc(t0, [WriteClassFieldLength(|fields|)], NamesOutcome(out.failure, |fields|).emitted);
    }

    /** The loop of writeDefinition20: every field name in plan order, up to
        the first call that throws. */
    method WriteNames(out: Output) returns (e: Option<Exception>)
      modifies out
      ensures out.trace == old(out.trace) + NamesOutcome(out.failure, |fields|).emitted
      ensures e == NamesOutcome(out.failure, |fields|).error
    {
      e := None;
      var i := 0;
      while i < |fields| && e.None?
        invariant 0 <= i <= |fields|
        invariant e == NamesOutcome(out.failure, i).error
        invariant out.trace == old(out.trace) + NamesOutcome(out.failure, i).emitted
      {
        e := out.Perform(FieldName(i));
        i := i + 1;
      }
      if e.Some? {
        NamesFailureSticks(out.failure, i, |fields|);
      }
    }

    /** Once a field writer has failed, the later fields add nothing. */
    lemma {:induction false} ValuesFailureSticks(obj: Instance, failure: Faults, m: nat, n: nat)
      requires Aligned() && Conforming(obj) && m <= n <= |fields|
      requires ValuesOutcome(obj, failure, m).error.Some?
      ensures ValuesOutcome(obj, failure, n) == ValuesOutcome(obj, failure, m)
    {
      if n > m {
        ValuesFailureSticks(obj, failure, m, n - 1);
      }
    }

    /** Once a name has failed, the later names add nothing. */
    lemma {:induction false} NamesFailureSticks(failure: Faults, m: nat, n: nat)
      requires m <= n <= |fields|
      requires NamesOutcome(failure, m).error.Some?
      ensures NamesOutcome(failure, n) == NamesOutcome(failure, m)
    {
      if n > m {
        NamesFailureSticks(failure, m, n - 1);
      }
    }

    /** Once a pair has failed, the later pairs add nothing. */
    lemma {:induction false} PairsFailureSticks(obj: Instance, failure: Faults, m: nat, n: nat)
      requires Aligned() && Conforming(obj) && m <= n <= |fields|
      requires PairsOutcome(obj, failure, m).error.Some?
      ensures PairsOutcome(obj, failure, n) == PairsOutcome(obj, failure, m)
    {
      if n > m {
        PairsFailureSticks(obj, failure, m, n - 1);
      }
    }

    /** writeObject10: the legacy map form. */
    method WriteObject10(obj: Instance, out: Output) returns (e: Option<Exception>)
      requires Aligned() && Conforming(obj)
      modifies out
      ensures out.trace == old(out.trace) + LegacyOutcome(obj, out.failure).emitted
      ensures e == LegacyOutcome(obj, out.failure).error
    {
      e := WritePairs(obj, out);
      if e.Some? {
        return;
      }
      e := out.Perform(WriteMapEnd);
    }

    /** The loop of writeObject10: one (name, value) pair per field, in plan
        order, up to the first failure. */
    method WritePairs(obj: Instance, out: Output) returns (e: Option<Exception>)
      requires Aligned() && Conforming(obj)
      modifies out
      ensures out.trace == old(out.trace) + PairsOutcome(obj, out.failure, |fields|).emitted
      ensures e == PairsOutcome(obj, out.failure, |fields|).error
    {
      e := None;
      var i := 0;
      while i < |fields| && e.None?
        invariant 0 <= i <= |fields|
        invariant e == PairsOutcome(obj, out.failure, i).error
        invariant out.trace == old(out.trace) + PairsOutcome(obj, out.failure, i).emitted
      {
        e := WritePair(obj, i, out);
        i := i + 1;
      }
      if e.Some? {
        PairsFailureSticks(obj, out.failure, i, |fields|);
      }
    }

    /** One entry of the legacy map: the field name, then the field value. */
    method WritePair(obj: Instance, i: nat, out: Output) returns (e: Option<Exception>)
      requires Aligned() && Conforming(obj) && i < |fields|
      modifies out
      ensures out.trace == old(out.trace) + PairOutcome(obj, i, out.failure).emitted
      ensures e == PairOutcome(obj, i, out.failure).error
    {
      e := out.Perform(WriteString(Some(fields[i].name)));
      if e.Some? {
        return;
      }
      e := SerializeField(i, obj, out);
    }

    /** The new-definition branch of writeObject: the schema, writeObjectBegin
        again (now reporting a cached index), then the field values. */
    method WriteNewClass(obj: Instance, out: Output) returns (e: Option<Exception>)
      requires Aligned() && Conforming(obj)
      modifies out
      ensures out.trace == old(out.trace) + BodyOutcome(obj, NewDefinition, out.failure).emitted
      ensures e == BodyOutcome(obj, NewDefinition, out.failure).error
    {
      e := WriteDefinition20(out);
      if e.Some? {
        return;
      }
      e := WriteBeginAndInstance(obj, out);
    }

    /** The tail of the new-definition branch: writeObjectBegin once more
        (now answered with the cached index), then writeInstance. */
    method WriteBeginAndInstance(obj: Instance, out: Output) returns (e: Option<Exception>)
      requires Aligned() && Conforming(obj)
      modifies out
      ensures var o := Then(Single(out.failure, WriteObjectBegin(obj.className)), InstanceOutcome(obj, out.failure));
              out.trace == old(out.trace) + o.emitted && e == o.error
    {
      var ignored;
      ignored, e := out.ObjectBegin(obj.className);
      if e.Some? {
        return;
      }
      e := WriteInstance(obj, out);
    }

    /** What writeObject writes after writeObjectBegin, keyed on its result. */
    method WriteBody(obj: Instance, ref: int, out: Output) returns (e: Option<Exception>)
      requires Aligned() && Conforming(obj)
      modifies out
      ensures out.trace == old(out.trace) + BodyOutcome(obj, ref, out.failure).emitted
      ensures e == BodyOutcome(obj, ref, out.failure).error
    {
      if ref >= 0 {
        e := WriteInstance(obj, out);
      } else if ref == NewDefinition {
        e := WriteNewClass(obj, out);
      } else {
        e := WriteObject10(obj, out);
      }
    }

    /** writeObject: a back-reference if the object is known, otherwise the
        cached, new-definition or legacy form chosen by writeObjectBegin. */
    method WriteObject(obj: Instance, out: Output) returns (e: Option<Exception>)
      requires Aligned() && Conforming(obj)
      modifies out
      ensures var o := ObjectOutcome(obj, out.legacy, old(out.ClassDefs()), Obj(obj.id) in old(out.Refs().index), out.failure);
              out.trace == old(out.trace) + o.emitted && e == o.error
    {
      ghost var t0, defs := out.trace, out.ClassDefs();
      var known;
      known, e := out.AddRefTo(Obj(obj.id));
      if e.None? && !known {
        ghost var u := UnknownOutcome(obj, out.legacy, defs, out.failure);
        e := WriteUnknown(obj, out, defs);
        AppendAssoc(t0, [AddRef(Obj(obj.id))], u.emitted);
      }
    }

    /** The part of writeObject after addRef reported a new object; `defs`
        is the class-definition table of the stream at this point. */
    method WriteUnknown(obj: Instance, out: Output, ghost defs: seq<string>) returns (e: Option<Exception>)
      requires Aligned() && Conforming(obj)
      requires defs == out.ClassDefs()
      modifies out
      ensures var o := UnknownOutcome(obj, out.legacy, defs, out.failure);
              out.trace == old(out.trace) + o.emitted && e == o.error
    {
      var ref;
      ref, e := out.ObjectBegin(obj.className);
      if e.Some? {
        return;
      }
      ghost var t0 := old(out.trace);
      e := WriteBody(obj, ref, out);
      AppendAssoc(t0, [WriteObjectBegin(obj.className)], BodyOutcome(obj, ref, out.failure).emitted);
    }
  }

  lemma AppendAssoc(a: seq<Call>, b: seq<Call>, c: seq<Call>)
    ensures (a + b) + c == a + (b + c)
  {
  }

  // ---------------------------------------------------------------------------
  // Properties of the object write

  /** Once addRef reports the object as known, nothing else is written. */
  lemma KnownObjectWritesNothingMore(s: UnsafeSerializer, obj: Instance, legacy: bool, defs: seq<string>,
                                     failure: Faults)
    requires s.Aligned() && s.Conforming(obj)
    requires FaultOf(failure, AddRef(Obj(obj.id))).None?
    ensures s.ObjectOutcome(obj, legacy, defs, true, failure) == Outcome([AddRef(Obj(obj.id))], None)
  {
  }

  /** With no failure, a cached class writes only the field values, in plan order. */
  lemma CachedClassWritesValuesOnly(s: UnsafeSerializer, obj: Instance, defs: seq<string>,
                                    failure: Faults)
    requires s.Aligned() && s.Conforming(obj)
    requires obj.className in defs
    requires failure == map[]
    ensures s.ObjectOutcome(obj, false, defs, false, failure)
         == Outcome([AddRef(Obj(obj.id)), WriteObjectBegin(obj.className)] + s.InstanceCalls(obj), None)
  {
    ValuesWithoutFailure(s, obj, failure, |s.fields|);
  }

  /** With no field writer failing, the values are written in full. */
  lemma {:induction false} ValuesWithoutFailure(s: UnsafeSerializer, obj: Instance,
                                                failure: Faults, m: nat)
    requires s.Aligned() && s.Conforming(obj) && m <= |s.fields|
    requires forall j :: 0 <= j < m ==> FaultOf(failure, s.FieldValue(obj, j)).None?
    ensures s.ValuesOutcome(obj, failure, m) == Outcome(s.Values(obj, m), None)
  {
    if m > 0 {
      ValuesWithoutFailure(s, obj, failure, m - 1);
    }
  }

  /** With no failing name, the names are written in full. */
  lemma {:induction false} NamesWithoutFailure(s: UnsafeSerializer, failure: Faults, m: nat)
    requires m <= |s.fields|
    requires forall j :: 0 <= j < m ==> FaultOf(failure, s.FieldName(j)).None?
    ensures s.NamesOutcome(failure, m) == Outcome(s.Names(m), None)
  {
    if m > 0 {
      NamesWithoutFailure(s, failure, m - 1);
    }
  }

  /** With no failure, a first instance sends the schema, begins the object
      again, then writes the field values. */
  lemma NewClassSendsDefinitionFirst(s: UnsafeSerializer, obj: Instance, defs: seq<string>,
                                     failure: Faults)
    requires s.Aligned() && s.Conforming(obj)
    requires obj.className !in defs
    requires failure == map[]
    ensures (var begin := WriteObjectBegin(obj.className);
             s.ObjectOutcome(obj, false, defs, false, failure)
             == Outcome([AddRef(Obj(obj.id)), begin] + s.DefinitionCalls() + [begin] + s.InstanceCalls(obj), None))
  {
    ValuesWithoutFailure(s, obj, failure, |s.fields|);
    NamesWithoutFailure(s, failure, |s.fields|);
  }

  /** With no failure, a legacy stream gets the map form and no schema. */
  lemma LegacyWritesMapForm(s: UnsafeSerializer, obj: Instance, defs: seq<string>,
                            failure: Faults)
    requires s.Aligned() && s.Conforming(obj)
    requires failure == map[]
    ensures s.ObjectOutcome(obj, true, defs, false, failure)
         == Outcome([AddRef(Obj(obj.id)), WriteObjectBegin(obj.className)] + s.LegacyCalls(obj), None)
  {
    PairsWithoutFailure(s, obj, failure, |s.fields|);
  }

  /** With no failing name or value, the pairs are written in full. */
  lemma {:induction false} PairsWithoutFailure(s: UnsafeSerializer, obj: Instance,
                                               failure: Faults, m: nat)
    requires s.Aligned() && s.Conforming(obj) && m <= |s.fields|
    requires forall j :: 0 <= j < m ==>
               FaultOf(failure, s.FieldName(j)).None? && FaultOf(failure, s.FieldValue(obj, j)).None?
    ensures s.PairsOutcome(obj, failure, m) == Outcome(s.LegacyPairs(obj, m), None)
  {
    if m > 0 {
      PairsWithoutFailure(s, obj, failure, m - 1);
    }
  }

  lemma {:induction false} LegacyPairsAt(s: UnsafeSerializer, obj: Instance, m: nat)
    requires s.Aligned() && s.Conforming(obj) && m <= |s.fields|
    ensures forall i :: 0 <= i < m ==>
              s.LegacyPairs(obj, m)[2 * i] == s.FieldName(i)
              && s.LegacyPairs(obj, m)[2 * i + 1] == s.FieldValue(obj, i)
    ensures forall p :: 0 <= p < 2 * m ==>
              s.LegacyPairs(obj, m)[p] != WriteMapEnd && !s.LegacyPairs(obj, m)[p].WriteClassFieldLength?
  {
    if m > 0 {
      LegacyPairsAt(s, obj, m - 1);
      SerializeIsNotMapEnd(s.writers[m - 1], obj.slots[s.fields[m - 1]]);
      var prev, cur := s.LegacyPairs(obj, m - 1), s.LegacyPairs(obj, m);
      assert cur == prev + [s.FieldName(m - 1), s.FieldValue(obj, m - 1)];
      forall i | 0 <= i < m
        ensures cur[2 * i] == s.FieldName(i) && cur[2 * i + 1] == s.FieldValue(obj, i)
      {
        if i < m - 1 {
          assert cur[2 * i] == prev[2 * i] && cur[2 * i + 1] == prev[2 * i + 1];
        }
      }
      forall p | 0 <= p < 2 * m
        ensures cur[p] != WriteMapEnd && !cur[p].WriteClassFieldLength?
      {
        if p < 2 * (m - 1) {
          assert cur[p] == prev[p];
        }
      }
    }
  }

  /** The legacy form holds exactly one (name, value) pair per field in plan
      order, exactly one map end, at the end, and no schema. */
  lemma LegacyFormShape(s: UnsafeSerializer, obj: Instance)
    requires s.Aligned() && s.Conforming(obj)
    ensures var cs := s.LegacyCalls(obj);
            && (forall i :: 0 <= i < |s.fields| ==>
                  cs[2 * i] == WriteString(Some(s.fields[i].name))
                  && cs[2 * i + 1] == Serialize(s.writers[i], obj.slots[s.fields[i]]))
            && cs[|cs| - 1] == WriteMapEnd
            && (forall p :: 0 <= p < |cs| - 1 ==> cs[p] != WriteMapEnd)
            && (forall p :: 0 <= p < |cs| ==> !cs[p].WriteClassFieldLength?)
  {
    LegacyPairsAt(s, obj, |s.fields|);
  }

  lemma SerializeIsNotMapEnd(w: FieldWriter, raw: Raw)
    requires Fits(w, raw)
    ensures Serialize(w, raw) != WriteMapEnd && !Serialize(w, raw).WriteClassFieldLength?
  {
  }

  /** A failure leaves the object write with the same kind of throwable it
      started as: runtime failures stay runtime ones, I/O failures stay I/O ones. */
  lemma FailureKindPreserved(s: UnsafeSerializer, obj: Instance, legacy: bool, defs: seq<string>, known: bool,
                             failure: Faults)
    requires s.Aligned() && s.Conforming(obj)
    ensures var o := s.ObjectOutcome(obj, legacy, defs, known, failure);
            o.error.Some? ==>
              exists c :: FaultOf(failure, c).Some? && FaultOf(failure, c).value.Kind() == o.error.value.Kind()
  {
    PairsFailureKind(s, obj, failure, |s.fields|);
    ValuesFailureKind(s, obj, failure, |s.fields|);
    NamesFailureKind(s, failure, |s.fields|);
  }

  lemma {:induction false} ValuesFailureKind(s: UnsafeSerializer, obj: Instance,
                                             failure: Faults, m: nat)
    requires s.Aligned() && s.Conforming(obj) && m <= |s.fields|
    ensures var o := s.ValuesOutcome(obj, failure, m);
            o.error.Some? ==>
              exists c :: FaultOf(failure, c).Some? && FaultOf(failure, c).value.Kind() == o.error.value.Kind()
  {
    if m > 0 {
      ValuesFailureKind(s, obj, failure, m - 1);
      var c := s.FieldValue(obj, m - 1);
      if FaultOf(failure, c).Some? {
        assert FaultOf(failure, c).value.Kind() == FieldFailure(s.writers[m - 1], s.fields[m - 1], FaultOf(failure, c).value).Kind();
      }
    }
  }

  lemma {:induction false} NamesFailureKind(s: UnsafeSerializer, failure: Faults, m: nat)
    requires m <= |s.fields|
    ensures var o := s.NamesOutcome(failure, m);
            o.error.Some? ==>
              exists c :: FaultOf(failure, c).Some? && FaultOf(failure, c).value.Kind() == o.error.value.Kind()
  {
    if m > 0 {
      NamesFailureKind(s, failure, m - 1);
      var c := s.FieldName(m - 1);
      if FaultOf(failure, c).Some? {
        assert FaultOf(failure, c).value.Kind() == FaultOf(failure, c).value.Kind();
      }
    }
  }

  lemma {:induction false} PairsFailureKind(s: UnsafeSerializer, obj: Instance,
                                            failure: Faults, m: nat)
    requires s.Aligned() && s.Conforming(obj) && m <= |s.fields|
    ensures var o := s.PairsOutcome(obj, failure, m);
            o.error.Some? ==>
              exists c :: FaultOf(failure, c).Some? && FaultOf(failure, c).value.Kind() == o.error.value.Kind()
  {
    if m > 0 {
      PairsFailureKind(s, obj, failure, m - 1);
      var c := s.FieldValue(obj, m - 1);
      if FaultOf(failure, c).Some? {
        assert FaultOf(failure, c).value.Kind() == FieldFailure(s.writers[m - 1], s.fields[m - 1], FaultOf(failure, c).value).Kind();
      }
    }
  }

  /** How writeInstance reports the failure `e` of the writer `w` of field f:
      a runtime or I/O failure of an object field names the field and then
      the object's class; one of any other field names the class only; any
      other throwable passes unchanged. */
  ghost predicate ReportedByInstance(r: Exception, className: string, w: FieldWriter, f: FieldDecl, e: Exception)
  {
    if !Rewrapped(e) then r == e
    else if w == ObjectWriter then r == InClass(e.Kind(), className, InField(e.Kind(), f.declaringClass, f.name, e))
    else r == InClass(e.Kind(), className, e)
  }

  /** How the legacy form reports the same failure: writeObject10 has no
      catch, so only the object field's own context is attached. */
  ghost predicate ReportedByLegacy(r: Exception, w: FieldWriter, f: FieldDecl, e: Exception)
  {
    if Rewrapped(e) && w == ObjectWriter then r == InField(e.Kind(), f.declaringClass, f.name, e) else r == e
  }

  /** When the write of field i is the first value write to throw, the values
      before it are written and nothing after it. */
  lemma ValuesFirstFailure(s: UnsafeSerializer, obj: Instance, failure: Faults, i: nat, e: Exception)
    requires s.Aligned() && s.Conforming(obj) && i < |s.fields|
    requires forall j :: 0 <= j < i ==> FaultOf(failure, s.FieldValue(obj, j)).None?
    requires FaultOf(failure, s.FieldValue(obj, i)) == Some(e)
    ensures s.ValuesOutcome(obj, failure, |s.fields|)
         == Outcome(s.Values(obj, i), Some(FieldFailure(s.writers[i], s.fields[i], e)))
  {
    ValuesWithoutFailure(s, obj, failure, i);
    s.ValuesFailureSticks(obj, failure, i + 1, |s.fields|);
  }

  /** writeInstance reports the first failing field write with the context
      of ReportedByInstance, after writing the values before it. */
  lemma InstanceFieldFailure(s: UnsafeSerializer, obj: Instance, failure: Faults, i: nat, e: Exception)
    requires s.Aligned() && s.Conforming(obj) && i < |s.fields|
    requires forall j :: 0 <= j < i ==> FaultOf(failure, s.FieldValue(obj, j)).None?
    requires FaultOf(failure, s.FieldValue(obj, i)) == Some(e)
    ensures var o := s.InstanceOutcome(obj, failure);
            o.emitted == s.Values(obj, i)
            && o.error.Some? && ReportedByInstance(o.error.value, obj.className, s.writers[i], s.fields[i], e)
  {
    ValuesFirstFailure(s, obj, failure, i, e);
  }

  /** In the cached form, a failure of field i's write after every earlier
      call of the object succeeded leaves writeObject with the context of
      ReportedByInstance: for an object field, "field: <declaring class>.<name>"
      and then "class: <class>". */
  lemma ObjectFieldFailureContext(s: UnsafeSerializer, obj: Instance, defs: seq<string>,
                                  failure: Faults, i: nat, e: Exception)
    requires s.Aligned() && s.Conforming(obj) && i < |s.fields|
    requires obj.className in defs
    requires FaultOf(failure, AddRef(Obj(obj.id))).None? && FaultOf(failure, WriteObjectBegin(obj.className)).None?
    requires forall j :: 0 <= j < i ==> FaultOf(failure, s.FieldValue(obj, j)).None?
    requires FaultOf(failure, s.FieldValue(obj, i)) == Some(e)
    ensures var o := s.ObjectOutcome(obj, false, defs, false, failure);
            o.emitted == [AddRef(Obj(obj.id)), WriteObjectBegin(obj.className)] + s.Values(obj, i)
            && o.error.Some? && ReportedByInstance(o.error.value, obj.className, s.writers[i], s.fields[i], e)
  {
    InstanceFieldFailure(s, obj, failure, i, e);
  }

  /** The same for the first instance of a class: the schema and the second
      writeObjectBegin come before the values, and the failure carries the
      same context. */
  lemma NewClassFieldFailureContext(s: UnsafeSerializer, obj: Instance, defs: seq<string>,
                                    failure: Faults, i: nat, e: Exception)
    requires s.Aligned() && s.Conforming(obj) && i < |s.fields|
    requires obj.className !in defs
    requires FaultOf(failure, AddRef(Obj(obj.id))).None? && FaultOf(failure, WriteObjectBegin(obj.className)).None?
    requires FaultOf(failure, WriteClassFieldLength(|s.fields|)).None?
    requires forall j :: 0 <= j < |s.fields| ==> FaultOf(failure, s.FieldName(j)).None?
    requires forall j :: 0 <= j < i ==> FaultOf(failure, s.FieldValue(obj, j)).None?
    requires FaultOf(failure, s.FieldValue(obj, i)) == Some(e)
    ensures var o := s.ObjectOutcome(obj, false, defs, false, failure);
            var begin := WriteObjectBegin(obj.className);
            o.emitted == [AddRef(Obj(obj.id)), begin] + s.DefinitionCalls() + [begin] + s.Values(obj, i)
            && o.error.Some? && ReportedByInstance(o.error.value, obj.className, s.writers[i], s.fields[i], e)
  {
    NamesWithoutFailure(s, failure, |s.fields|);
    InstanceFieldFailure(s, obj, failure, i, e);
  }

  /** On a legacy stream the pairs before field i and field i's name are
      written, and the failure of its value carries the field's context only:
      there is no class context. */
  lemma LegacyFieldFailureContext(s: UnsafeSerializer, obj: Instance, defs: seq<string>,
                                  failure: Faults, i: nat, e: Exception)
    requires s.Aligned() && s.Conforming(obj) && i < |s.fields|
    requires FaultOf(failure, AddRef(Obj(obj.id))).None? && FaultOf(failure, WriteObjectBegin(obj.className)).None?
    requires forall j :: 0 <= j < i ==>
               FaultOf(failure, s.FieldName(j)).None? && FaultOf(failure, s.FieldValue(obj, j)).None?
    requires FaultOf(failure, s.FieldName(i)).None?
    requires FaultOf(failure, s.FieldValue(obj, i)) == Some(e)
    ensures var o := s.ObjectOutcome(obj, true, defs, false, failure);
            o.emitted == [AddRef(Obj(obj.id)), WriteObjectBegin(obj.className)] + s.LegacyPairs(obj, i) + [s.FieldName(i)]
            && o.error.Some? && ReportedByLegacy(o.error.value, s.writers[i], s.fields[i], e)
  {
    PairsFirstFailure(s, obj, failure, i, e);
  }

  /** When the value of field i is the first call of the pairs to throw, the
      pairs before it and its name are written, and nothing after them. */
  lemma PairsFirstFailure(s: UnsafeSerializer, obj: Instance, failure: Faults, i: nat, e: Exception)
    requires s.Aligned() && s.Conforming(obj) && i < |s.fields|
    requires forall j :: 0 <= j < i ==>
               FaultOf(failure, s.FieldName(j)).None? && FaultOf(failure, s.FieldValue(obj, j)).None?
    requires FaultOf(failure, s.FieldName(i)).None?
    requires FaultOf(failure, s.FieldValue(obj, i)) == Some(e)
    ensures s.PairsOutcome(obj, failure, |s.fields|)
         == Outcome(s.LegacyPairs(obj, i) + [s.FieldName(i)], Some(FieldFailure(s.writers[i], s.fields[i], e)))
  {
    PairsWithoutFailure(s, obj, failure, i);
    s.PairsFailureSticks(obj, failure, i + 1, |s.fields|);
  }

  // ---------------------------------------------------------------------------
  // The serializer cache (create)

  class SerializerCache {
    var entries: map<ClassDesc, UnsafeSerializer>

    /** Every cached serializer carries the plan of the class it is stored under. */
    ghost predicate Valid()
      reads this
    {
      forall cl | cl in entries ::
        entries[cl].Valid() && entries[cl].fields == Plan(cl) && entries[cl].unshared == cl.unshared
    }

    constructor ()
      ensures Valid() && entries == map[]
    {
      entries := map[];
    }

    /** The garbage collector clears the soft reference held for `cl`. */
    method Evict(cl: ClassDesc)
      requires Valid()
      modifies this
      ensures Valid() && entries == old(entries) - {cl}
    {
      entries := entries - {cl};
    }

    /** create: the cached serializer while its entry lives; otherwise a new one,
        the unshared variant iff the class carries @HessianUnshared, stored
        under the class. */
    method Create(cl: ClassDesc) returns (r: Result<UnsafeSerializer, Exception>)
      requires Valid()
      modifies this
      ensures Valid()
      ensures cl in old(entries) ==> r == Ok(old(entries)[cl]) && entries == old(entries)
      ensures cl !in old(entries) ==>
                (r.Ok? <==> forall f | f in Plan(cl) :: f.offsetValid)
                && (r.Ok? ==> fresh(r.value) && r.value.Valid() && r.value.fields == Plan(cl)
                              && r.value.unshared == cl.unshared && entries == old(entries)[cl := r.value])
                && (r.Err? ==> r.error == InvalidOffset && entries == old(entries))
    {
      if cl in entries {
        return Ok(entries[cl]);
      }
      var plan := Introspect(cl);
      if plan.Err? {
        return Err(plan.error);
      }
      var base := new UnsafeSerializer(plan.value.0, plan.value.1, cl.unshared);
      entries := entries[cl := base];
      return Ok(base);
    }
  }
}
