/** Java classes as plain data: what the serializers learn from reflection
    (declared fields, declared methods, the superclass chain). */
module ClassModel {
  import opened Wire

  /** The declared type of a field: a primitive type or a reference type,
      the latter known by its fully qualified name. */
  datatype FieldType =
    | Boolean | Byte | Char | Short | Int | Long | Float | Double
    | Reference(typeName: string)

  /** A declared field.  `offsetValid` says whether the raw field-offset lookup
      succeeds for it. */
  datatype FieldDecl = FieldDecl(
    declaringClass: string,
    name: string,
    ftype: FieldType,
    isTransient: bool,
    isStatic: bool,
    offsetValid: bool)

  /** A declared method: its name and the names of its parameter types. */
  datatype MethodDecl = MethodDecl(name: string, params: seq<string>)

  /** A class: its name, its declared fields and methods in declaration order,
      its superclass (None for the root), and whether it carries @HessianUnshared. */
  datatype ClassDesc = ClassDesc(
    name: string,
    fields: seq<FieldDecl>,
    methods: seq<MethodDecl>,
    superclass: Option<ClassDesc>,
    unshared: bool)

  /** The classes visited walking up from `c` (itself included) through its
      superclasses; None stands for the end of the chain. */
  function ChainFrom(c: Option<ClassDesc>): (chain: seq<ClassDesc>)
    ensures c.None? <==> chain == []
    ensures c.Some? ==> chain[0] == c.value
  {
    match c
    case None => []
    case Some(k) => [k] + ChainFrom(k.superclass)
  }

  /** The number of classes left to visit from `c`. */
  function Depth(c: Option<ClassDesc>): nat
  {
    |ChainFrom(c)|
  }

  /** The declared fields of every class of the chain, most-derived class first,
      each class's fields in declaration order. */
  function AllFieldsFrom(c: Option<ClassDesc>): seq<FieldDecl>
  {
    match c
    case None => []
    case Some(k) => k.fields + AllFieldsFrom(k.superclass)
  }

  /** The declared fields of `cl` and of all its superclasses. */
  function AllFields(cl: ClassDesc): seq<FieldDecl>
  {
    AllFieldsFrom(Some(cl))
  }

}
