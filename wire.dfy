/** Values, exceptions, output calls and input tokens shared by every component
    of the Hessian object serialization core.  The byte-level wire grammar of the
    codec is not part of this model: a call on the output stream and a token of
    the input stream stand for a complete wire primitive. */
module Wire {

  datatype Option<+T> = None | Some(value: T)

  datatype Result<+T, +E> = Ok(value: T) | Err(error: E)

  type ObjId = nat

  type Byte = b: int | 0 <= b < 256

  /** A Java reference value as the serializer sees it: null, a string, a date
      (its millisecond value comes from the environment) or any other object,
      known only by its identity. */
  datatype Ref = Null | Str(s: string) | Date(millis: int) | Obj(id: ObjId)

  /** A floating-point payload.  Float-to-double widening is not modelled:
      the payload records which Java type the value came from. */
  datatype FloatPayload = FromFloat(bits32: nat) | FromDouble(bits64: nat)

  /** The compressed form of a byte sequence; DEFLATE itself is not modelled. */
  datatype Deflated = Deflated(plain: seq<Byte>)

  /** The classes of Java throwables the core distinguishes. */
  datatype ExcKind = RuntimeError | IOError | CheckedError | JavaError

  /** A throwable, with the context the core attaches when it rethrows. */
  datatype Exception =
    | Raised(kind: ExcKind, tag: nat)
      // thrown by a collaborator; `tag` tells independent failures apart
    | InField(wrapKind: ExcKind, declaringClass: string, fieldName: string, cause: Exception)
      // rethrown with "field: <declaringClass>.<fieldName>" appended
    | InClass(wrapKind: ExcKind, className: string, cause: Exception)
      // rethrown with "class: <className>" appended
    | RuntimeOf(cause: Exception)
      // new RuntimeException(cause)
    | IOExceptionOf(text: string)
      // new IOException(text)
  {
    function Kind(): ExcKind
    {
      match this
      case Raised(k, _) => k
      case InField(k, _, _, _) => k
      case InClass(k, _, _) => k
      case RuntimeOf(_) => RuntimeError
      case IOExceptionOf(_) => IOError
    }
  }

  /** One call made on the output stream (AbstractHessianOutput). */
  datatype Call =
    | AddRef(obj: Ref)
    | WriteObjectBegin(typeName: string)
    | WriteClassFieldLength(n: nat)
    | WriteBoolean(b: bool)
    | WriteInt(i: int)
    | WriteLong(l: int)
    | WriteDouble(d: FloatPayload)
    | WriteString(s: Option<string>)
    | WriteNull
    | WriteUTCDate(millis: int)
    | WriteObject(v: Ref)
    | WriteMapEnd
    | WriteRef(index: nat)
    | ReplaceRef(oldRef: Ref, newRef: Ref)
    | WriteWithBase(obj: Ref)
      // the wrapped base serializer writes `obj` to this stream
    | StartEnvelope(envelopeMethod: string)
    | BodyWrite(chunk: Deflated)
    | BodyClose
    | CompleteEnvelope
    | Close

  /** The value payload of a token of the input stream. */
  datatype Value =
    | VNull
    | VString(s: string)
    | VInt(i: int)
    | VParamInfos(params: seq<ParamInfo>)
    | VStrings(strs: seq<Option<string>>)
    | VObject(id: ObjId)

  datatype ParamInfo = ParamInfo(name: Option<string>, typeName: Option<string>, description: Option<string>)

  /** One token of the input stream (AbstractHessianInput); a value token is
      one complete value for readObject. */
  datatype Token =
    | TString(s: Option<string>)
    | TInt(i: int)
    | TValue(v: Value)
    | TEnd
    | TEnvelope(version: int)
    | TMethod(name: string)
    | TBody(chunk: Deflated)

  /** The calls the environment makes fail, each with the throwable it raises. */
  type Faults = map<Call, Exception>

  function FaultOf(faults: Faults, c: Call): (r: Option<Exception>)
    ensures r.Some? <==> c in faults
  {
    if c in faults then Some(faults[c]) else None
  }

  /** The failure a reader reports when the token at the cursor is not the one expected. */
  const UnexpectedToken: Exception := Raised(IOError, 0)

  /** ClassCastException, from a cast of a value read to an array type it does not have. */
  const CastFailure: Exception := Raised(RuntimeError, 3)

  /** What a foreign constructor does: it builds an object (known by its
      identity) or throws an exception whose String.valueOf is `text`. */
  datatype Construction = Built(info: ObjId) | Failed(text: string)
}
