# Hessian object writing, envelopes and small decoders

This project models part of the Hessian serialization library (the Caucho
Hessian 2.0 implementation as packaged by viant/hessian-sm):

- `UnsafeSerializer`. It builds the per-class field plan by walking the
  superclass chain. It binds a typed writer to every field. It writes an
  object in one of three forms chosen by `writeObjectBegin`:
  - a cached class definition, as in section 4.10 of the Hessian 2.0
    Serialization Protocol;
  - a new definition followed by the instance;
  - the Hessian 1.0 map form.

  It also keeps the process-wide serializer cache.
- `WriteReplaceSerializer`. It finds the `writeReplace` hook by a first-match
  search up the class chain and derives the companion serializer class. It
  writes the hook's replacement and moves the object's reference onto it
  (value reference maps, section 5.1 of the same protocol).
- `Deflation`. It frames a compressed body in an envelope: a start, a
  zero header count, the body, a zero footer count and the completion.
  Reading checks all of these. Both streams close only once.
- `IteratorDeserializer`, `MBeanOperationInfoDeserializer` and
  `MBeanNotificationInfoDeserializer`. These read a list, or a keyed map,
  up to the end marker.
- `HessianServlet.LogWriter`. It collects characters and sends each
  completed line to the logger.

The output stream is not modelled as bytes. It is an object (`HessianOutput.Output`) that
records the calls made on it (`trace`). Its reference table and
its class-definition table are functions of that trace. A `failure` map,
fixed for the stream, says which calls throw and with what; it is keyed by
the call itself, not by when the call is made. A call that
throws is not recorded, so every write is stated as "these calls, in this
order, up to the first that throws, with that throwable".

The input stream is a sequence of tokens read through a cursor
(`HessianInput.Input`). Every read is logged. A read that finds the wrong
kind of token throws and does not move the cursor.

Classes are plain data (`ClassModel`). Reflection's answers are given as
data: declared fields, declared methods and the superclass. Field contents
are a map from field to raw value.

The other parts of the environment the source relies on are parameters:
- the hook's `Method.invoke` (`invoke`);
- the class loader (`loader`);
- the `MBean*Info` constructors (`construct`).

Modules, one per file:
- `Wire` (wire.dfy): shared value, token, call and exception types.
- `HessianOutput` (output.dfy): the output interface.
- `HessianInput` (input.dfy): the input interface.
- `ClassModel` (classes.dfy): classes as data.
- `ObjectSerializer` (object_serializer.dfy).
- `WriteReplace` (write_replace.dfy).
- `Deflation` (deflation.dfy).
- `IteratorDecoding` (iterator_deserializer.dfy).
- `OperationInfoDecoding` (mbean_operation_info.dfy).
- `NotificationInfoDecoding` (mbean_notification_info.dfy).
- `LogWriting` (log_writer.dfy).

## Model

| member | source | states |
|---|---|---|
| ClassModel.ChainFrom | src/main/java/com/caucho/hessian/io/UnsafeSerializer.java:92 | the walk visits the class itself first, then its superclasses, and visits nothing from no class |
| ObjectSerializer.Plan | src/main/java/com/caucho/hessian/io/UnsafeSerializer.java:113-118 | the field plan, the primitive-like group followed by the compound group; its contract is carried by PlanMembers, PlanIsPermutationOfKept, PlanPrimitivesFirst and PlanOrder |
| ObjectSerializer.GroupMembers | src/main/java/com/caucho/hessian/io/UnsafeSerializer.java:92-109 | a field is kept iff it is neither transient nor static; it goes to the primitive group iff it is kept and its type is primitive or a `java.lang.` class other than `Object`, and to the compound group iff it is kept and is not primitive-like |
| ObjectSerializer.PlanMembers | src/main/java/com/caucho/hessian/io/UnsafeSerializer.java:92-118 | the plan holds exactly the fields of the class and of every superclass that are neither transient nor static |
| ObjectSerializer.SplitIsPermutation | src/main/java/com/caucho/hessian/io/UnsafeSerializer.java:104-118 | the two groups together contain the kept fields, each exactly as often as it occurs there |
| ObjectSerializer.PlanIsPermutationOfKept | src/main/java/com/caucho/hessian/io/UnsafeSerializer.java:92-118 | the plan is a permutation of the kept fields of the whole chain |
| ObjectSerializer.PlanPrimitivesFirst | src/main/java/com/caucho/hessian/io/UnsafeSerializer.java:113-118 | every primitive-like field of the plan comes before every compound one |
| ObjectSerializer.PlanOrder | src/main/java/com/caucho/hessian/io/UnsafeSerializer.java:92-118 | the plan is the own primitive-like fields, then the ancestors', then the own compound fields, then the ancestors'; declared order is kept within each class |
| ObjectSerializer.PrimitivesAppend | src/main/java/com/caucho/hessian/io/UnsafeSerializer.java:92-111 | classifying two runs of fields one after the other gives the primitive groups of each, concatenated |
| ObjectSerializer.CompoundsAppend | src/main/java/com/caucho/hessian/io/UnsafeSerializer.java:92-111 | likewise for the compound groups |
| ObjectSerializer.SortDeclared | src/main/java/com/caucho/hessian/io/UnsafeSerializer.java:95-110 | the loop over one class's declared fields appends its kept primitive-like fields to one list and its kept compound fields to the other, in declared order |
| ObjectSerializer.WalkPrimitives | src/main/java/com/caucho/hessian/io/UnsafeSerializer.java:92-111 | one step of the superclass walk keeps the primitive list equal to what the whole chain contributes |
| ObjectSerializer.WalkCompounds | src/main/java/com/caucho/hessian/io/UnsafeSerializer.java:92-111 | one step of the superclass walk keeps the compound list equal to what the whole chain contributes |
| ObjectSerializer.GatherFields | src/main/java/com/caucho/hessian/io/UnsafeSerializer.java:92-111 | the walk from the class to the root leaves the primitive and compound groups of all fields of the chain |
| ObjectSerializer.BindWriters | src/main/java/com/caucho/hessian/io/UnsafeSerializer.java:120-124 | one writer per field, entry i chosen by field i's declared type; fails with the invalid-offset error iff some field's raw offset is invalid |
| ObjectSerializer.Introspect | src/main/java/com/caucho/hessian/io/UnsafeSerializer.java:87-125 | succeeds iff every planned field has a valid offset; the fields are the plan and the writers are aligned with them by declared type |
| ObjectSerializer.WriterFor | src/main/java/com/caucho/hessian/io/UnsafeSerializer.java:201-240 | the string writer iff the declared type is `String`, the date writer iff it is one of the four date classes, the object writer iff it is any other reference type; primitive types get their own writers (the per-type table is FieldWriteByDeclaredType) |
| ObjectSerializer.Serialize | src/main/java/com/caucho/hessian/io/UnsafeSerializer.java:261-506 | the one call each field writer makes; its contract is carried by FieldWriteByDeclaredType (the call per declared type) and SerializeIsNotMapEnd |
| ObjectSerializer.FieldWriteByDeclaredType | src/main/java/com/caucho/hessian/io/UnsafeSerializer.java:201-506 | what each declared type writes: boolean→writeBoolean; byte, short and int→writeInt; long→writeLong; char→writeString of one character; float and double→writeDouble; String→writeString, with null kept; the date classes→writeNull or writeUTCDate(millis); any other reference→writeObject |
| ObjectSerializer.BoxedTypesUseWriteObject | src/main/java/com/caucho/hessian/io/UnsafeSerializer.java:104-109 | boxed `java.lang` types are primitive-like for ordering (all but `Object`) yet are written by the object writer |
| ObjectSerializer.SerializeIsNotMapEnd | src/main/java/com/caucho/hessian/io/UnsafeSerializer.java:261-506 | no field writer emits a map end or a field count |
| ObjectSerializer.FieldFailure | src/main/java/com/caucho/hessian/io/UnsafeSerializer.java:268-278 | the object field writer's rethrow keeps the kind of the throwable (runtime stays runtime, I/O stays I/O) |
| ObjectSerializer.InstanceFailure | src/main/java/com/caucho/hessian/io/UnsafeSerializer.java:188-197 | writeInstance's rethrow keeps the kind of the throwable |
| ObjectSerializer.UnsafeSerializer.constructor | src/main/java/com/caucho/hessian/io/UnsafeSerializer.java:58-61 | a serializer holds the fields and writers that introspection produced, aligned by declared type, and whether it is the unshared variant |
| ObjectSerializer.UnsafeSerializer.Values | src/main/java/com/caucho/hessian/io/UnsafeSerializer.java:183-187 | one value call per field visited |
| ObjectSerializer.UnsafeSerializer.Names | src/main/java/com/caucho/hessian/io/UnsafeSerializer.java:172-175 | one name call per field visited |
| ObjectSerializer.UnsafeSerializer.LegacyPairs | src/main/java/com/caucho/hessian/io/UnsafeSerializer.java:157-161 | two calls, a name and a value, per field visited |
| ObjectSerializer.UnsafeSerializer.SerializeField | src/main/java/com/caucho/hessian/io/UnsafeSerializer.java:261-506 | the bound writer makes one call for the field's raw value, and a failure leaves with the field's context |
| ObjectSerializer.UnsafeSerializer.WriteInstance | src/main/java/com/caucho/hessian/io/UnsafeSerializer.java:178-199 | the field values in plan order up to the first failure, which leaves with the object's class attached |
| ObjectSerializer.UnsafeSerializer.WriteDefinition20 | src/main/java/com/caucho/hessian/io/UnsafeSerializer.java:166-176 | the field count, then every field name in plan order, up to the first failure |
| ObjectSerializer.UnsafeSerializer.WriteNames | src/main/java/com/caucho/hessian/io/UnsafeSerializer.java:171-175 | every field name in plan order, stopping at the first call that throws; nothing is written after it |
| ObjectSerializer.UnsafeSerializer.WriteObject10 | src/main/java/com/caucho/hessian/io/UnsafeSerializer.java:152-164 | a (name, value) pair per field in plan order, then the map end, up to the first failure |
| ObjectSerializer.UnsafeSerializer.WritePairs | src/main/java/com/caucho/hessian/io/UnsafeSerializer.java:155-161 | one (name, value) pair per field in plan order; once a pair fails, the later pairs write nothing |
| ObjectSerializer.UnsafeSerializer.WritePair | src/main/java/com/caucho/hessian/io/UnsafeSerializer.java:155-161 | a field's name, then its value |
| ObjectSerializer.UnsafeSerializer.WriteNewClass | src/main/java/com/caucho/hessian/io/UnsafeSerializer.java:142-146 | the schema, a second writeObjectBegin, then the instance |
| ObjectSerializer.UnsafeSerializer.WriteBeginAndInstance | src/main/java/com/caucho/hessian/io/UnsafeSerializer.java:144-145 | the second writeObjectBegin, then the instance unless that call throws |
| ObjectSerializer.UnsafeSerializer.WriteBody | src/main/java/com/caucho/hessian/io/UnsafeSerializer.java:137-149 | what follows writeObjectBegin is selected by its result: `>= 0` the values, `-1` a new definition, below that the legacy map form |
| ObjectSerializer.UnsafeSerializer.WriteUnknown | src/main/java/com/caucho/hessian/io/UnsafeSerializer.java:135-149 | writeObjectBegin, then the form it selects |
| ObjectSerializer.UnsafeSerializer.WriteObject | src/main/java/com/caucho/hessian/io/UnsafeSerializer.java:127-150 | addRef first; a known object gets nothing more; otherwise the form that the stream's legacy flag and its sent class definitions select |
| ObjectSerializer.UnsafeSerializer.ValuesFailureSticks | src/main/java/com/caucho/hessian/io/UnsafeSerializer.java:183-197 | after a field writer throws, no later field is written |
| ObjectSerializer.UnsafeSerializer.NamesFailureSticks | src/main/java/com/caucho/hessian/io/UnsafeSerializer.java:172-175 | after a name write throws, no later name is written |
| ObjectSerializer.UnsafeSerializer.PairsFailureSticks | src/main/java/com/caucho/hessian/io/UnsafeSerializer.java:157-161 | after a pair write throws, no later pair is written |
| ObjectSerializer.KnownObjectWritesNothingMore | src/main/java/com/caucho/hessian/io/UnsafeSerializer.java:131-133 | if addRef reports the object as known, the only call is that addRef |
| ObjectSerializer.CachedClassWritesValuesOnly | src/main/java/com/caucho/hessian/io/UnsafeSerializer.java:137-140 | a class whose definition was sent gets writeObjectBegin and then only the n values in plan order |
| ObjectSerializer.NewClassSendsDefinitionFirst | src/main/java/com/caucho/hessian/io/UnsafeSerializer.java:137-146 | a new class gets writeObjectBegin, the field count and the n names, writeObjectBegin again, then the n values |
| ObjectSerializer.LegacyWritesMapForm | src/main/java/com/caucho/hessian/io/UnsafeSerializer.java:147-149 | a legacy stream gets writeObjectBegin, then the map form, and no schema |
| ObjectSerializer.ValuesWithoutFailure | src/main/java/com/caucho/hessian/io/UnsafeSerializer.java:183-187 | when no value write throws, every value is written |
| ObjectSerializer.NamesWithoutFailure | src/main/java/com/caucho/hessian/io/UnsafeSerializer.java:172-175 | when nothing throws, every name is written |
| ObjectSerializer.PairsWithoutFailure | src/main/java/com/caucho/hessian/io/UnsafeSerializer.java:157-161 | when nothing throws, every pair is written |
| ObjectSerializer.LegacyPairsAt | src/main/java/com/caucho/hessian/io/UnsafeSerializer.java:157-161 | call 2i is field i's name and call 2i+1 is its value; none of them is a map end or a field count |
| ObjectSerializer.LegacyFormShape | src/main/java/com/caucho/hessian/io/UnsafeSerializer.java:152-164 | exactly one (writeString(name), value) pair per field in plan order, followed by exactly one map end, and no field count |
| ObjectSerializer.FailureKindPreserved | src/main/java/com/caucho/hessian/io/UnsafeSerializer.java:188-198 | a throwable leaving writeObject has the kind of a throwable raised by some call on the stream |
| ObjectSerializer.ValuesFailureKind | src/main/java/com/caucho/hessian/io/UnsafeSerializer.java:183-197 | the same for the value writes |
| ObjectSerializer.NamesFailureKind | src/main/java/com/caucho/hessian/io/UnsafeSerializer.java:166-176 | the same for the schema |
| ObjectSerializer.PairsFailureKind | src/main/java/com/caucho/hessian/io/UnsafeSerializer.java:152-164 | the same for the legacy form |
| ObjectSerializer.ValuesFirstFailure | src/main/java/com/caucho/hessian/io/UnsafeSerializer.java:183-187 | when field i's write is the first value write to throw, the earlier values are written, nothing after them, and the failure is field i's writer's |
| ObjectSerializer.InstanceFieldFailure | src/main/java/com/caucho/hessian/io/UnsafeSerializer.java:181-198 | writeInstance reports the first failing field write after the earlier values: a runtime or I/O failure of an object field with "field: declaring class.name" and then "class: class" (lines 188-197, 268-278), one of another field with the class only, and any other throwable unchanged |
| ObjectSerializer.ObjectFieldFailureContext | src/main/java/com/caucho/hessian/io/UnsafeSerializer.java:128-139 | in the cached form, for any throwable of field i's write after every earlier call succeeded: addRef, writeObjectBegin and the earlier values are emitted and the failure carries the field and class context of writeInstance |
| ObjectSerializer.NewClassFieldFailureContext | src/main/java/com/caucho/hessian/io/UnsafeSerializer.java:140-145 | the same in the new-definition form, after the schema and the second writeObjectBegin |
| ObjectSerializer.LegacyFieldFailureContext | src/main/java/com/caucho/hessian/io/UnsafeSerializer.java:152-164 | in the legacy form the earlier pairs and field i's name are emitted, and the failure carries only the object field's context, with no class context, since writeObject10 has no catch |
| ObjectSerializer.SerializerCache.constructor | src/main/java/com/caucho/hessian/io/UnsafeSerializer.java:63-85 | the cache starts empty |
| ObjectSerializer.SerializerCache.Evict | src/main/java/com/caucho/hessian/io/UnsafeSerializer.java:67-71 | a cleared soft reference removes exactly that class's entry |
| ObjectSerializer.SerializerCache.Create | src/main/java/com/caucho/hessian/io/UnsafeSerializer.java:63-85 | a live entry is returned unchanged; otherwise a new serializer with the class's plan, unshared iff the class is `@HessianUnshared`, is stored under the class; introspection failure stores nothing |
| WriteReplace.MatchIn | src/main/java/com/caucho/hessian/io/WriteReplaceSerializer.java:84-90 | a match is a position within the declared methods |
| WriteReplace.MatchInFirst | src/main/java/com/caucho/hessian/io/WriteReplaceSerializer.java:84-90 | the position found is the first matching `writeReplace`; none is found iff none matches |
| WriteReplace.Lookup | src/main/java/com/caucho/hessian/io/WriteReplaceSerializer.java:81-113 | the hook found matches what was looked for (no parameter, or exactly the given parameter class); which hook is found is stated by LookupIsNearest and LookupNone |
| WriteReplace.LookupIsNearest | src/main/java/com/caucho/hessian/io/WriteReplaceSerializer.java:98-113 | the hook comes from the first class of the chain that declares a match, and is that class's first match |
| WriteReplace.LookupNone | src/main/java/com/caucho/hessian/io/WriteReplaceSerializer.java:98-113 | no hook iff no class of the chain declares a match |
| WriteReplace.FindDeclared | src/main/java/com/caucho/hessian/io/WriteReplaceSerializer.java:84-90 | the loop over one class's declared methods finds the first match |
| WriteReplace.MatchFromHit | src/main/java/com/caucho/hessian/io/WriteReplaceSerializer.java:84-90 | the scan stops at a matching method |
| WriteReplace.MatchFromMiss | src/main/java/com/caucho/hessian/io/WriteReplaceSerializer.java:84-90 | the scan passes a method that does not match |
| WriteReplace.MatchFromEnd | src/main/java/com/caucho/hessian/io/WriteReplaceSerializer.java:84-93 | the scan past the last method finds nothing |
| WriteReplace.GetWriteReplace | src/main/java/com/caucho/hessian/io/WriteReplaceSerializer.java:81-113 | both overloads: the nearest class's first `writeReplace` with no parameter, or with exactly one parameter of the given class; None if there is none |
| WriteReplace.Rethrown | src/main/java/com/caucho/hessian/io/WriteReplaceSerializer.java:144-148 | runtime exceptions and errors pass unchanged; anything else comes out as a runtime exception |
| WriteReplace.HookResult | src/main/java/com/caucho/hessian/io/WriteReplaceSerializer.java:151-166 | the hook's result is returned; an exception the hook throws becomes a runtime exception of its cause; other failures of the call are rethrown or wrapped |
| WriteReplace.RethrownOutcome | src/main/java/com/caucho/hessian/io/WriteReplaceSerializer.java:144-148 | the catch pair keeps the calls made and converts the failure |
| WriteReplace.CompanionName | src/main/java/com/caucho/hessian/io/WriteReplaceSerializer.java:56 | the companion serializer class is looked up under the class name followed by `HessianSerializer` |
| WriteReplace.CompanionFactory | src/main/java/com/caucho/hessian/io/WriteReplaceSerializer.java:56-71 | the factory kept by introspection; its contract is CompanionFactoryKept |
| WriteReplace.CompanionFactoryKept | src/main/java/com/caucho/hessian/io/WriteReplaceSerializer.java:56-71 | the factory is kept iff the companion class loads, can be instantiated and some class of its chain declares `writeReplace` with the serialized class as its one parameter, and it is then the companion |
| WriteReplace.WriteReplaceSerializer.constructor | src/main/java/com/caucho/hessian/io/WriteReplaceSerializer.java:44-76 | the hook is always the zero-argument lookup on the class, because line 73 overwrites the companion's; the factory is the companion `<name>HessianSerializer` when it loads, instantiates and declares a one-argument hook, and a missing one is ignored |
| WriteReplace.WriteReplaceSerializer.CallWriteReplace | src/main/java/com/caucho/hessian/io/WriteReplaceSerializer.java:151-166 | the hook is invoked on the factory with the object when a factory is set, otherwise on the object with no arguments; failures surface as described above |
| WriteReplace.WriteReplaceSerializer.WriteObject | src/main/java/com/caucho/hessian/io/WriteReplaceSerializer.java:115-149 | a known object gets a back-reference; otherwise the hook's result is written by the base serializer (same object) or written and then given the object's reference; failures are rethrown or wrapped |
| WriteReplace.KnownObjectIsBackReference | src/main/java/com/caucho/hessian/io/WriteReplaceSerializer.java:118-124 | for a known object the only call is writeRef of its index, and the result does not depend on the hook |
| WriteReplace.IdentityUsesBaseOnce | src/main/java/com/caucho/hessian/io/WriteReplaceSerializer.java:131-139 | if the hook returns the object itself, the base serializer writes it once and replaceRef is not called |
| WriteReplace.ReplacementThenReplaceRef | src/main/java/com/caucho/hessian/io/WriteReplaceSerializer.java:141-143 | otherwise the replacement is written first and replaceRef(repl, obj) only after it |
| WriteReplace.OnlyUncheckedEscape | src/main/java/com/caucho/hessian/io/WriteReplaceSerializer.java:130-148 | past the back-reference branch, only runtime exceptions and errors leave writeObject |
| WriteReplace.HookFailureSurfaces | src/main/java/com/caucho/hessian/io/WriteReplaceSerializer.java:159-161 | an exception thrown inside the hook surfaces as a runtime exception of its cause, and nothing is written |
| WriteReplace.WriteFailureSurfaces | src/main/java/com/caucho/hessian/io/WriteReplaceSerializer.java:131-148 | a failure of the base serializer, of writing the replacement or of replaceRef leaves as the catch pair makes it (runtime exceptions and errors unchanged, others wrapped), after the calls that succeeded |
| WriteReplace.IdentityThenBackReference | src/main/java/com/caucho/hessian/io/WriteReplaceSerializer.java:118-139 | after the base serializer has written the object returned by its own hook, the object is in the reference table and the next write of it is only writeRef |
| WriteReplace.FactoryHookArityMismatch | src/main/java/com/caucho/hessian/io/WriteReplaceSerializer.java:62-73 | when a companion factory is kept, the hook called is the class's own zero-parameter `writeReplace`, yet it is passed one argument (line 156) |
| WriteReplace.SubstitutedObjectTakesReplacementIndex | src/main/java/com/caucho/hessian/io/WriteReplaceSerializer.java:141-143 | after a substitution, the original object resolves to the index the replacement received, and the replacement has none |
| HessianOutput.ReplacementTakesOverIndex | src/main/java/com/caucho/hessian/io/WriteReplaceSerializer.java:141-143 | writing a fresh replacement and then replaceRef moves its index onto the original object |
| HessianOutput.DefinitionSentOnce | src/main/java/com/caucho/hessian/io/UnsafeSerializer.java:137-146 | after writeObjectBegin of a class on a non-legacy stream, the next one reports a cached index for it |
| HessianOutput.BeginResult | src/main/java/com/caucho/hessian/io/UnsafeSerializer.java:137-149 | the code writeObjectBegin returns: the legacy code iff the stream is legacy; otherwise -1 iff the class is new, and else the index of its definition |
| Deflation.InOrderStops | src/main/java/com/caucho/hessian/io/Deflation.java:100-116 | calls made one after another: a prefix of them, each one succeeding, all of them iff nothing throws, otherwise stopped by the first call that throws |
| Deflation.AllSucceed | src/main/java/com/caucho/hessian/io/Deflation.java:74-116 | when none of the calls throws, all of them are made |
| Deflation.FaultFreeSession | src/main/java/com/caucho/hessian/io/Deflation.java:74-116 | with no failure, opening makes exactly the open calls and closing exactly the close calls |
| Deflation.PerformAll | src/main/java/com/caucho/hessian/io/Deflation.java:103-116 | the calls are made on the stream in order, up to the first that throws |
| Deflation.OpenDeflater | src/main/java/com/caucho/hessian/io/Deflation.java:74-86 | startEnvelope naming `com.caucho.hessian.io.Deflation`, then writeInt(0), before any body byte; the writer exists only if both succeed |
| Deflation.DeflateOutputStream.constructor | src/main/java/com/caucho/hessian/io/Deflation.java:74-86 | a new writer is open, with an empty body |
| Deflation.DeflateOutputStream.WriteByte | src/main/java/com/caucho/hessian/io/Deflation.java:88-92 | the byte goes to the compressed body only, never to the outer stream; a write after close fails |
| Deflation.DeflateOutputStream.WriteBytes | src/main/java/com/caucho/hessian/io/Deflation.java:94-98 | the slice goes to the compressed body only; a bad range or a write after close fails and adds nothing |
| Deflation.DeflateOutputStream.Close | src/main/java/com/caucho/hessian/io/Deflation.java:100-116 | the first close writes the body, closes it, then makes writeInt(0), completeEnvelope and close on the outer stream, in that order up to a failure; later closes do nothing |
| Deflation.FilterOutput.constructor | src/main/java/com/caucho/hessian/io/Deflation.java:36 | a filter over the deflating writer starts without close-stream-on-close |
| Deflation.FilterOutput.SetCloseStreamOnClose | src/main/java/com/caucho/hessian/io/Deflation.java:38 | sets the close-stream-on-close flag |
| Deflation.DeflationEnvelope.constructor | src/main/java/com/caucho/hessian/io/Deflation.java:26-29 | an envelope knows its runtime class name, which unwrap compares with |
| Deflation.DeflationEnvelope.Wrap | src/main/java/com/caucho/hessian/io/Deflation.java:31-41 | opens the deflating writer over the stream, whose calls are as in OpenDeflater, and returns a filter with close-stream-on-close set |
| Deflation.OpenSpec | src/main/java/com/caucho/hessian/io/Deflation.java:125-138 | the header count must be 0, otherwise "expected no headers"; then the body is read |
| Deflation.UnwrapSpec | src/main/java/com/caucho/hessian/io/Deflation.java:43-55 | readEnvelope, then readMethod; a method other than the runtime class name fails with the mismatch message |
| Deflation.CloseSpec | src/main/java/com/caucho/hessian/io/Deflation.java:152-171 | the footer count must be 0, otherwise "Unexpected footer"; then completeEnvelope and close |
| Deflation.OpenInflater | src/main/java/com/caucho/hessian/io/Deflation.java:125-138 | the reader is built iff the header check and the body read succeed, and holds the body |
| Deflation.DeflateInputStream.constructor | src/main/java/com/caucho/hessian/io/Deflation.java:125-138 | a new reader is open on the whole body |
| Deflation.DeflateInputStream.Read | src/main/java/com/caucho/hessian/io/Deflation.java:140-144 | the next body byte, -1 at the end, and an error after close |
| Deflation.DeflateInputStream.ReadBlock | src/main/java/com/caucho/hessian/io/Deflation.java:146-150 | the next bytes of the body copied into the buffer at the offset (-1 at the end), an error for a bad range or after close, and the rest of the buffer unchanged |
| Deflation.DeflateInputStream.Close | src/main/java/com/caucho/hessian/io/Deflation.java:152-171 | the first close checks the footer, completes the envelope and closes the input as CloseSpec says; later closes do nothing |
| Deflation.FilterInput.constructor | src/main/java/com/caucho/hessian/io/Deflation.java:62 | a filter over the inflating reader starts without close-stream-on-close |
| Deflation.FilterInput.SetCloseStreamOnClose | src/main/java/com/caucho/hessian/io/Deflation.java:64 | sets the close-stream-on-close flag |
| Deflation.DeflationEnvelope.Unwrap | src/main/java/com/caucho/hessian/io/Deflation.java:43-55 | the envelope and method checks, then the header check, with the reads logged in order; the result is a filter with close-stream-on-close set |
| Deflation.DeflationEnvelope.UnwrapHeaders | src/main/java/com/caucho/hessian/io/Deflation.java:57-67 | the header check and body read, then a filter with close-stream-on-close set |
| Deflation.EnvelopeRoundTrip | src/main/java/com/caucho/hessian/io/Deflation.java:31-171 | what wrap and close write is what unwrap and close read: the body comes back and the footer check passes |
| Deflation.SessionTokens | src/main/java/com/caucho/hessian/io/Deflation.java:74-116 | the tokens a whole writing session puts on the stream |
| Deflation.OpenTokens | src/main/java/com/caucho/hessian/io/Deflation.java:79-81 | the tokens the open calls put on the stream |
| Deflation.CloseTokens | src/main/java/com/caucho/hessian/io/Deflation.java:107-114 | the tokens the close calls put on the stream |
| Deflation.TranscribeAppend | src/main/java/com/caucho/hessian/io/Deflation.java:74-116 | the tokens of consecutive calls are those of each, concatenated |
| Deflation.TranscribeCons | src/main/java/com/caucho/hessian/io/Deflation.java:74-116 | the tokens of a call followed by more calls |
| Deflation.ForeignEnvelopeRejected | src/main/java/com/caucho/hessian/io/Deflation.java:50-52 | an envelope naming another method is rejected with the mismatch message after two reads |
| Deflation.SubclassRejectsDeflationEnvelope | src/main/java/com/caucho/hessian/io/Deflation.java:50-52 | because wrap always names `Deflation` but unwrap compares with the runtime class, an envelope with a different runtime name rejects what wrap wrote |
| Deflation.HeadersRejected | src/main/java/com/caucho/hessian/io/Deflation.java:130-133 | a non-zero header count fails with "expected no headers" |
| Deflation.FooterRejected | src/main/java/com/caucho/hessian/io/Deflation.java:162-165 | a non-zero footer count fails with "Unexpected footer" and completes nothing |
| IteratorDecoding.RunEnd | src/main/java/com/caucho/hessian/io/IteratorDeserializer.java:44-45 | the loop stops at the end marker or at the first token that is not a value |
| IteratorDecoding.ReadObjects | src/main/java/com/caucho/hessian/io/IteratorDeserializer.java:44-45 | one readObject per element |
| IteratorDecoding.IteratorDeserializer.ReadList | src/main/java/com/caucho/hessian/io/IteratorDeserializer.java:37-49 | addRef of the new list, readObject until isEnd, then readEnd; the iterator yields the values read, in order (the length hint plays no part) |
| IteratorDecoding.ReadElements | src/main/java/com/caucho/hessian/io/IteratorDeserializer.java:44-45 | the loop reads exactly the run of values and stops at the end marker, or fails at the first token that is no value |
| IteratorDecoding.IteratorDeserializerSlot.constructor | src/main/java/com/caucho/hessian/io/IteratorDeserializer.java:26 | the shared instance starts unset |
| IteratorDecoding.IteratorDeserializerSlot.Create | src/main/java/com/caucho/hessian/io/IteratorDeserializer.java:28-34 | the first call creates the shared instance and every later call returns that same instance |
| IteratorDecoding.ElementsAreTheRun | src/main/java/com/caucho/hessian/io/IteratorDeserializer.java:44-45 | the elements are exactly the values of the tokens before the stop, in stream order |
| IteratorDecoding.TokensOf | src/main/java/com/caucho/hessian/io/IteratorDeserializer.java:44-45 | one value token per element |
| IteratorDecoding.ListRoundTrip | src/main/java/com/caucho/hessian/io/IteratorDeserializer.java:37-49 | a list written as its values and the end marker reads back as exactly those values, with addRef, n readObject calls and one readEnd |
| IteratorDecoding.RunOverValues | src/main/java/com/caucho/hessian/io/IteratorDeserializer.java:44-45 | values followed by the end marker form the whole run |
| IteratorDecoding.ReadObjectsAreReads | src/main/java/com/caucho/hessian/io/IteratorDeserializer.java:44-45 | the loop makes only readObject calls |
| IteratorDecoding.ListCallOrder | src/main/java/com/caucho/hessian/io/IteratorDeserializer.java:40-47 | addRef comes first, then only readObject calls; readEnd is the last call, and is made only when the loop stopped at the end marker |
| OperationInfoDecoding.SignatureOf | src/main/java/com/caucho/hessian/jmx/MBeanOperationInfoDeserializer.java:55-57 | the value read for `signature` must be null or a parameter-info array, otherwise the cast fails |
| OperationInfoDecoding.EntryValue | src/main/java/com/caucho/hessian/jmx/MBeanOperationInfoDeserializer.java:47-60 | a value that reads successfully was there for the key's reader |
| OperationInfoDecoding.EntryAt | src/main/java/com/caucho/hessian/jmx/MBeanOperationInfoDeserializer.java:45-60 | a successful entry consumes exactly a key and a value |
| OperationInfoDecoding.MBeanOperationInfoDeserializer.ReadMap | src/main/java/com/caucho/hessian/jmx/MBeanOperationInfoDeserializer.java:35-74 | the entries up to isEnd, then readMapEnd, then the constructor on (name, description, signature, type, impact); a constructor failure becomes an IOException |
| OperationInfoDecoding.ReadEntries | src/main/java/com/caucho/hessian/jmx/MBeanOperationInfoDeserializer.java:44-61 | the loop leaves the fold of the entries read, starting from the defaults |
| OperationInfoDecoding.ReadEntry | src/main/java/com/caucho/hessian/jmx/MBeanOperationInfoDeserializer.java:45-60 | reads the key as a string, then the value with that key's reader |
| OperationInfoDecoding.ReadEntryValue | src/main/java/com/caucho/hessian/jmx/MBeanOperationInfoDeserializer.java:47-60 | `name`, `description` and `type` are read with readString, `impact` with readInt, `signature` with readObject and a cast; any other key, null included, with readObject |
| OperationInfoDecoding.FoldAppend | src/main/java/com/caucho/hessian/jmx/MBeanOperationInfoDeserializer.java:44-61 | one more entry updates the fold of the earlier ones |
| OperationInfoDecoding.PrefixedStep | src/main/java/com/caucho/hessian/jmx/MBeanOperationInfoDeserializer.java:44-61 | one step of the loop prepends its entry and its calls to the rest of the run |
| OperationInfoDecoding.AbsentKeyKeepsDefault | src/main/java/com/caucho/hessian/jmx/MBeanOperationInfoDeserializer.java:38-42 | a field whose key never occurs keeps its default: null strings, null signature, impact 0 |
| OperationInfoDecoding.LastValueWins | src/main/java/com/caucho/hessian/jmx/MBeanOperationInfoDeserializer.java:44-61 | for a repeated key, the last value read is kept |
| OperationInfoDecoding.UnknownKeyIsSkipped | src/main/java/com/caucho/hessian/jmx/MBeanOperationInfoDeserializer.java:58-60 | an unknown key's value is read with readObject and changes nothing |
| OperationInfoDecoding.NoMapEndInEntries | src/main/java/com/caucho/hessian/jmx/MBeanOperationInfoDeserializer.java:44-61 | the loop never calls readMapEnd |
| OperationInfoDecoding.MapEndOnce | src/main/java/com/caucho/hessian/jmx/MBeanOperationInfoDeserializer.java:44-63 | readMapEnd is called exactly once, after the loop, when the loop ends at the end marker, and never otherwise |
| OperationInfoDecoding.DecodeEncodedFields | src/main/java/com/caucho/hessian/jmx/MBeanOperationInfoDeserializer.java:35-74 | a map naming each key once, in the order name, description, type, impact, signature, then the end marker, decodes to the constructor's result on exactly those values; other key orders are not covered by this lemma |
| OperationInfoDecoding.EncodedEntries | src/main/java/com/caucho/hessian/jmx/MBeanOperationInfoDeserializer.java:44-61 | over a map that names each key once, the loop makes one update per key in stream order and stops cleanly at the end marker |
| OperationInfoDecoding.EncodedMiddle | src/main/java/com/caucho/hessian/jmx/MBeanOperationInfoDeserializer.java:44-61 | the same for the entries after `name` |
| OperationInfoDecoding.EncodedFromType | src/main/java/com/caucho/hessian/jmx/MBeanOperationInfoDeserializer.java:44-61 | the same for the entries from `type` on |
| OperationInfoDecoding.EncodedTail | src/main/java/com/caucho/hessian/jmx/MBeanOperationInfoDeserializer.java:44-61 | the same for the `impact` and `signature` entries |
| OperationInfoDecoding.FoldEveryField | src/main/java/com/caucho/hessian/jmx/MBeanOperationInfoDeserializer.java:38-61 | setting each of the five fields once, starting from the defaults, yields exactly those fields |
| NotificationInfoDecoding.TypesOf | src/main/java/com/caucho/hessian/jmx/MBeanNotificationInfoDeserializer.java:48-49 | the value read for `types` must be null or a String array, otherwise the cast fails |
| NotificationInfoDecoding.EntryValue | src/main/java/com/caucho/hessian/jmx/MBeanNotificationInfoDeserializer.java:44-52 | a value that reads successfully was there for the key's reader |
| NotificationInfoDecoding.EntryAt | src/main/java/com/caucho/hessian/jmx/MBeanNotificationInfoDeserializer.java:42-52 | a successful entry consumes exactly a key and a value |
| NotificationInfoDecoding.MBeanNotificationInfoDeserializer.ReadMap | src/main/java/com/caucho/hessian/jmx/MBeanNotificationInfoDeserializer.java:34-66 | the entries up to isEnd, then readMapEnd, then the constructor on (types, name, description); a constructor failure becomes an IOException |
| NotificationInfoDecoding.ReadEntries | src/main/java/com/caucho/hessian/jmx/MBeanNotificationInfoDeserializer.java:41-53 | the loop leaves the fold of the entries read, starting from all null |
| NotificationInfoDecoding.ReadEntry | src/main/java/com/caucho/hessian/jmx/MBeanNotificationInfoDeserializer.java:42-52 | reads the key as a string, then the value with that key's reader |
| NotificationInfoDecoding.ReadEntryValue | src/main/java/com/caucho/hessian/jmx/MBeanNotificationInfoDeserializer.java:44-52 | `name` and `description` are read with readString, `types` with readObject and a cast; any other key with readObject |
| NotificationInfoDecoding.FoldAppend | src/main/java/com/caucho/hessian/jmx/MBeanNotificationInfoDeserializer.java:41-53 | one more entry updates the fold of the earlier ones |
| NotificationInfoDecoding.PrefixedStep | src/main/java/com/caucho/hessian/jmx/MBeanNotificationInfoDeserializer.java:41-53 | one step of the loop prepends its entry and its calls to the rest of the run |
| NotificationInfoDecoding.AbsentKeyStaysNull | src/main/java/com/caucho/hessian/jmx/MBeanNotificationInfoDeserializer.java:37-39 | a field whose key never occurs stays null |
| NotificationInfoDecoding.LastValueWins | src/main/java/com/caucho/hessian/jmx/MBeanNotificationInfoDeserializer.java:41-53 | for a repeated key, the last value read is kept |
| NotificationInfoDecoding.UnknownKeyIsSkipped | src/main/java/com/caucho/hessian/jmx/MBeanNotificationInfoDeserializer.java:50-52 | an unknown key's value is read with readObject and changes nothing |
| NotificationInfoDecoding.BadTypesFails | src/main/java/com/caucho/hessian/jmx/MBeanNotificationInfoDeserializer.java:48-49 | a `types` value that is neither null nor a String array fails the cast after the two reads |
| NotificationInfoDecoding.NoMapEndInEntries | src/main/java/com/caucho/hessian/jmx/MBeanNotificationInfoDeserializer.java:41-53 | the loop never calls readMapEnd |
| NotificationInfoDecoding.MapEndOnce | src/main/java/com/caucho/hessian/jmx/MBeanNotificationInfoDeserializer.java:41-55 | readMapEnd is called exactly once, after the loop, when the loop ends at the end marker, and never otherwise |
| NotificationInfoDecoding.DecodeEncodedFields | src/main/java/com/caucho/hessian/jmx/MBeanNotificationInfoDeserializer.java:34-66 | a map naming each key once, in the order name, description, types, then the end marker, decodes to the constructor's result on exactly those values; other key orders are not covered by this lemma |
| NotificationInfoDecoding.FoldEveryField | src/main/java/com/caucho/hessian/jmx/MBeanNotificationInfoDeserializer.java:37-53 | setting each of the three fields once, starting from null, yields exactly those fields |
| LogWriting.Processed | src/main/java/com/caucho/hessian/server/HessianServlet.java:394-406 | the characters the loop handles lie inside the array; it stops early only at an index outside the array |
| LogWriting.LogWriter.constructor | src/main/java/com/caucho/hessian/server/HessianServlet.java:375-382 | a new writer has an empty buffer and has logged nothing |
| LogWriting.LogWriter.WriteChar | src/main/java/com/caucho/hessian/server/HessianServlet.java:384-392 | a newline with a non-empty buffer logs the buffer and clears it; any other character, and a newline on an empty buffer, is appended |
| LogWriting.LogWriter.WriteChars | src/main/java/com/caucho/hessian/server/HessianServlet.java:394-406 | the same as write(char) on `buf[off..off+len)` in order; an index outside the array throws after the characters before it |
| LogWriting.LogWriter.Flush | src/main/java/com/caucho/hessian/server/HessianServlet.java:408-410 | changes neither the buffer nor the logged lines |
| LogWriting.LogWriter.Close | src/main/java/com/caucho/hessian/server/HessianServlet.java:412-414 | changes neither the buffer nor the logged lines |
| LogWriting.FeedAppend | src/main/java/com/caucho/hessian/server/HessianServlet.java:394-406 | writing two runs of characters is writing their concatenation |
| LogWriting.FeedKeepsLinesNonEmpty | src/main/java/com/caucho/hessian/server/HessianServlet.java:386-388 | every logged line is non-empty |
| LogWriting.StepText | src/main/java/com/caucho/hessian/server/HessianServlet.java:384-392 | no character is lost or reordered: the logged lines, each with its newline, followed by the buffer, are the text written |
| LogWriting.FeedText | src/main/java/com/caucho/hessian/server/HessianServlet.java:394-406 | the same for any run of characters |
| LogWriting.NewlineOnEmptyBufferIsKept | src/main/java/com/caucho/hessian/server/HessianServlet.java:386-391 | a newline on an empty buffer is buffered, not logged: "a\n\n" logs "a" and leaves "\n" buffered |

## Left out

- The wire grammar: the bytes of Hessian 2.0 primitives, and how `addRef`, `writeObjectBegin`, `readEnvelope` and the other stream primitives work inside. The streams are the call-recording and token-reading interfaces described above. One input token is one complete value.
- `sun.misc.Unsafe` and raw field offsets, including the static initializer and the `com.caucho.hessian.unsafe` property (UnsafeSerializer.java:508-537). A field's invalid offset is a flag on the field, and a field read is a lookup in the object's slots.
- Java reflection: `getDeclaredFields`, `getDeclaredMethods`, `setAccessible`, `Class.forName`, `newInstance` and `Method.invoke`. Classes are given as data and the hook call is the `invoke` parameter.
- Cache eviction and the `synchronized` block around the serializer cache. The cache is a map; `SerializerCache.Evict` stands for the garbage collector clearing an entry, at any time.
- `UnsafeUnsharedSerializer`: the model records only that the unshared variant was chosen.
- Floating point: float and double field values are opaque payloads, and the widening of float to double is not computed.
- `Date.getTime()`: the millisecond value of a date field is part of the raw slot.
- DEFLATE compression: the compressed body is the plain bytes wrapped as an opaque chunk. `DeflateOutputStream.Close` emits it as one body write, which stands for both the deflater's close and the close of the body stream. Getting the body stream from the output (Deflation.java:83) is not a separate call.
- Deflation.DeflateOutputStream.Close: sets the closed flag before the outer calls, so a failing close still refuses later writes.
- Deflation.DeflateInputStream.ReadBlock: always returns as many bytes as are asked for and available, while an `InflaterInputStream` may return fewer. Corrupt compressed data (`ZipException`) is not modelled.
- Deflation.DeflateInputStream.Close: the closes of the inflater and of the body stream are not logged as input calls.
- Deflation.FilterOutput and Deflation.FilterInput: the `Hessian2Output` and `Hessian2Input` built over the body stream are reduced to their close-stream-on-close flag. What they do on close or flush is not modelled.
- OperationInfoDecoding.SignatureOf and NotificationInfoDecoding.TypesOf: `readObject(type)` is modelled as `readObject` followed by a cast of the value read. Its own conversions of the value are not modelled.
- The `MBeanOperationInfo` and `MBeanNotificationInfo` constructors: an abstract `construct` parameter that either builds an object or fails with a message.
- `JMXSerializerFactory` and `HessianException`: neither is part of this model. The first is a dispatch table over JMX classes and the second holds only constructors.
- The rest of `HessianServlet` (servlet initialisation, request handling, class loading) is not part of this model. The `java.util.logging` logger behind `LogWriter` is the sequence of lines logged, and its level filtering is not modelled.
- LogWriting.LogWriter.WriteChars: the failure on a null character array is not modelled, since a Dafny array reference of type `array<char>` is never null.
- Failures that depend on when a call is made. The `failure` map decides by the call's value alone, so a call equal to one that has already succeeded on the stream cannot fail. Three consequences: the second `writeObjectBegin` of the new-definition form (UnsafeSerializer.java:144) never throws after the first one succeeded; the footer `writeInt(0)` of `DeflateOutputStream.close` (Deflation.java:110) never throws after the header `writeInt(0)` succeeded; and a field value call equal to an earlier call of the same object (two `int` fields holding the same value, or a `String` field holding a field's name) fails only where that earlier call fails. The failure-context lemmas therefore state their premise as "no earlier call of the object fails".
- Java `char` values as UTF-16 code units. A Dafny `char` is a Unicode scalar value, so a lone surrogate half cannot reach `LogWriter` or a `char` field's writer.
- Logging inside `WriteReplaceSerializer`: the `log.fine` message when the hook returns the object itself (WriteReplaceSerializer.java:132-134) and the `log.log(FINER, ...)` of a failed companion lookup (line 70). Neither changes what is written.
- `Method.invoke` is an unconstrained parameter: the model does not require it to throw `IllegalArgumentException` on a receiver or argument-count mismatch. WriteReplace.FactoryHookArityMismatch shows that such a mismatch always happens when a companion factory is kept, because line 73 replaces the companion's hook with the class's own zero-parameter one.
- OperationInfoDecoding.DecodeEncodedFields: proved for one key order, the one written by `EncodeFields`. For any other order, what each slot ends as is given by LastValueWins and AbsentKeyKeepsDefault.
- NotificationInfoDecoding.DecodeEncodedFields: proved for the one key order written by `EncodeFields`. For any other order, what each slot ends as is given by LastValueWins and AbsentKeyStaysNull.
- Exception messages are exact only where the model states them: the three `Deflation` messages. Other failures are values naming their kind, a tag, and where given, the class and field they pass through.
