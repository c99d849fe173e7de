# Onbox TypeSharp: C# models to TypeScript, as a Dafny model

The generator reads public types from a compiled .NET assembly and renders each as TypeScript:
- an interface for a data class, written to "<name>.ts";
- an `enum` for an enumeration, written to "<name>.enum.ts";
- an injectable service stub for an API controller. This text is only returned: the call that would save it is commented out (`Program.cs:137`).

A class refers to other types through its properties. The import test `ShouldImport` rejects every class and every type implementing `IList`. As written, line 189 applies it to the enclosing type (`prop.DeclaringType`), not to the property's type, so the enclosing type decides:
- In a class, no property ever gets an `import` line or a nested `ProcessType` call. This is why the `SubPerson` property of the sample class `Person` is never imported.
- In an interface, every property whose type is not that interface gets one, a `string` property included. The import line and the nested call both name the interface itself (lines 191 and 204), so the interface imports itself and calls `ProcessType` on itself again (see "Findings").

As corrected, the test, the import and the nested call all use the property's own type.

`GetPropType` (lines 255-281) has no branch for a non-generic type that is not a class, so it returns null and the member line prints an empty type (`   x: ;`). Under the corrected reading every imported property that is not string-like, numeric or generic, a non-generic interface for example, is such a type: it gets an import line and an empty member type. The model reproduces this (`ClassEmission.ImportedMemberType`) and claims no intended member type for it.

This project models the naming and emission logic of that generator and proves what it computes. There are two naming services:
- `TypeNamingService`, the reflection-based one (`System.Type`);
- the Mono.Cecil-based helpers in the console program's `Program` class.

## Modules

- `Wrappers` (`wrappers.dfy`): `Option` and `Result`. `Result` supports `:-` propagation, and it stands for the exceptions the source throws.
- `Strings` (`strings.dfy`): the .NET string operations the generator uses, over `seq<char>`:
  - ordinal `Contains`;
  - left-to-right `Replace`;
  - ASCII `ToLower`;
  - `StringBuilder.AppendLine` sequences (`Unlines`), and reading text back into lines (`SplitLines`).
- `TypeNaming` (`type_naming.dfy`): `TypeNamingService`.
  - A reflected type is a `ClrType` whose `Traits` record what the `TypeUtils` predicates say about it.
  - The branch cascade of `GetPropertyTypeName` is described twice: as written, and independently as "first category of `Precedence` whose test holds". The two are proved equal.
- `Imports` (`imports.dfy`): the import block one class accumulates: a statement is appended unless the block already contains it as a substring. A first-seen `Distinct` gives the reference behaviour.
- `Generator` (`generator.dfy`): the `Program` helpers, over a Cecil-like `TypeRef`/`TypeDef`:
  - `ShouldImport`, `GetImportName`, `GetDefinition`, `GetPropType`;
  - the artifact file name of `SaveTypescript`;
  - the three emission variants, with `ProcessType` dispatching between them;
  - `ClearCache`.
- `ClassEmission` (`class_emission.dfy`): what the class variant emits, stated against independent descriptions:
  - the imported names;
  - the member lines;
  - the recursion requests;
  - the text read back line by line.
- `Recursion` (`recursion.dfy`): `ProcessType` with its nested calls followed to the end.
  - The one processed set grows while a loop is still running.
  - Every file written is kept in order, also when a later property raises.
  - The call depth is bounded by a fuel parameter, so "fails for every fuel" is how the model says a call never returns.
  - A `Marking` says when a class joins the processed set: after its loop, as the source does (`AfterLoop`), or before it (`BeforeLoop`).
- `Samples` (`samples.dfy`): concrete types from the `Person` sample model, plus the inputs behind the findings below.

The source keeps two caches in static fields: the processed set and the imports table. The model threads them as values instead.
- A type is identified by its full name.
- One emission returns an `Emission`: the text, the written file (`Artifact`), the processed set afterwards, and the types its loop asks `ProcessType` for (`pending`), each judged against the processed set at entry.
- `Recursion` carries out those requests in order against the processed set as it is at that point. It shows that the one-level emission is what the full call returns.

The property loop of `ProcessClass` is described once, parameterised by a `Reading`:
- `AsWritten` consults `prop.DeclaringType` (the enclosing type), as lines 189, 191, 204 and 207 do.
- `Corrected` consults `prop.PropertyType`, which is evidently what is meant. See "Findings".

`Generator.ProcessType` dispatches to the corrected class emission. The descent as written is `Recursion.RunType` with `AsWritten` and `AfterLoop`.

Where the code's behaviour departs from its evident purpose, the model follows the code:
- The declaration name of a generic type uses the literal `<T>`, not the name of the type's own parameter.
- An enum member's value is the text of the field's hash code, not its constant value.
- The controller variant writes no file, because the save call is commented out. Its endpoint scan only logs.
- A type is marked processed after its property loop (line 215), not before it. Two interfaces that refer to each other therefore keep requesting each other (`Samples.MutualReferenceReenters`). `Recursion` follows the source here by default; marking before the loop is the corrected half of a row in "Findings".
- A nullable property is recognised by the type's nullability, which is what the property-name rule tests.

## Model

| member | source | states |
|---|---|---|
| TypeNaming.NamesOfInnermost | src/Onbox.TypeSharp/Services/TypeNamingService.cs:22-42 | Import and declaration names of any type, array or not, are those of its innermost element type with the arity marker "`1" replaced by "" and by "<T>" respectively |
| TypeNaming.ArrayNamedAfterElement | src/Onbox.TypeSharp/Services/TypeNamingService.cs:24-38 | An array type is imported and declared under the names of its element type |
| TypeNaming.PlainNamesUnchanged | src/Onbox.TypeSharp/Services/TypeNamingService.cs:30-41 | A non-array type whose name holds no arity marker is imported and declared under its own name |
| TypeNaming.GenericNames | src/Onbox.TypeSharp/Services/TypeNamingService.cs:30-41 | A one-parameter generic "X`1" is imported as "X" and declared as "X<T>" |
| TypeNaming.OptionalMarkerIffNullable | src/Onbox.TypeSharp/Services/TypeNamingService.cs:44-52 | For a casing conversion that keeps a trailing "?" exactly where one was, the property name ends in "?" if and only if the type is nullable |
| TypeNaming.FirstMatch | src/Onbox.TypeSharp/Services/TypeNamingService.cs:54-113 | The chosen category is Unmapped exactly when no test holds; otherwise its test holds and every earlier test fails |
| TypeNaming.ClassifyFirstMatchWins | src/Onbox.TypeSharp/Services/TypeNamingService.cs:54-113 | First match wins: a type's category passes its test and fails every test that precedes it |
| TypeNaming.ClassifyIsCascade | src/Onbox.TypeSharp/Services/TypeNamingService.cs:54-113 | The if/else-if cascade as written selects the same branch as first-match over the precedence list |
| TypeNaming.GetPropertyTypeName | src/Onbox.TypeSharp/Services/TypeNamingService.cs:54-113 | Per category: "string", "number", "boolean", "Date", the collection name, the generic name, the class or enum name, or the exception naming the type (unsupported type, nullable without Value) |
| TypeNaming.NullableNamedByWrappedType | src/Onbox.TypeSharp/Services/TypeNamingService.cs:88-96 | A nullable wrapper is named as the type left after unwrapping every wrapper |
| TypeNaming.StringLikeNeverReachesClass | src/Onbox.TypeSharp/Services/TypeNamingService.cs:56-59 | A string-like type is "string" whatever else holds of it, and is never classified as a class |
| TypeNaming.CollectionNames | src/Onbox.TypeSharp/Services/TypeNamingService.cs:72-87 | A collection that is an array keeps its own name; a list with one argument is the argument's name plus "[]"; one with more arguments is rejected with an error naming it |
| TypeNaming.GenericTypeNames | src/Onbox.TypeSharp/Services/TypeNamingService.cs:97-107 | A generic "X`1" with one argument A is "X<A>"; one with more arguments is rejected with an error naming it |
| Imports.StatementOccursOnlyAsItself | src/Onbox.Csharp.Typescript/Program.cs:191-197 | The import statement for one identifier occurs inside the statement for another only when the two identifiers are equal |
| Imports.BlockContainsExactly | src/Onbox.Csharp.Typescript/Program.cs:191-200 | A block of statements for identifiers contains the statement for a name if and only if that name is one of them |
| Imports.DistinctKeepsFirstSeenOrder | src/Onbox.Csharp.Typescript/Program.cs:191-200 | The reference deduplication keeps every name where it first appears, in first-seen order |
| Imports.ImportBlockIsDistinctStatements | src/Onbox.Csharp.Typescript/Program.cs:191-200 | The substring-deduplicated accumulation equals one statement per distinct name in first-seen order, joined by line breaks |
| Generator.GetPropType | src/Onbox.Csharp.Typescript/Program.cs:255-281 | "string" for String/DateTime/DateTimeOffset, "number" for Int32/Double/Single. Otherwise, an IList type gives its last generic parameter plus "[]", and fails exactly when it has no generic parameters. Another generic type gives its import name with "<last parameter>". A class without parameters gives its own name. The result is null exactly for the remaining types |
| Generator.GenericPropTypeMatchesDefinition | src/Onbox.Csharp.Typescript/Program.cs:250-274 | A generic "X`1" whose parameter is T gets the same member type as its declaration name "X<T>" |
| Generator.FileNameRoundTrip | src/Onbox.Csharp.Typescript/Program.cs:220-224 | The artifact file name determines the import name and whether the type is an enum (".enum.ts" versus ".ts") |
| Generator.ProcessEnum | src/Onbox.Csharp.Typescript/Program.cs:157-176 | The enum variant writes its text to the type's file, ending in ".enum.ts" for an enum, and leaves the processed set unchanged |
| Generator.EnumTextLines | src/Onbox.Csharp.Typescript/Program.cs:157-176 | The enum text reads back as a blank line, the header with the declaration name, one line per field in order, and the closing brace |
| Generator.ProcessController | src/Onbox.Csharp.Typescript/Program.cs:109-141 | The controller variant writes no file, requests no recursion and marks the type processed |
| Generator.ControllerTextLines | src/Onbox.Csharp.Typescript/Program.cs:109-141 | The controller text reads back as the six lines of the injectable stub, the class named with "Controller" replaced by "Service" |
| Generator.ProcessClassWith | src/Onbox.Csharp.Typescript/Program.cs:178-218 | On success, the class variant writes its text to "<import name>.ts" and adds the type to the processed set |
| Generator.ProcessType | src/Onbox.Csharp.Typescript/Program.cs:143-155 | An enum gets the enum emission; otherwise a type with an "ApiController" attribute gets the controller emission; every other type gets the corrected class emission. Only enums leave the processed set unchanged, exactly controllers write no file, any written file is named after the type, and only the class variant can fail |
| Generator.ClearCache | src/Onbox.Csharp.Typescript/Program.cs:36-40 | Both caches are empty afterwards |
| ClassEmission.ScanSucceeds | src/Onbox.Csharp.Typescript/Program.cs:187-208 | The loop completes if and only if no consulted type makes `GetPropType` raise (only an IList type without generic parameters does, lines 264-268). A consulted type whose member type is null still completes its line |
| ClassEmission.ScanImports | src/Onbox.Csharp.Typescript/Program.cs:189-200 | The accumulated block is the fold of the statements for the imported names, in property order |
| ClassEmission.ScanPending | src/Onbox.Csharp.Typescript/Program.cs:189-205 | The recursion requests are those of importing properties whose type is not in the processed set at entry, in property order |
| ClassEmission.ImportedNamesExactly | src/Onbox.Csharp.Typescript/Program.cs:189-191 | As corrected, a name is imported if and only if some property's type is accepted by `ShouldImport` (lines 228-243: neither a class nor an IList) and is not the enclosing type, and the name is that type's `GetImportName` (lines 245-248) |
| ClassEmission.ScanLines | src/Onbox.Csharp.Typescript/Program.cs:187-208 | The loop writes one member line per property, in order |
| ClassEmission.ScanMeaning | src/Onbox.Csharp.Typescript/Program.cs:187-208 | The loop computes the import block, the recursion requests and the member lines in one pass, and fails exactly when some consulted type makes `GetPropType` raise |
| ClassEmission.ClassTextIsUnlines | src/Onbox.Csharp.Typescript/Program.cs:185-211 | The import block, a line break and the body together are the text of all class lines, each terminated |
| ClassEmission.ClassTextLines | src/Onbox.Csharp.Typescript/Program.cs:178-218 | The class variant succeeds if and only if no consulted type makes `GetPropType` raise. Its text then reads back as: one import per distinct name in first-seen order, a blank line, the header, one member line per property, and the closing brace |
| ClassEmission.CorrectedPendingAreOtherTypes | src/Onbox.Csharp.Typescript/Program.cs:189-205 | As corrected, every recursion request names another type, not yet processed, that should be imported |
| ClassEmission.AsWrittenConsultsEnclosingType | src/Onbox.Csharp.Typescript/Program.cs:189-204 | As written, every recursion request and every import names the enclosing type itself |
| ClassEmission.AsWrittenRecursionReenters | src/Onbox.Csharp.Typescript/Program.cs:202-215 | As written, any recursion the class variant requests is on the very type being emitted, before it is marked processed |
| ClassEmission.SelfTypedPropertyAddsNoImport | src/Onbox.Csharp.Typescript/Program.cs:189 | A property typed by its enclosing type adds no import and no recursion request |
| ClassEmission.ImportedMemberType | src/Onbox.Csharp.Typescript/Program.cs:189-207 | As corrected, an imported property never makes `GetPropType` raise. Its member type is null, and its line reads `   <name>: ;`, exactly when its type is neither string-like, nor numeric, nor generic (lines 257-280) |
| ClassEmission.ClearedCacheSuppressesNothing | src/Onbox.Csharp.Typescript/Program.cs:36-40 | With the caches cleared, every property that adds an import also requests its type |
| Recursion.RunType | src/Onbox.Csharp.Typescript/Program.cs:143-218 | A `ProcessType` call only adds to the processed set; one that returns leaves every non-enum type it was called on processed; with no depth left it overflows the stack |
| Recursion.RunProperty | src/Onbox.Csharp.Typescript/Program.cs:187-208 | One loop iteration only adds to the processed set and keeps every file already written as a prefix of its files, even when it fails. When it completes, the consulted type did not raise in `GetPropType`, and the member lines are the earlier ones plus this property's line with that member type |
| Recursion.LoopAgreesWithScan | src/Onbox.Csharp.Typescript/Program.cs:187-208 | A property loop that completes builds the same import block and member lines as the one-level loop, whatever its nested calls did and whatever set the one-level loop starts from |
| Recursion.RunAgreesWithProcessType | src/Onbox.Csharp.Typescript/Program.cs:143-218 | Under either marking, a call that returns yields the one-level emission's text, writes that emission's file last, and leaves at least its processed set |
| Recursion.LoopMarksReferences | src/Onbox.Csharp.Typescript/Program.cs:202-215 | As corrected, after a completed loop every imported property type with a non-enum definition is processed, whether the loop descended into it or found it processed already |
| Recursion.SecondReferenceWritesNothing | src/Onbox.Csharp.Typescript/Program.cs:202-205 | As corrected, a later property of a type an earlier property already imported writes no file and processes nothing, because the nested call at line 204 has marked that type processed |
| Recursion.AsWrittenNeverReturns | src/Onbox.Csharp.Typescript/Program.cs:189-215 | As written, `ProcessType` on an importable type with a property of another unprocessed type calls itself again with the same processed set, so it never returns |
| Samples.StringPropertyName | samples/SampleModels/Models/Person.cs:7 | A string property is typed "string" |
| Samples.ClassPropertyName | samples/SampleModels/Models/Person.cs:10 | A SubPerson property is typed "SubPerson" |
| Samples.ListPropertyName | samples/SampleModels/Models/Person.cs:12 | A List<SubPerson> property is typed "SubPerson[]" |
| Samples.ArrayPropertyName | samples/SampleModels/Models/Person.cs:13 | A SubPerson[] property is typed "SubPerson[]" and imported as "SubPerson" |
| Samples.GenericPropertyName | samples/SampleModels/Models/Person.cs:14 | A GenericPerson<SubPerson> property is typed "GenericPerson<SubPerson>"; the type is declared "GenericPerson<T>" |
| Samples.NullableNumberMapping | src/Onbox.TypeSharp/Services/TypeNamingService.cs:44-96 | A nullable Int32 property "Age" is typed "number" and named as the casing of "Age?" |
| Samples.TwoArgumentListRejected | src/Onbox.TypeSharp/Services/TypeNamingService.cs:80-83 | A list type with two generic arguments is rejected with the error naming it |
| Samples.PersonScenario | src/Onbox.Csharp.Typescript/Program.cs:178-218 | As corrected, a Person class with a string Name emits a blank line, "export interface Person {", "   name: string;" and "}", into "Person.ts" |
| Samples.DeclaringTypeCounterexample | src/Onbox.Csharp.Typescript/Program.cs:207 | As written, the same class emits the member line "   name: Person;" |
| Samples.ReentryCounterexample | src/Onbox.Csharp.Typescript/Program.cs:189-205 | As written, an interface with a property of class type imports itself and requests itself; as corrected, it requests nothing |
| Samples.MutualReferenceReenters | src/Onbox.Csharp.Typescript/Program.cs:202-215 | Two interfaces referring to each other each request the other, with the processed set still empty |
| Samples.MutualReferenceDiverges | src/Onbox.Csharp.Typescript/Program.cs:202-215 | As corrected but marking each class after its loop, as line 215 does, the descent over two interfaces that refer to each other never returns |
| Samples.MutualReferenceReturnsWhenMarkedFirst | src/Onbox.Csharp.Typescript/Program.cs:202-215 | Marking a class processed before its loop makes the same descent return: the files are `B`'s, then `A`'s, and both end processed |
| Samples.RepeatedReferenceEnteredOnce | src/Onbox.Csharp.Typescript/Program.cs:187-215 | As corrected, an interface with two properties of the same other interface descends into it once: that interface's file is written first, the enclosing one's second, and both end processed |
| Samples.FailureKeepsNestedFiles | src/Onbox.Csharp.Typescript/Program.cs:204-213 | When a later property raises, the file written by an earlier nested call stays written and its type stays processed, while the enclosing type writes nothing |
| Samples.ShapeNeverReturns | src/Onbox.Csharp.Typescript/Program.cs:189-215 | As written, emitting `IShape { Point Origin }` never returns; as corrected, it returns after writing one file, named after `IShape`, with the one-level text |

## Left out

- The command line, the file-system watcher, the debounce task and the console output are I/O and scheduling. They are not modelled.
- Reading an assembly with Mono.Cecil is not modelled; a type is given as a `TypeDef` value.
- Writing the file is modelled as the returned `Artifact`. The destination folder, the path combination and the UTF-8 encoding are left out.
- `WriteAssemblyTypes`: its loop over public types calls the processed set as a method (line 91), so the file does not compile as written. The loop is not modelled.
- `GetBytes` is unused by the generator and is not modelled.
- ClassEmission.ScanPending: the one-level request list judges every property against the processed set at entry. The source's nested call at line 204 adds its type to the processed set (line 139 or 215) before line 202 looks at the next property, so a type the list names twice is entered only once. When a later property raises, the list is lost, while the files the earlier nested calls saved stay on disk. Both are modelled by `Recursion.RunLoop` instead (`Recursion.SecondReferenceWritesNothing`, `Samples.FailureKeepsNestedFiles`).
- Recursion.RunType: the call depth is bounded by `fuel`. Running out is the `StackOverflow` failure. It stands for the .NET stack overflow, which ends the process rather than raising an exception a caller could catch.
- Generator.ProcessType: dispatches to the corrected class emission (the `Corrected` reading), not to the one as written. As written, `ProcessType` never returns on an interface with a property of another unprocessed type. That behaviour is `Recursion.RunType` with `AsWritten` (`Recursion.AsWrittenNeverReturns`).
- Recursion.Target: as corrected, the nested call needs the property type's definition. It is looked up by full name; a missing one is the `Unresolved` failure, where Cecil's `Resolve()` would give null.
- The controller variant's method scan only writes to the console and is not modelled.
- The `imports` dictionary is never read or written except by `ClearCache`; it is modelled as a map that is only ever cleared.
- Type identity is the full name. The source compares a property's `TypeReference` with the enclosing `TypeDefinition`, and looks it up in a `HashSet<TypeDefinition>`; both depend on reference equality and on how Cecil resolves references, which is not modelled.
- `Environment.NewLine` is fixed to a line feed.
- `Strings.ToLower`: lower-cases ASCII letters only, because culture-sensitive Unicode case mapping is not modelled.
- `TypeNaming.GetPropertyName`: the camel-case conversion of `StringCasingService` is a function parameter, because that service is not part of this model.
- `TypeUtils` is not part of this model; its verdicts on a type are given as the `Traits` flags, and `type == typeof(bool)` as `isBool`.
- An enum field's printed form and hash code are given as opaque text, because `FieldDefinition.ToString()` and `GetHashCode()` are runtime-defined.
- `FirstOrDefault()` of an empty argument list yields null, and `.Name` on it throws. This is modelled as the `MissingGenericArgument` error, and `LastOrDefault()` in `GetPropType` as `MissingGenericParameter`.
- Generic arity above one: `Replace` only removes "`1", so "`2" names pass through unchanged, as in the source. No property is claimed about them.

## Findings

| source | as written | input that shows it | evidently intended | confidence | as-written member | corrected member |
|---|---|---|---|---|---|---|
| src/Onbox.Csharp.Typescript/Program.cs:207 | the member type is `GetPropType(prop.DeclaringType)`, the enclosing class | class `Person { string Name }` | `GetPropType` of the property's own type: `name: string;` | high; not executed | Samples.DeclaringTypeCounterexample | ClassEmission.ClassTextLines |
| src/Onbox.Csharp.Typescript/Program.cs:189-205 | the import test, the import name and the recursion use `prop.DeclaringType`, so the loop imports the interface into itself and calls `ProcessType` on it again with the same processed set, without end | interface `IShape { Point Origin }` with `Point` an unprocessed class | consult the property's type: no import of `IShape` into itself, no request to process `IShape` again | high; not executed | Samples.ShapeNeverReturns | ClassEmission.CorrectedPendingAreOtherTypes |
| src/Onbox.Csharp.Typescript/Program.cs:202-215 | a class joins the processed set only after its property loop, so a nested call that leads back to it finds it unprocessed and enters it again, without end | interfaces `A { B Other }` and `B { A Other }`, neither processed, read as corrected | mark the class processed before its loop, so that the nested `B` finds `A` processed | high; not executed | Samples.MutualReferenceDiverges | Samples.MutualReferenceReturnsWhenMarkedFirst |
