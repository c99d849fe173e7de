/** Concrete types taken from the sample models (`Person` and the types its
    properties use), and the inputs that show where the property loop and the
    descent through `ProcessType` go wrong. */
module Samples {
  import opened Wrappers
  import opened Strings
  import opened Imports
  import TypeNaming
  import opened Generator
  import opened ClassEmission
  import opened Recursion

  const NoTraits: TypeNaming.Traits := TypeNaming.Traits(false, false, false, false, false)

  /** A plain reflected class with the given name. */
  function ClassType(name: string): TypeNaming.ClrType {
    TypeNaming.ClrType(name, NoTraits, false, None, false, [], None, true, false)
  }

  const SubPerson: TypeNaming.ClrType := ClassType("SubPerson")
  const StringType: TypeNaming.ClrType :=
    TypeNaming.ClrType("String", NoTraits.(isString := true), false, None, false, [], None, true, false)
  const Int32Type: TypeNaming.ClrType :=
    TypeNaming.ClrType("Int32", NoTraits.(isNumber := true), false, None, false, [], None, false, false)
  const ListOfSubPerson: TypeNaming.ClrType :=
    TypeNaming.ClrType("List`1", NoTraits.(isCollection := true), false, None, true, [SubPerson], None, true, false)
  /** The array type "elem[]" of the class `elem`. */
  function ArrayOf(elem: string): TypeNaming.ClrType {
    TypeNaming.ClrType(elem + "[]", NoTraits.(isCollection := true), false, Some(ClassType(elem)), false, [], None,
                       true, false)
  }

  /** The one-parameter generic class "stem`1" closed over `arg`. */
  function GenericClass(stem: string, arg: TypeNaming.ClrType): TypeNaming.ClrType {
    TypeNaming.ClrType(stem + ArityMarker, NoTraits, false, None, true, [arg], None, true, false)
  }
  const NullableInt32: TypeNaming.ClrType :=
    TypeNaming.ClrType("Nullable`1", NoTraits.(isNullable := true), false, None, true, [Int32Type], Some(Int32Type),
                       false, false)
  const TwoArgumentList: TypeNaming.ClrType :=
    TypeNaming.ClrType("Pairs`2", NoTraits.(isCollection := true), false, None, true, [SubPerson, SubPerson], None,
                       true, false)

  /** A string property is typed `string`. */
  lemma StringPropertyName()
    ensures TypeNaming.GetPropertyTypeName(StringType) == Ok("string")
  {
    TypeNaming.ClassifyIsCascade(StringType);
  }

  /** A class property is typed by the class's own name. */
  lemma ClassPropertyName()
    ensures TypeNaming.GetPropertyTypeName(SubPerson) == Ok("SubPerson")
  {
    TypeNaming.ClassifyIsCascade(SubPerson);
  }

  /** `List<SubPerson>` is typed `SubPerson[]`, named after its one generic argument. */
  lemma ListPropertyName()
    ensures TypeNaming.GetPropertyTypeName(ListOfSubPerson) == Ok("SubPerson[]")
  {
    TypeNaming.ClassifyIsCascade(ListOfSubPerson);
    TypeNaming.CollectionNames(ListOfSubPerson);
    assert SubPerson.name + "[]" == "SubPerson[]";
  }

  lemma ArraySpelling(elem: string)
    requires elem == "SubPerson"
    ensures elem + "[]" == "SubPerson[]" && '`' !in elem
  {
  }

  /** `SubPerson[]` keeps its own name as a property type and is imported under the
      name of its element type. */
  lemma ArrayPropertyName(elem: string)
    requires elem == "SubPerson"
    ensures TypeNaming.GetPropertyTypeName(ArrayOf(elem)) == Ok("SubPerson[]")
    ensures TypeNaming.GetImportName(ArrayOf(elem)) == "SubPerson"
  {
    var t := ArrayOf(elem);
    ArraySpelling(elem);
    TypeNaming.ClassifyIsCascade(t);
    TypeNaming.CollectionNames(t);
    NoBacktickNoMarker(elem);
    TypeNaming.ArrayNamedAfterElement(t);
    TypeNaming.PlainNamesUnchanged(ClassType(elem));
  }

  lemma GenericPersonSpelling(stem: string)
    requires stem == "GenericPerson"
    ensures stem + "<" + SubPerson.name + ">" == "GenericPerson<SubPerson>"
    ensures stem + "<T>" == "GenericPerson<T>"
    ensures '`' !in stem
  {
  }

  /** `GenericPerson<SubPerson>` is typed with its argument substituted and declared
      with the literal parameter `T`. */
  lemma GenericPropertyName(stem: string)
    requires stem == "GenericPerson"
    ensures TypeNaming.GetPropertyTypeName(GenericClass(stem, SubPerson)) == Ok("GenericPerson<SubPerson>")
    ensures TypeNaming.GetDefinitionName(GenericClass(stem, SubPerson)) == "GenericPerson<T>"
  {
    var t := GenericClass(stem, SubPerson);
    GenericPersonSpelling(stem);
    NoBacktickNoMarker(stem);
    TypeNaming.ClassifyIsCascade(t);
    TypeNaming.GenericTypeNames(t, stem);
    TypeNaming.GenericNames(t, stem);
  }

  /** A nullable number is typed `number` and its property name carries the
      optional marker: `age?: number` under a lower-camel casing. */
  lemma NullableNumberMapping(casing: string -> string)
    ensures TypeNaming.GetPropertyTypeName(NullableInt32) == Ok("number")
    ensures TypeNaming.GetPropertyName("Age", NullableInt32, casing) == casing("Age?")
  {
    TypeNaming.ClassifyIsCascade(NullableInt32);
    TypeNaming.ClassifyIsCascade(Int32Type);
    TypeNaming.NullableNamedByWrappedType(NullableInt32);
    assert TypeNaming.Unwrapped(NullableInt32) == Int32Type;
    assert "Age" + TypeNaming.OptionalMarker == "Age?";
  }

  /** A list type with two generic arguments is rejected, naming the type. */
  lemma TwoArgumentListRejected()
    ensures TypeNaming.GetPropertyTypeName(TwoArgumentList) == Err(TypeNaming.TooManyListArguments("Pairs`2"))
  {
    TypeNaming.ClassifyIsCascade(TwoArgumentList);
  }

  const StringRef: TypeRef := TypeRef("System.String", "String", false, true, [], [])

  /** `Person { Name: string }`, with the class and property names as parameters. */
  function PersonDef(className: string, propName: string): TypeDef {
    TypeDef(TypeRef("SampleModels.Models." + className, className, false, true, [], []),
            [], [PropertyDef(propName, StringRef)], [])
  }

  /** The spellings the `Person` lemmas need. Like the other type names here, `Person`
      is a parameter fixed by a `requires`, which keeps `Replace` and `ToLower` on it
      symbolic rather than evaluated on a literal. */
  lemma PersonSpelling(className: string, propName: string)
    requires className == "Person" && propName == "Name"
    ensures PlainName(className) && NoNewLine(propName) && '`' !in className
    ensures ToLower(propName) == "name"
    ensures "   " + "name" + ": " + "string" + ";" == "   name: string;"
    ensures "   " + "name" + ": " + className + ";" == "   name: Person;"
    ensures "export interface " + className + " {" == "export interface Person {"
  {
  }

  lemma PersonTyped(reading: Reading, className: string, propName: string)
    requires className == "Person" && propName == "Name"
    ensures PrintableClass(reading, PersonDef(className, propName))
    ensures AllTyped(reading, PersonDef(className, propName), PersonDef(className, propName).properties)
    ensures ImportedNames(reading, PersonDef(className, propName), PersonDef(className, propName).properties) == []
    ensures GetDefinition(PersonDef(className, propName).ref) == className
  {
    var t := PersonDef(className, propName);
    PersonSpelling(className, propName);
    PersonPropTypes(className, propName);
    NoBacktickNoMarker(className);
    assert !IsImported(reading, t, t.properties[0]);
    assert ImportedNames(reading, t, t.properties) == ImportedNames(reading, t, []) + [];
  }

  /** The member line of `Name`: typed `string` as corrected, typed with the
      enclosing class as written. */
  function PersonMember(reading: Reading): string {
    match reading
    case Corrected => "   name: string;"
    case AsWritten => "   name: Person;"
  }

  /** `Name` is typed with the enclosing class as written and as a string as corrected. */
  lemma PersonPropTypes(className: string, propName: string)
    requires className == "Person" && propName == "Name"
    ensures GetPropType(PersonDef(className, propName).ref) == Ok(Some(className))
    ensures GetPropType(StringRef) == Ok(Some("string"))
  {
    var r := PersonDef(className, propName).ref;
    assert r.fullName[..8] == "SampleMo";
    assert r.fullName !in StringLikeFullNames && r.fullName !in NumberFullNames;
  }

  lemma PersonMemberLines(reading: Reading, className: string, propName: string)
    requires className == "Person" && propName == "Name"
    ensures AllTyped(reading, PersonDef(className, propName), PersonDef(className, propName).properties)
    ensures MemberLines(reading, PersonDef(className, propName), PersonDef(className, propName).properties)
            == [PersonMember(reading)]
  {
    var t := PersonDef(className, propName);
    PersonPropTypes(className, propName);
    PersonSpelling(className, propName);
    var m := MemberLines(reading, t, t.properties);
    assert |m| == 1;
    assert m[0] == PersonMember(reading);
  }

  /** The lines of `Person`: no import, a blank line, the header, the one member, the brace. */
  lemma PersonClassLines(reading: Reading, className: string, propName: string)
    requires className == "Person" && propName == "Name"
    ensures PrintableClass(reading, PersonDef(className, propName))
    ensures AllTyped(reading, PersonDef(className, propName), PersonDef(className, propName).properties)
    ensures ClassLines(reading, PersonDef(className, propName))
            == ["", "export interface Person {", PersonMember(reading), "}"]
  {
    var t := PersonDef(className, propName);
    PersonTyped(reading, className, propName);
    PersonMemberLines(reading, className, propName);
    PersonSpelling(className, propName);
    var m := MemberLines(reading, t, t.properties);
    assert Statements(Distinct(ImportedNames(reading, t, t.properties))) == [];
    assert ClassLines(reading, t) == [] + InterfaceLines(t, m);
    assert InterfaceLines(t, m) == ["", "export interface Person {"] + [PersonMember(reading)] + ["}"];
  }

  /** `Person { Name: string }` is emitted as the interface with the member
      `name: string;` and no import block, saved as "Person.ts". */
  lemma PersonScenario(className: string, propName: string)
    requires className == "Person" && propName == "Name"
    ensures ProcessClass(PersonDef(className, propName), {}).Ok?
    ensures ProcessClass(PersonDef(className, propName), {}).value.text
            == Unlines(["", "export interface Person {", "   name: string;", "}"])
    ensures ProcessClass(PersonDef(className, propName), {}).value.artifact.value.fileName == "Person.ts"
  {
    var t := PersonDef(className, propName);
    PersonClassLines(Corrected, className, propName);
    ClassTextIsUnlines(Corrected, t, {});
    PersonFileName(className, propName);
  }

  lemma PersonFileName(className: string, propName: string)
    requires className == "Person" && propName == "Name"
    ensures FileName(PersonDef(className, propName).ref) == "Person.ts"
  {
    NoBacktickNoMarker(className);
    assert GetImportName(PersonDef(className, propName).ref) == className;
  }

  /** As written, the member line of `Name` is typed with the enclosing class. */
  lemma DeclaringTypeCounterexample(className: string, propName: string)
    requires className == "Person" && propName == "Name"
    ensures ProcessClassAsWritten(PersonDef(className, propName), {}).Ok?
    ensures SplitLines(ProcessClassAsWritten(PersonDef(className, propName), {}).value.text)
            == ["", "export interface Person {", "   name: Person;", "}"]
  {
    var t := PersonDef(className, propName);
    PersonClassLines(AsWritten, className, propName);
    ClassTextLines(AsWritten, t, {});
  }

  const PointRef: TypeRef := TypeRef("Geometry.Point", "Point", false, true, [], [])

  /** An interface with one property of the class `Point`. */
  function ShapeDef(name: string): TypeDef {
    TypeDef(TypeRef("Geometry." + name, name, false, false, [], []),
            [], [PropertyDef("Origin", PointRef)], [])
  }

  lemma ShapeTyped(reading: Reading, name: string)
    requires name == "IShape"
    ensures PrintableClass(reading, ShapeDef(name))
    ensures AllTyped(reading, ShapeDef(name), ShapeDef(name).properties)
  {
  }

  /** What the loop asks for on `Origin`: as written, an import of the interface
      itself and a request to process it; as corrected, nothing, since `Point` is a class. */
  lemma ShapeConsults(reading: Reading, name: string)
    requires name == "IShape"
    ensures ImportedNames(reading, ShapeDef(name), ShapeDef(name).properties)
            == (if reading == AsWritten then [name] else [])
    ensures PendingTargets(reading, ShapeDef(name), {}, ShapeDef(name).properties)
            == (if reading == AsWritten then [ShapeDef(name).ref] else [])
  {
    NoBacktickNoMarker(name);
    assert GetImportName(ShapeDef(name).ref) == name;
  }

  /** As written, an interface with a property of another, unprocessed type imports
      itself and asks to process itself again with the same processed set; as
      corrected, it asks for nothing (the property's type is a class). */
  lemma ReentryCounterexample(name: string)
    requires name == "IShape"
    ensures ProcessClassAsWritten(ShapeDef(name), {}).Ok?
    ensures ProcessClassAsWritten(ShapeDef(name), {}).value.pending == [ShapeDef(name).ref]
    ensures SplitLines(ProcessClassAsWritten(ShapeDef(name), {}).value.text)[0] == ImportStatement(name)
    ensures ProcessClass(ShapeDef(name), {}).Ok? && ProcessClass(ShapeDef(name), {}).value.pending == []
  {
    var t := ShapeDef(name);
    ShapeTyped(AsWritten, name);
    ShapeTyped(Corrected, name);
    ShapeConsults(AsWritten, name);
    ShapeConsults(Corrected, name);
    ScanMeaning(AsWritten, t, {}, t.properties);
    ScanMeaning(Corrected, t, {}, t.properties);
    assert Distinct([name]) == [name];
    ClassTextLines(AsWritten, t, {});
  }

  /** An interface `name` in namespace "Ns". */
  function Interface(name: string): TypeRef {
    TypeRef("Ns." + name, name, false, false, [], [])
  }

  /** An interface with one property typed by the interface `other`. */
  function Linked(name: string, other: string): TypeDef {
    TypeDef(Interface(name), [], [PropertyDef("Other", Interface(other))], [])
  }

  lemma LinkedRequests(name: string, other: string)
    requires name != other
    ensures ProcessClass(Linked(name, other), {}).Ok?
    ensures ProcessClass(Linked(name, other), {}).value.pending == [Interface(other)]
  {
    var t := Linked(name, other);
    var ps := t.properties;
    assert "Ns." + name != "Ns." + other by {
      assert ("Ns." + name)[3..] == name && ("Ns." + other)[3..] == other;
    }
    assert AllTyped(Corrected, t, ps);
    ScanMeaning(Corrected, t, {}, ps);
    assert PendingTargets(Corrected, t, {}, ps) == PendingTargets(Corrected, t, {}, []) + [Interface(other)];
  }

  /** Two interfaces that refer to each other: emitting `A` asks to process `B`,
      and since `A` is marked processed only after its loop, the nested emission
      of `B` sees the same processed set and asks to process `A` again. */
  lemma MutualReferenceReenters(a: string, b: string)
    requires a == "A" && b == "B"
    ensures ProcessClass(Linked(a, b), {}).Ok? && ProcessClass(Linked(a, b), {}).value.pending == [Interface(b)]
    ensures ProcessClass(Linked(b, a), {}).Ok? && ProcessClass(Linked(b, a), {}).value.pending == [Interface(a)]
    ensures Linked(b, a).ref == Interface(b)
  {
    LinkedRequests(a, b);
    LinkedRequests(b, a);
  }

  /** Two interfaces in namespace "Ns" have different full names when their names differ. */
  lemma DistinctFullNames(a: string, b: string)
    requires a != b
    ensures Interface(a).fullName != Interface(b).fullName
  {
    assert ("Ns." + a)[3..] == a && ("Ns." + b)[3..] == b;
  }

  /** An interface is importable, and its member type is null. */
  lemma InterfaceTyped(name: string)
    ensures ShouldImport(Interface(name))
    ensures GetPropType(Interface(name)) == Ok(None)
  {
    var f := Interface(name).fullName;
    assert f[0] == 'N';
    assert f !in StringLikeFullNames && f !in NumberFullNames;
  }

  /** As corrected, but marking each class processed after its loop as the source
      does, the descent over two interfaces that refer to each other never returns:
      `a` descends into `b`, which descends into `a` with the processed set still
      empty, and so on until the stack is exhausted. */
  lemma {:induction false} MutualReferenceDiverges(env: map<string, TypeDef>, a: string, b: string, fuel: nat)
    requires a != b
    requires Interface(a).fullName in env && env[Interface(a).fullName] == Linked(a, b)
    requires Interface(b).fullName in env && env[Interface(b).fullName] == Linked(b, a)
    ensures RunType(Corrected, AfterLoop, env, Linked(a, b), {}, fuel).failure == Some(StackOverflow)
    decreases fuel
  {
    if fuel > 0 {
      DistinctFullNames(a, b);
      InterfaceTyped(b);
      MutualReferenceDiverges(env, b, a, fuel - 1);
      var t := Linked(a, b);
      var p := t.properties[0];
      assert t.properties[..0] == [];
      var l0 := RunLoop(Corrected, AfterLoop, env, t, {}, t.properties[..0], fuel);
      assert l0 == LoopRun("", [], [], {}, None);
      assert IsImported(Corrected, t, p);
      assert Target(Corrected, env, t, p) == Some(Linked(b, a));
      assert RunProperty(Corrected, AfterLoop, env, t, l0, p, fuel).failure == Some(StackOverflow);
      assert VariantOf(t) == ClassVariant;
    }
  }

  /** Marking a class processed before its loop, as evidently intended, makes the
      same descent return: `b`, entered from `a`, finds `a` processed. The files are
      `b`'s, then `a`'s, and both end processed. */
  lemma MutualReferenceReturnsWhenMarkedFirst(env: map<string, TypeDef>, a: string, b: string, fuel: nat)
    requires a != b && fuel >= 2
    requires Interface(a).fullName in env && env[Interface(a).fullName] == Linked(a, b)
    requires Interface(b).fullName in env && env[Interface(b).fullName] == Linked(b, a)
    ensures RunType(Corrected, BeforeLoop, env, Linked(a, b), {}, fuel).failure.None?
    ensures |RunType(Corrected, BeforeLoop, env, Linked(a, b), {}, fuel).files| == 2
    ensures RunType(Corrected, BeforeLoop, env, Linked(a, b), {}, fuel).files[0].fileName == FileName(Interface(b))
    ensures RunType(Corrected, BeforeLoop, env, Linked(a, b), {}, fuel).files[1].fileName == FileName(Interface(a))
    ensures RunType(Corrected, BeforeLoop, env, Linked(a, b), {}, fuel).processed
            == {Interface(a).fullName, Interface(b).fullName}
  {
    DistinctFullNames(a, b);
    InterfaceTyped(a);
    InterfaceTyped(b);
    var ta := Linked(a, b);
    var tb := Linked(b, a);
    var sa := {Interface(a).fullName};
    var sab := {Interface(a).fullName, Interface(b).fullName};
    assert ta.properties[..0] == [] && tb.properties[..0] == [];
    // the nested emission of `b`
    assert LoopEntry(BeforeLoop, tb, sa) == sab;
    var lb0 := RunLoop(Corrected, BeforeLoop, env, tb, sab, [], fuel - 1);
    assert lb0 == LoopRun("", [], [], sab, None);
    assert IsImported(Corrected, tb, tb.properties[0]);
    var lb := RunLoop(Corrected, BeforeLoop, env, tb, sab, tb.properties, fuel - 1);
    assert lb == RunProperty(Corrected, BeforeLoop, env, tb, lb0, tb.properties[0], fuel - 1);
    assert lb.failure.None? && lb.files == [] && lb.processed == sab;
    var inner := RunType(Corrected, BeforeLoop, env, tb, sa, fuel - 1);
    assert VariantOf(tb) == ClassVariant;
    assert inner.failure.None? && |inner.files| == 1 && inner.files[0].fileName == FileName(Interface(b));
    assert inner.processed == sab;
    // the emission of `a`
    assert LoopEntry(BeforeLoop, ta, {}) == sa;
    var la0 := RunLoop(Corrected, BeforeLoop, env, ta, sa, [], fuel);
    assert la0 == LoopRun("", [], [], sa, None);
    assert IsImported(Corrected, ta, ta.properties[0]);
    assert Target(Corrected, env, ta, ta.properties[0]) == Some(tb);
    var la := RunLoop(Corrected, BeforeLoop, env, ta, sa, ta.properties, fuel);
    assert la == RunProperty(Corrected, BeforeLoop, env, ta, la0, ta.properties[0], fuel);
    assert la.failure.None? && la.files == [] + inner.files && la.processed == sab;
    assert VariantOf(ta) == ClassVariant;
  }

  /** An interface `name` with two properties of the interface `other`. */
  function Twice(name: string, other: string): TypeDef {
    TypeDef(Interface(name), [], [PropertyDef("X", Interface(other)), PropertyDef("Y", Interface(other))], [])
  }

  /** An interface with no properties. */
  function Empty(name: string): TypeDef {
    TypeDef(Interface(name), [], [], [])
  }

  /** As corrected, two properties of the same interface descend into it once: the
      first writes its file and marks it processed, the second finds it processed.
      The files are that interface's, then the enclosing one's. */
  lemma RepeatedReferenceEnteredOnce(env: map<string, TypeDef>, a: string, b: string, fuel: nat)
    requires a != b && fuel >= 2
    requires Interface(b).fullName in env && env[Interface(b).fullName] == Empty(b)
    ensures RunType(Corrected, AfterLoop, env, Twice(a, b), {}, fuel).failure.None?
    ensures |RunType(Corrected, AfterLoop, env, Twice(a, b), {}, fuel).files| == 2
    ensures RunType(Corrected, AfterLoop, env, Twice(a, b), {}, fuel).files[0].fileName == FileName(Interface(b))
    ensures RunType(Corrected, AfterLoop, env, Twice(a, b), {}, fuel).files[1].fileName == FileName(Interface(a))
    ensures RunType(Corrected, AfterLoop, env, Twice(a, b), {}, fuel).processed
            == {Interface(a).fullName, Interface(b).fullName}
  {
    DistinctFullNames(a, b);
    InterfaceTyped(b);
    var t := Twice(a, b);
    var ps := t.properties;
    var inner := EmptyRun(env, b, fuel - 1);
    assert ps[..1][..0] == [] && ps[..1][0] == ps[0];
    var l0 := RunLoop(Corrected, AfterLoop, env, t, {}, [], fuel);
    assert l0 == LoopRun("", [], [], {}, None);
    assert IsImported(Corrected, t, ps[0]) && Target(Corrected, env, t, ps[0]) == Some(Empty(b));
    var l1 := RunLoop(Corrected, AfterLoop, env, t, {}, ps[..1], fuel);
    assert l1 == RunProperty(Corrected, AfterLoop, env, t, l0, ps[0], fuel);
    assert l1.failure.None? && l1.files == [] + inner.files && l1.processed == inner.processed;
    assert ps[..|ps| - 1] == ps[..1];
    var l2 := RunLoop(Corrected, AfterLoop, env, t, {}, ps, fuel);
    assert l2 == RunProperty(Corrected, AfterLoop, env, t, l1, ps[1], fuel);
    assert l2.failure.None? && l2.files == l1.files + [] && l2.processed == l1.processed;
  }

  /** Emitting an interface with no properties writes its one file and marks it processed. */
  lemma EmptyRun(env: map<string, TypeDef>, b: string, fuel: nat) returns (r: Run)
    requires fuel > 0
    ensures r == RunType(Corrected, AfterLoop, env, Empty(b), {}, fuel)
    ensures r.failure.None? && |r.files| == 1 && r.files[0].fileName == FileName(Interface(b))
    ensures r.processed == {Interface(b).fullName}
  {
    r := RunType(Corrected, AfterLoop, env, Empty(b), {}, fuel);
    assert RunLoop(Corrected, AfterLoop, env, Empty(b), {}, [], fuel) == LoopRun("", [], [], {}, None);
    assert VariantOf(Empty(b)) == ClassVariant;
  }

  /** A list type that names no generic parameter: `GetPropType` raises on it. */
  const BareList: TypeRef := TypeRef("Ns.Bare", "Bare", false, false, [IListFullName], [])

  /** An interface `name` with a property of the interface `other`, then one of `BareList`. */
  function ThenBareList(name: string, other: string): TypeDef {
    TypeDef(Interface(name), [], [PropertyDef("X", Interface(other)), PropertyDef("Y", BareList)], [])
  }

  /** As corrected, a failure on a later property keeps what the earlier nested call
      did: the file of the referenced interface stays written and the interface
      stays processed, while the enclosing type writes nothing. */
  lemma FailureKeepsNestedFiles(env: map<string, TypeDef>, a: string, b: string, fuel: nat)
    requires a != b && fuel >= 2
    requires Interface(b).fullName in env && env[Interface(b).fullName] == Empty(b)
    ensures RunType(Corrected, AfterLoop, env, ThenBareList(a, b), {}, fuel).failure
            == Some(Raised(MissingGenericParameter("Bare")))
    ensures |RunType(Corrected, AfterLoop, env, ThenBareList(a, b), {}, fuel).files| == 1
    ensures RunType(Corrected, AfterLoop, env, ThenBareList(a, b), {}, fuel).files[0].fileName == FileName(Interface(b))
    ensures RunType(Corrected, AfterLoop, env, ThenBareList(a, b), {}, fuel).processed == {Interface(b).fullName}
  {
    DistinctFullNames(a, b);
    InterfaceTyped(b);
    var t := ThenBareList(a, b);
    var ps := t.properties;
    var inner := EmptyRun(env, b, fuel - 1);
    assert ps[..1][..0] == [] && ps[..1][0] == ps[0];
    var l0 := RunLoop(Corrected, AfterLoop, env, t, {}, [], fuel);
    assert l0 == LoopRun("", [], [], {}, None);
    assert IsImported(Corrected, t, ps[0]) && Target(Corrected, env, t, ps[0]) == Some(Empty(b));
    var l1 := RunLoop(Corrected, AfterLoop, env, t, {}, ps[..1], fuel);
    assert l1 == RunProperty(Corrected, AfterLoop, env, t, l0, ps[0], fuel);
    assert l1.failure.None? && l1.files == [] + inner.files && l1.processed == inner.processed;
    assert ps[..|ps| - 1] == ps[..1];
    assert !ShouldImport(BareList) && !IsImported(Corrected, t, ps[1]);
    assert GetPropType(BareList) == Err(MissingGenericParameter("Bare")) by {
      assert BareList.fullName[1] == 's';
    }
    assert RunLoop(Corrected, AfterLoop, env, t, {}, ps, fuel)
           == RunProperty(Corrected, AfterLoop, env, t, l1, ps[1], fuel);
  }

  /** As written, emitting `IShape { Point Origin }` never returns: the interface is
      importable and `Point` is another, unprocessed type, so the loop calls
      `ProcessType` on `IShape` itself again and again. As corrected, it returns
      after writing the one file. */
  lemma ShapeNeverReturns(env: map<string, TypeDef>, name: string, fuel: nat)
    requires name == "IShape"
    ensures RunType(AsWritten, AfterLoop, env, ShapeDef(name), {}, fuel).failure == Some(StackOverflow)
    ensures fuel > 0 ==> RunType(Corrected, AfterLoop, env, ShapeDef(name), {}, fuel).failure.None?
    ensures fuel > 0 ==> ProcessClass(ShapeDef(name), {}).Ok?
                         && RunType(Corrected, AfterLoop, env, ShapeDef(name), {}, fuel).files
                            == [Artifact(FileName(ShapeDef(name).ref), ProcessClass(ShapeDef(name), {}).value.text)]
  {
    var t := ShapeDef(name);
    assert PointRef.fullName != t.ref.fullName by {
      assert |PointRef.fullName| != |t.ref.fullName|;
    }
    assert Escapes(t, {}, t.properties[0]);
    AsWrittenNeverReturns(env, t, {}, fuel);
    if fuel > 0 {
      assert t.properties[..0] == [];
      var l0 := RunLoop(Corrected, AfterLoop, env, t, {}, t.properties[..0], fuel);
      assert l0 == LoopRun("", [], [], {}, None);
      assert !IsImported(Corrected, t, t.properties[0]);
      assert GetPropType(PointRef) == Ok(Some("Point")) by {
        assert PointRef.fullName[0] == 'G';
      }
      assert RunLoop(Corrected, AfterLoop, env, t, {}, t.properties, fuel)
             == RunProperty(Corrected, AfterLoop, env, t, l0, t.properties[0], fuel);
      assert VariantOf(t) == ClassVariant;
      RunAgreesWithProcessType(AfterLoop, env, t, {}, fuel);
    }
  }
}
