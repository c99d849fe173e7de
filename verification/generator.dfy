/** The emission helpers of the generator's `Program`: classify a type, render it
    as a TypeScript interface, enum or service stub, and name its artifact.
    Types are read from compiled metadata (Mono.Cecil `TypeDefinition`s). */
module Generator {
  import opened Wrappers
  import opened Strings
  import opened Imports

  /** Full names the source compares against. */
  const IListFullName: string := "System.Collections.IList"
  const StringLikeFullNames: set<string> := {"System.String", "System.DateTime", "System.DateTimeOffset"}
  const NumberFullNames: set<string> := {"System.Int32", "System.Double", "System.Single"}
  /** Substring of an attribute type name that marks an API controller. */
  const ControllerMarker: string := "ApiController"

  /** What the generator reads off a type reference. Types are identified by `fullName`. */
  datatype TypeRef = TypeRef(
    fullName: string,
    name: string,                   // with the arity suffix, e.g. "GenericPerson`1"
    isEnum: bool,
    isClass: bool,
    interfaces: seq<string>,        // full names of the directly implemented interfaces
    genericParameters: seq<string>) // names of the declared generic parameters

  datatype PropertyDef = PropertyDef(name: string, propertyType: TypeRef)

  /** An enum field: how the field object prints, and the text of its hash code. */
  datatype FieldDef = FieldDef(text: string, hashCode: string)

  /** A type definition: the reference plus its attributes (type names), properties and fields. */
  datatype TypeDef = TypeDef(
    ref: TypeRef,
    attributes: seq<string>,
    properties: seq<PropertyDef>,
    fields: seq<FieldDef>)

  /** The exception raised by `GetPropType` on a list type without generic
      parameters, where `LastOrDefault()` yields null and is dereferenced. */
  datatype GenError = MissingGenericParameter(typeName: string)

  predicate ImplementsIList(t: TypeRef) {
    IListFullName in t.interfaces
  }

  /** Whether a referenced type gets an import statement: never for a class,
      never for a type implementing `IList`, otherwise always. */
  predicate ShouldImport(t: TypeRef) {
    if t.isClass then false
    else if ImplementsIList(t) then false
    else true
  }

  function GetImportName(t: TypeRef): string {
    Replace(t.name, ArityMarker, "")
  }

  function GetDefinition(t: TypeRef): string {
    Replace(t.name, ArityMarker, "<T>")
  }

  function Last(xs: seq<string>): string
    requires |xs| > 0
  {
    xs[|xs| - 1]
  }

  /** TypeScript type of a member, `None` where the source returns null. */
  function GetPropType(t: TypeRef): (r: Result<Option<string>, GenError>)
    ensures t.fullName in StringLikeFullNames ==> r == Ok(Some("string"))
    ensures t.fullName !in StringLikeFullNames && t.fullName in NumberFullNames ==> r == Ok(Some("number"))
    ensures r.Err? <==> t.fullName !in StringLikeFullNames && t.fullName !in NumberFullNames
                        && ImplementsIList(t) && |t.genericParameters| == 0
    ensures r == Ok(None) <==> t.fullName !in StringLikeFullNames && t.fullName !in NumberFullNames
                               && !ImplementsIList(t) && |t.genericParameters| == 0 && !t.isClass
    ensures t.fullName !in StringLikeFullNames && t.fullName !in NumberFullNames
            && ImplementsIList(t) && |t.genericParameters| > 0
            ==> r == Ok(Some(Last(t.genericParameters) + "[]"))
    ensures t.fullName !in StringLikeFullNames && t.fullName !in NumberFullNames
            && !ImplementsIList(t) && |t.genericParameters| > 0
            ==> r == Ok(Some(GetImportName(t) + "<" + Last(t.genericParameters) + ">"))
    ensures t.fullName !in StringLikeFullNames && t.fullName !in NumberFullNames
            && !ImplementsIList(t) && |t.genericParameters| == 0 && t.isClass
            ==> r == Ok(Some(t.name))
  {
    if t.fullName in StringLikeFullNames then Ok(Some("string"))
    else if t.fullName in NumberFullNames then Ok(Some("number"))
    else if ImplementsIList(t) then
      if |t.genericParameters| == 0 then Err(MissingGenericParameter(t.name))
      else Ok(Some(Last(t.genericParameters) + "[]"))
    else if |t.genericParameters| > 0 then
      Ok(Some(Replace(t.name, ArityMarker, "") + "<" + Last(t.genericParameters) + ">"))
    else if t.isClass then Ok(Some(t.name))
    else Ok(None)
  }

  /** A one-parameter generic "X`1" whose parameter is T is typed exactly as it is declared. */
  lemma GenericPropTypeMatchesDefinition(t: TypeRef, x: string)
    requires t.fullName !in StringLikeFullNames && t.fullName !in NumberFullNames && !ImplementsIList(t)
    requires t.name == x + ArityMarker && !Contains(x, ArityMarker) && t.genericParameters == ["T"]
    ensures GetPropType(t) == Ok(Some(GetDefinition(t)))
  {
    ReplaceMarkerSuffix(x, "");
    ReplaceMarkerSuffix(x, "<T>");
    assert x + "" == x;
    assert Last(t.genericParameters) == "T";
    assert x + "<" + "T" + ">" == x + "<T>";
  }

  /** The artifact file name: the import name, ".enum" for enums, then ".ts". */
  function FileName(t: TypeRef): string {
    GetImportName(t) + (if t.isEnum then ".enum" else "") + ".ts"
  }

  /** Reads a file name back as (import name, whether it holds an enum). */
  function ParseFileName(f: string): Option<(string, bool)> {
    if IsSuffix(".enum.ts", f) then Some((f[..|f| - 8], true))
    else if IsSuffix(".ts", f) then Some((f[..|f| - 3], false))
    else None
  }

  /** The file name determines the import name and whether the type is an enum,
      for type names without a dot (every C# type name). */
  lemma FileNameRoundTrip(t: TypeRef)
    requires '.' !in t.name
    ensures ParseFileName(FileName(t)) == Some((GetImportName(t), t.isEnum))
  {
    var base := GetImportName(t);
    ReplaceDrawsFrom(t.name, ArityMarker, "");
    assert '.' !in base;
    var f := FileName(t);
    if t.isEnum {
      assert f == base + ".enum.ts";
      assert f[|f| - 8..] == ".enum.ts";
      assert f[..|f| - 8] == base;
    } else {
      assert f == base + ".ts";
      assert f[..|f| - 3] == base;
      if |f| >= 8 {
        assert f[|f| - 8..][0] == base[|base| - 5];
        assert base[|base| - 5] in base;
      }
      assert !IsSuffix(".enum.ts", f);
    }
  }

  /** The emission variant of a type. */
  datatype Variant = EnumVariant | ControllerVariant | ClassVariant

  predicate HasControllerAttribute(t: TypeDef) {
    exists i :: 0 <= i < |t.attributes| && Contains(t.attributes[i], ControllerMarker)
  }

  /** Enum first, then API controller, then class. */
  function VariantOf(t: TypeDef): Variant {
    if t.ref.isEnum then EnumVariant
    else if HasControllerAttribute(t) then ControllerVariant
    else ClassVariant
  }

  /** A file written by the generator. */
  datatype Artifact = Artifact(fileName: string, content: string)

  /** The result of emitting one type: the text, the file written (if any), the
      processed set afterwards, and the types the property loop asks `ProcessType`
      for, each judged against the processed set at entry. The nested calls, and
      the processed set they grow mid-loop, are followed in `Recursion`. */
  datatype Emission = Emission(
    text: string,
    artifact: Option<Artifact>,
    processed: set<string>,
    pending: seq<TypeRef>)

  function EnumMemberLine(f: FieldDef): string {
    "   " + f.text + " = " + f.hashCode + ","
  }

  function EnumLines(t: TypeDef): seq<string> {
    ["", "export enum " + GetDefinition(t.ref) + " {"]
    + seq(|t.fields|, i requires 0 <= i < |t.fields| => EnumMemberLine(t.fields[i]))
    + ["}"]
  }

  /** The enum variant: one member line per field, saved as "<name>.enum.ts";
      the processed set is left as it was. */
  function ProcessEnum(t: TypeDef, processed: set<string>): (r: Emission)
    ensures r.processed == processed && r.pending == []
    ensures r.artifact == Some(Artifact(FileName(t.ref), r.text))
    ensures t.ref.isEnum ==> IsSuffix(".enum.ts", r.artifact.value.fileName)
  {
    var text := Unlines(EnumLines(t));
    Emission(text, Some(Artifact(FileName(t.ref), text)), processed, [])
  }

  /** The enum text reads back as a blank line, the header, one line per field
      in declaration order, and the closing brace. */
  lemma EnumTextLines(t: TypeDef, processed: set<string>)
    requires NoNewLine(t.ref.name)
    requires forall i :: 0 <= i < |t.fields| ==> NoNewLine(t.fields[i].text) && NoNewLine(t.fields[i].hashCode)
    ensures SplitLines(ProcessEnum(t, processed).text) == EnumLines(t)
    ensures |EnumLines(t)| == |t.fields| + 3
    ensures forall i :: 0 <= i < |t.fields| ==> EnumLines(t)[i + 2] == EnumMemberLine(t.fields[i])
  {
    NoNewLinePreserved(t.ref.name, ArityMarker, "<T>");
    SplitUnlines(EnumLines(t));
  }

  function ControllerLines(t: TypeDef): seq<string> {
    ["", "@Injectable({", "   providedIn: 'root'", "})",
     "export class " + Replace(GetDefinition(t.ref), "Controller", "Service") + " {", "}"]
  }

  /** The controller variant: an injectable service stub with no import block;
      it writes no file and marks the type processed. */
  function ProcessController(t: TypeDef, processed: set<string>): (r: Emission)
    ensures r.processed == processed + {t.ref.fullName} && r.pending == []
    ensures r.artifact.None?
  {
    Emission(Unlines(ControllerLines(t)), None, processed + {t.ref.fullName}, [])
  }

  /** The controller stub reads back as its six lines, the class name with
      "Controller" replaced by "Service". */
  lemma ControllerTextLines(t: TypeDef, processed: set<string>)
    requires NoNewLine(t.ref.name)
    ensures SplitLines(ProcessController(t, processed).text) == ControllerLines(t)
  {
    NoNewLinePreserved(t.ref.name, ArityMarker, "<T>");
    var name := Replace(GetDefinition(t.ref), "Controller", "Service");
    NoNewLinePreserved(GetDefinition(t.ref), "Controller", "Service");
    NoNewLineConcat("export class ", name);
    NoNewLineConcat("export class " + name, " {");
    var ls := ControllerLines(t);
    assert forall i :: 0 <= i < |ls| ==> NoNewLine(ls[i]);
    SplitUnlines(ls);
  }

  /** Replacing with line-free text keeps a line-free string line-free. */
  lemma NoNewLinePreserved(s: string, pat: string, rep: string)
    requires |pat| > 0 && NoNewLine(s) && NoNewLine(rep)
    ensures NoNewLine(Replace(s, pat, rep))
  {
    var r := Replace(s, pat, rep);
    ReplaceDrawsFrom(s, pat, rep);
    forall i | 0 <= i < |r|
      ensures r[i] != '\n'
    {
      assert r[i] in r;
    }
  }

  /** Which type a property loop consults: the source reads `prop.DeclaringType`
      (the enclosing type) where `prop.PropertyType` is evidently meant. */
  datatype Reading = AsWritten | Corrected

  function Referenced(reading: Reading, t: TypeDef, p: PropertyDef): TypeRef {
    match reading
    case AsWritten => t.ref
    case Corrected => p.propertyType
  }

  /** A property adds an import when the consulted type should be imported and
      the property's own type is not the enclosing type. */
  predicate IsImported(reading: Reading, t: TypeDef, p: PropertyDef) {
    ShouldImport(Referenced(reading, t, p)) && p.propertyType.fullName != t.ref.fullName
  }

  function PropertyLine(name: string, typeText: string): string {
    "   " + ToLower(name) + ": " + typeText + ";"
  }

  /** State of the property loop: import block, member lines, recursion requests
      (judged against the processed set at entry). */
  datatype ClassScan = ClassScan(imports: string, lines: seq<string>, pending: seq<TypeRef>)

  /** One iteration of the property loop. */
  function ScanProperty(reading: Reading, t: TypeDef, processed: set<string>, scan: ClassScan, p: PropertyDef)
    : Result<ClassScan, GenError>
  {
    var r := Referenced(reading, t, p);
    var imported := IsImported(reading, t, p);
    var imports := if imported then AddImport(scan.imports, ImportStatement(GetImportName(r))) else scan.imports;
    var pending := if imported && p.propertyType.fullName !in processed then scan.pending + [r] else scan.pending;
    var ty :- GetPropType(r);
    Ok(ClassScan(imports, scan.lines + [PropertyLine(p.name, ty.GetOr(""))], pending))
  }

  /** The property loop over `ps`, in order. */
  function Scan(reading: Reading, t: TypeDef, processed: set<string>, ps: seq<PropertyDef>)
    : Result<ClassScan, GenError>
  {
    if |ps| == 0 then Ok(ClassScan("", [], []))
    else
      var scan :- Scan(reading, t, processed, ps[..|ps| - 1]);
      ScanProperty(reading, t, processed, scan, ps[|ps| - 1])
  }

  /** The class variant: the import block, a line break, then the interface body;
      saved as "<name>.ts" and then marked processed. */
  function ProcessClassWith(reading: Reading, t: TypeDef, processed: set<string>): (r: Result<Emission, GenError>)
    ensures r.Ok? ==> r.value.processed == processed + {t.ref.fullName}
    ensures r.Ok? ==> r.value.artifact == Some(Artifact(FileName(t.ref), r.value.text))
  {
    var scan :- Scan(reading, t, processed, t.properties);
    var text := ClassText(t, scan.imports, scan.lines);
    Ok(Emission(text, Some(Artifact(FileName(t.ref), text)), processed + {t.ref.fullName}, scan.pending))
  }

  /** The import block, when there is one, and a line break before the interface body. */
  function ClassText(t: TypeDef, imports: string, memberLines: seq<string>): string {
    var body := Unlines(InterfaceLines(t, memberLines));
    if imports != "" then imports + NewLine + body else body
  }

  function InterfaceLines(t: TypeDef, memberLines: seq<string>): seq<string> {
    ["", "export interface " + GetDefinition(t.ref) + " {"] + memberLines + ["}"]
  }

  /** The class variant as the source writes it. */
  function ProcessClassAsWritten(t: TypeDef, processed: set<string>): Result<Emission, GenError> {
    ProcessClassWith(AsWritten, t, processed)
  }

  /** The class variant with every property consulted through its own type. */
  function ProcessClass(t: TypeDef, processed: set<string>): Result<Emission, GenError> {
    ProcessClassWith(Corrected, t, processed)
  }

  /** Dispatch to the variant; only enums leave the processed set unchanged,
      only controllers write no file, only classes can fail. */
  function ProcessType(t: TypeDef, processed: set<string>): (r: Result<Emission, GenError>)
    ensures r.Ok? ==> r.value.processed == (if t.ref.isEnum then processed else processed + {t.ref.fullName})
    ensures r.Ok? ==> (r.value.artifact.None? <==> VariantOf(t) == ControllerVariant)
    ensures r.Ok? && r.value.artifact.Some? ==> r.value.artifact.value.fileName == FileName(t.ref)
    ensures r.Err? ==> VariantOf(t) == ClassVariant
    ensures t.ref.isEnum ==> r == Ok(ProcessEnum(t, processed))
    ensures !t.ref.isEnum && HasControllerAttribute(t) ==> r == Ok(ProcessController(t, processed))
    ensures !t.ref.isEnum && !HasControllerAttribute(t) ==> r == ProcessClass(t, processed)
  {
    match VariantOf(t)
    case EnumVariant => Ok(ProcessEnum(t, processed))
    case ControllerVariant => Ok(ProcessController(t, processed))
    case ClassVariant => ProcessClass(t, processed)
  }

  /** The generator's two caches: an imports table (only ever cleared) and the processed set. */
  datatype Cache = Cache(imports: map<string, string>, processed: set<string>)

  function ClearCache(c: Cache): (r: Cache)
    ensures r.processed == {} && |r.imports| == 0
  {
    Cache(map[], {})
  }
}
