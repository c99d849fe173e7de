/** The generator's recursive descent followed to the end: `ProcessType` on a type,
    the nested `ProcessType` calls its property loop makes, and the one shared
    processed set those calls grow while the loop is still running.

    The recursion has no bound in the source, and on some inputs it never returns
    (the .NET stack overflows). Here every call spends one unit of `fuel`; running
    out is the `StackOverflow` failure, so a failure for every fuel is a call that
    never returns. A failure keeps the side effects made before it: the files
    already written and the types already marked processed. */
module Recursion {
  import opened Wrappers
  import opened Imports
  import opened Generator

  /** Why a run stops early: an exception of `GetPropType`, a property type with no
      definition to descend into, or a call chain deeper than the fuel. */
  datatype RunError = Raised(error: GenError) | Unresolved(typeName: string) | StackOverflow

  /** What one `ProcessType` call leaves behind: its result text (meaningful only
      without failure), the files it and its nested calls wrote, in order, and the
      processed set afterwards. */
  datatype Run = Run(text: string, files: seq<Artifact>, processed: set<string>, failure: Option<RunError>)

  /** The property loop's state: the import block, the member lines, the files
      written by its nested calls and the processed set as they left it. */
  datatype LoopRun = LoopRun(imports: string, lines: seq<string>, files: seq<Artifact>,
                             processed: set<string>, failure: Option<RunError>)

  /** When `ProcessType` adds a class to the processed set: after its property loop,
      as the source does, or before it, so that nested calls already see it. */
  datatype Marking = AfterLoop | BeforeLoop

  /** The processed set the property loop of `t` starts from. */
  function LoopEntry(mark: Marking, t: TypeDef, processed: set<string>): (r: set<string>)
    ensures processed <= r <= processed + {t.ref.fullName}
    ensures mark == BeforeLoop ==> t.ref.fullName in r
    ensures mark == AfterLoop ==> r == processed
  {
    match mark
    case AfterLoop => processed
    case BeforeLoop => processed + {t.ref.fullName}
  }

  /** Definitions keyed by their own full name. */
  predicate Consistent(env: map<string, TypeDef>) {
    forall k :: k in env ==> env[k].ref.fullName == k
  }

  /** The definition a nested call descends into: the enclosing type as written,
      the property's own type (looked up by full name) as corrected. */
  function Target(reading: Reading, env: map<string, TypeDef>, t: TypeDef, p: PropertyDef): Option<TypeDef> {
    match reading
    case AsWritten => Some(t)
    case Corrected => if p.propertyType.fullName in env then Some(env[p.propertyType.fullName]) else None
  }

  /** `ProcessType` with its nested calls; `AfterLoop` is the source's marking. */
  function RunType(reading: Reading, mark: Marking, env: map<string, TypeDef>, t: TypeDef, processed: set<string>,
                   fuel: nat)
    : (r: Run)
    ensures processed <= r.processed
    ensures r.failure.None? && !t.ref.isEnum ==> t.ref.fullName in r.processed
    ensures fuel == 0 ==> r.failure == Some(StackOverflow)
    decreases fuel, 2, 0
  {
    if fuel == 0 then Run("", [], processed, Some(StackOverflow))
    else
      match VariantOf(t)
      case EnumVariant =>
        var e := ProcessEnum(t, processed);
        Run(e.text, [e.artifact.value], e.processed, None)
      case ControllerVariant =>
        var e := ProcessController(t, processed);
        Run(e.text, [], e.processed, None)
      case ClassVariant =>
        var l := RunLoop(reading, mark, env, t, LoopEntry(mark, t, processed), t.properties, fuel);
        if l.failure.Some? then Run("", l.files, l.processed, l.failure)
        else
          var text := ClassText(t, l.imports, l.lines);
          Run(text, l.files + [Artifact(FileName(t.ref), text)], l.processed + {t.ref.fullName}, None)
  }

  /** The property loop over `ps`, in order, stopping at the first failure. */
  function RunLoop(reading: Reading, mark: Marking, env: map<string, TypeDef>, t: TypeDef, processed: set<string>,
                   ps: seq<PropertyDef>, fuel: nat): (r: LoopRun)
    requires fuel > 0
    ensures processed <= r.processed
    decreases fuel, 1, |ps|
  {
    if |ps| == 0 then LoopRun("", [], [], processed, None)
    else
      var l := RunLoop(reading, mark, env, t, processed, ps[..|ps| - 1], fuel);
      if l.failure.Some? then l else RunProperty(reading, mark, env, t, l, ps[|ps| - 1], fuel)
  }

  /** One iteration: the import, then the nested call against the processed set as
      it is now, then the member line. */
  function RunProperty(reading: Reading, mark: Marking, env: map<string, TypeDef>, t: TypeDef, l: LoopRun,
                       p: PropertyDef, fuel: nat): (r: LoopRun)
    requires fuel > 0
    ensures l.processed <= r.processed
    ensures |l.files| <= |r.files| && r.files[..|l.files|] == l.files
    ensures r.failure.None? ==> |r.lines| == |l.lines| + 1
    ensures r.failure.None? ==>
              && GetPropType(Referenced(reading, t, p)).Ok?
              && r.lines == l.lines + [PropertyLine(p.name, GetPropType(Referenced(reading, t, p)).value.GetOr(""))]
    decreases fuel, 0, 0
  {
    var ref := Referenced(reading, t, p);
    var imported := IsImported(reading, t, p);
    var imports := if imported then AddImport(l.imports, ImportStatement(GetImportName(ref))) else l.imports;
    var nested :=
      if imported && p.propertyType.fullName !in l.processed then
        match Target(reading, env, t, p)
        case None => Run("", [], l.processed, Some(Unresolved(p.propertyType.name)))
        case Some(d) => RunType(reading, mark, env, d, l.processed, fuel - 1)
      else Run("", [], l.processed, None);
    var files := l.files + nested.files;
    if nested.failure.Some? then LoopRun(imports, l.lines, files, nested.processed, nested.failure)
    else
      match GetPropType(ref)
      case Err(e) => LoopRun(imports, l.lines, files, nested.processed, Some(Raised(e)))
      case Ok(ty) => LoopRun(imports, l.lines + [PropertyLine(p.name, ty.GetOr(""))], files, nested.processed, None)
  }

  /** A loop that completes computed the same import block and member lines as the
      one-level loop, whatever its nested calls did and whichever processed set the
      one-level loop is given (its requests alone depend on that set). */
  lemma {:induction false} LoopAgreesWithScan(reading: Reading, mark: Marking, env: map<string, TypeDef>, t: TypeDef,
                                              processed: set<string>, entry: set<string>,
                                              ps: seq<PropertyDef>, fuel: nat)
    requires fuel > 0
    requires RunLoop(reading, mark, env, t, processed, ps, fuel).failure.None?
    ensures Scan(reading, t, entry, ps).Ok?
    ensures Scan(reading, t, entry, ps).value.imports == RunLoop(reading, mark, env, t, processed, ps, fuel).imports
    ensures Scan(reading, t, entry, ps).value.lines == RunLoop(reading, mark, env, t, processed, ps, fuel).lines
  {
    if |ps| > 0 {
      LoopAgreesWithScan(reading, mark, env, t, processed, entry, ps[..|ps| - 1], fuel);
    }
  }

  /** A `ProcessType` call that returns, under either marking, produces the text of
      the one-level emission and writes that emission's file last; the nested calls
      only add files and processed types. */
  lemma RunAgreesWithProcessType(mark: Marking, env: map<string, TypeDef>, t: TypeDef, processed: set<string>,
                                 fuel: nat)
    requires RunType(Corrected, mark, env, t, processed, fuel).failure.None?
    ensures ProcessType(t, processed).Ok?
    ensures ProcessType(t, processed).value.text == RunType(Corrected, mark, env, t, processed, fuel).text
    ensures ProcessType(t, processed).value.processed <= RunType(Corrected, mark, env, t, processed, fuel).processed
    ensures ProcessType(t, processed).value.artifact.Some? ==>
              var files := RunType(Corrected, mark, env, t, processed, fuel).files;
              |files| > 0 && files[|files| - 1] == ProcessType(t, processed).value.artifact.value
  {
    if VariantOf(t) == ClassVariant {
      LoopAgreesWithScan(Corrected, mark, env, t, LoopEntry(mark, t, processed), processed, t.properties, fuel);
    }
  }

  /** As corrected, once the loop completes, every imported property type that has
      a non-enum definition is processed, whether the loop descended into it or
      found it processed already. */
  lemma {:induction false} LoopMarksReferences(env: map<string, TypeDef>, t: TypeDef, processed: set<string>,
                                               ps: seq<PropertyDef>, fuel: nat)
    requires fuel > 0 && Consistent(env)
    requires RunLoop(Corrected, AfterLoop, env, t, processed, ps, fuel).failure.None?
    ensures forall i :: 0 <= i < |ps| && IsImported(Corrected, t, ps[i])
                        && ps[i].propertyType.fullName in env && !env[ps[i].propertyType.fullName].ref.isEnum
              ==> ps[i].propertyType.fullName in RunLoop(Corrected, AfterLoop, env, t, processed, ps, fuel).processed
  {
    if |ps| > 0 {
      var init := ps[..|ps| - 1];
      LoopMarksReferences(env, t, processed, init, fuel);
      assert forall i :: 0 <= i < |init| ==> init[i] == ps[i];
    }
  }

  /** As corrected, a second property of an already imported type with a non-enum
      definition descends into nothing: it writes no file and processes no type,
      because the first one left that type processed. */
  lemma SecondReferenceWritesNothing(env: map<string, TypeDef>, t: TypeDef, processed: set<string>,
                                     ps: seq<PropertyDef>, i: nat, j: nat, fuel: nat)
    requires fuel > 0 && Consistent(env)
    requires i < j < |ps| && ps[i].propertyType == ps[j].propertyType && IsImported(Corrected, t, ps[i])
    requires ps[i].propertyType.fullName in env && !env[ps[i].propertyType.fullName].ref.isEnum
    requires RunLoop(Corrected, AfterLoop, env, t, processed, ps[..j + 1], fuel).failure.None?
    ensures RunLoop(Corrected, AfterLoop, env, t, processed, ps[..j + 1], fuel).files
            == RunLoop(Corrected, AfterLoop, env, t, processed, ps[..j], fuel).files
    ensures RunLoop(Corrected, AfterLoop, env, t, processed, ps[..j + 1], fuel).processed
            == RunLoop(Corrected, AfterLoop, env, t, processed, ps[..j], fuel).processed
  {
    var front := ps[..j];
    assert ps[..j + 1][..j] == front;
    assert ps[..j + 1][j] == ps[j];
    var l := RunLoop(Corrected, AfterLoop, env, t, processed, front, fuel);
    assert l.failure.None?;
    LoopMarksReferences(env, t, processed, front, fuel);
    assert front[i] == ps[i];
    assert ps[j].propertyType.fullName in l.processed;
    assert l.files + [] == l.files;
  }

  /** A property that makes the as-written loop descend again: its type is neither
      the enclosing type nor processed. */
  predicate Escapes(t: TypeDef, processed: set<string>, p: PropertyDef) {
    p.propertyType.fullName != t.ref.fullName && p.propertyType.fullName !in processed
  }

  predicate SomeEscapes(t: TypeDef, processed: set<string>, ps: seq<PropertyDef>) {
    exists i :: 0 <= i < |ps| && Escapes(t, processed, ps[i])
  }

  /** As written, the loop of an importable type that reaches a property of another
      unprocessed type descends into the enclosing type again with the processed
      set unchanged; before that property it changes nothing. */
  lemma {:induction false} AsWrittenLoopReenters(env: map<string, TypeDef>, t: TypeDef, processed: set<string>,
                                                 ps: seq<PropertyDef>, fuel: nat)
    requires fuel > 0 && VariantOf(t) == ClassVariant && ShouldImport(t.ref)
    requires SomeEscapes(t, processed, t.properties)
    ensures SomeEscapes(t, processed, ps) ==>
              RunLoop(AsWritten, AfterLoop, env, t, processed, ps, fuel).failure == Some(StackOverflow)
    ensures !SomeEscapes(t, processed, ps) ==>
              && RunLoop(AsWritten, AfterLoop, env, t, processed, ps, fuel).failure.None?
              && RunLoop(AsWritten, AfterLoop, env, t, processed, ps, fuel).processed == processed
              && RunLoop(AsWritten, AfterLoop, env, t, processed, ps, fuel).files == []
    decreases fuel, |ps|
  {
    if |ps| > 0 {
      var init := ps[..|ps| - 1];
      AsWrittenLoopReenters(env, t, processed, init, fuel);
      SomeEscapesSnoc(t, processed, ps);
      if !SomeEscapes(t, processed, init) && Escapes(t, processed, ps[|ps| - 1]) {
        AsWrittenNeverReturns(env, t, processed, fuel - 1);
      }
    }
  }

  lemma SomeEscapesSnoc(t: TypeDef, processed: set<string>, ps: seq<PropertyDef>)
    requires |ps| > 0
    ensures SomeEscapes(t, processed, ps)
            <==> SomeEscapes(t, processed, ps[..|ps| - 1]) || Escapes(t, processed, ps[|ps| - 1])
  {
    var init := ps[..|ps| - 1];
    assert forall i :: 0 <= i < |init| ==> init[i] == ps[i];
  }

  /** As written, `ProcessType` on an importable type (one that is neither a class
      nor an `IList`) with a property of another unprocessed type never returns:
      every call repeats itself with the same processed set, so for every fuel the
      run ends in `StackOverflow`. */
  lemma {:induction false} AsWrittenNeverReturns(env: map<string, TypeDef>, t: TypeDef, processed: set<string>,
                                                 fuel: nat)
    requires VariantOf(t) == ClassVariant && ShouldImport(t.ref)
    requires SomeEscapes(t, processed, t.properties)
    ensures RunType(AsWritten, AfterLoop, env, t, processed, fuel).failure == Some(StackOverflow)
    decreases fuel, |t.properties| + 1
  {
    if fuel > 0 {
      AsWrittenLoopReenters(env, t, processed, t.properties, fuel);
    }
  }
}
