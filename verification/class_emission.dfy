/** What the class variant of the generator emits, stated against independent
    descriptions of its import block, member lines and recursion requests. */
module ClassEmission {
  import opened Wrappers
  import opened Strings
  import opened Imports
  import opened Generator

  /** Import names of the properties that add an import, in property order. */
  function ImportedNames(reading: Reading, t: TypeDef, ps: seq<PropertyDef>): seq<string> {
    if |ps| == 0 then []
    else
      var p := ps[|ps| - 1];
      ImportedNames(reading, t, ps[..|ps| - 1])
      + (if IsImported(reading, t, p) then [GetImportName(Referenced(reading, t, p))] else [])
  }

  /** As corrected, a name is imported exactly when some property's own type should
      be imported (it is neither a class nor an `IList`), is not the enclosing type,
      and carries that import name. */
  lemma {:induction false} ImportedNamesExactly(t: TypeDef, ps: seq<PropertyDef>, n: string)
    ensures n in ImportedNames(Corrected, t, ps) <==>
              exists i :: 0 <= i < |ps| && ShouldImport(ps[i].propertyType)
                          && ps[i].propertyType.fullName != t.ref.fullName
                          && n == GetImportName(ps[i].propertyType)
  {
    if |ps| > 0 {
      var init := ps[..|ps| - 1];
      ImportedNamesExactly(t, init, n);
      assert forall i :: 0 <= i < |init| ==> init[i] == ps[i];
    }
  }

  /** Types the loop asks to process next: those of importing properties whose
      own type is not in the processed set at entry. A type the nested calls add
      mid-loop is still requested here; `Recursion.RunLoop` threads the set. */
  function PendingTargets(reading: Reading, t: TypeDef, processed: set<string>, ps: seq<PropertyDef>)
    : seq<TypeRef>
  {
    if |ps| == 0 then []
    else
      var p := ps[|ps| - 1];
      PendingTargets(reading, t, processed, ps[..|ps| - 1])
      + (if IsImported(reading, t, p) && p.propertyType.fullName !in processed
         then [Referenced(reading, t, p)] else [])
  }

  /** No consulted type makes `GetPropType` raise. Only a list type without generic
      parameters does; a type whose TypeScript type is null passes. */
  predicate AllTyped(reading: Reading, t: TypeDef, ps: seq<PropertyDef>) {
    forall i :: 0 <= i < |ps| ==> GetPropType(Referenced(reading, t, ps[i])).Ok?
  }

  function MemberLine(reading: Reading, t: TypeDef, p: PropertyDef): string
    requires GetPropType(Referenced(reading, t, p)).Ok?
  {
    PropertyLine(p.name, GetPropType(Referenced(reading, t, p)).value.GetOr(""))
  }

  function MemberLines(reading: Reading, t: TypeDef, ps: seq<PropertyDef>): (r: seq<string>)
    requires AllTyped(reading, t, ps)
    ensures |r| == |ps|
  {
    seq(|ps|, i requires 0 <= i < |ps| && AllTyped(reading, t, ps) => MemberLine(reading, t, ps[i]))
  }

  /** One iteration of the loop, field by field. */
  lemma ScanStep(reading: Reading, t: TypeDef, processed: set<string>, scan: ClassScan, p: PropertyDef)
    ensures ScanProperty(reading, t, processed, scan, p).Ok? <==> GetPropType(Referenced(reading, t, p)).Ok?
    ensures ScanProperty(reading, t, processed, scan, p).Ok? ==>
              var next := ScanProperty(reading, t, processed, scan, p).value;
              && next.imports == (if IsImported(reading, t, p)
                                  then AddImport(scan.imports, ImportStatement(GetImportName(Referenced(reading, t, p))))
                                  else scan.imports)
              && next.pending == (if IsImported(reading, t, p) && p.propertyType.fullName !in processed
                                  then scan.pending + [Referenced(reading, t, p)] else scan.pending)
              && next.lines == scan.lines + [MemberLine(reading, t, p)]
  {
  }

  lemma {:induction false} ScanSucceeds(reading: Reading, t: TypeDef, processed: set<string>, ps: seq<PropertyDef>)
    ensures Scan(reading, t, processed, ps).Ok? <==> AllTyped(reading, t, ps)
  {
    if |ps| > 0 {
      var init := ps[..|ps| - 1];
      var p := ps[|ps| - 1];
      ScanSucceeds(reading, t, processed, init);
      assert forall i :: 0 <= i < |init| ==> init[i] == ps[i];
      assert AllTyped(reading, t, ps) <==> AllTyped(reading, t, init) && GetPropType(Referenced(reading, t, p)).Ok?;
      if Scan(reading, t, processed, init).Ok? {
        ScanStep(reading, t, processed, Scan(reading, t, processed, init).value, p);
      }
    }
  }

  lemma {:induction false} ScanImports(reading: Reading, t: TypeDef, processed: set<string>, ps: seq<PropertyDef>)
    requires Scan(reading, t, processed, ps).Ok?
    ensures Scan(reading, t, processed, ps).value.imports == ImportBlock(Statements(ImportedNames(reading, t, ps)))
  {
    if |ps| > 0 {
      var init := ps[..|ps| - 1];
      var p := ps[|ps| - 1];
      var scan := Scan(reading, t, processed, init).value;
      ScanImports(reading, t, processed, init);
      ScanStep(reading, t, processed, scan, p);
      var names := ImportedNames(reading, t, init);
      if IsImported(reading, t, p) {
        var n := GetImportName(Referenced(reading, t, p));
        StatementsSnoc(names, n);
        ImportBlockSnoc(Statements(names), ImportStatement(n));
      } else {
        assert names + [] == names;
      }
    }
  }

  lemma {:induction false} ScanPending(reading: Reading, t: TypeDef, processed: set<string>, ps: seq<PropertyDef>)
    requires Scan(reading, t, processed, ps).Ok?
    ensures Scan(reading, t, processed, ps).value.pending == PendingTargets(reading, t, processed, ps)
  {
    if |ps| > 0 {
      var init := ps[..|ps| - 1];
      ScanPending(reading, t, processed, init);
      ScanStep(reading, t, processed, Scan(reading, t, processed, init).value, ps[|ps| - 1]);
    }
  }

  /** The member lines of `ps` extend those of its prefix by the last property's line. */
  lemma MemberLinesSnoc(reading: Reading, t: TypeDef, ps: seq<PropertyDef>)
    requires |ps| > 0 && AllTyped(reading, t, ps)
    ensures AllTyped(reading, t, ps[..|ps| - 1])
    ensures MemberLines(reading, t, ps)
            == MemberLines(reading, t, ps[..|ps| - 1]) + [MemberLine(reading, t, ps[|ps| - 1])]
  {
    var init := ps[..|ps| - 1];
    assert forall i :: 0 <= i < |init| ==> init[i] == ps[i];
    var a := MemberLines(reading, t, ps);
    var b := MemberLines(reading, t, init) + [MemberLine(reading, t, ps[|ps| - 1])];
    assert |a| == |b|;
    forall i | 0 <= i < |a|
      ensures a[i] == b[i]
    {
      if i < |init| {
        assert b[i] == MemberLines(reading, t, init)[i];
      }
    }
  }

  lemma {:induction false} ScanLines(reading: Reading, t: TypeDef, processed: set<string>, ps: seq<PropertyDef>)
    requires Scan(reading, t, processed, ps).Ok?
    requires AllTyped(reading, t, ps)
    ensures Scan(reading, t, processed, ps).value.lines == MemberLines(reading, t, ps)
  {
    if |ps| > 0 {
      var init := ps[..|ps| - 1];
      MemberLinesSnoc(reading, t, ps);
      ScanLines(reading, t, processed, init);
      ScanStep(reading, t, processed, Scan(reading, t, processed, init).value, ps[|ps| - 1]);
    }
  }

  /** The property loop computes, in one pass, the accumulated import block of the
      imported names, one member line per property, and the pending targets; it
      fails exactly when some consulted type makes `GetPropType` raise. */
  lemma ScanMeaning(reading: Reading, t: TypeDef, processed: set<string>, ps: seq<PropertyDef>)
    ensures Scan(reading, t, processed, ps).Ok? <==> AllTyped(reading, t, ps)
    ensures AllTyped(reading, t, ps) ==>
              && Scan(reading, t, processed, ps).value.imports
                 == ImportBlock(Statements(ImportedNames(reading, t, ps)))
              && Scan(reading, t, processed, ps).value.pending == PendingTargets(reading, t, processed, ps)
              && Scan(reading, t, processed, ps).value.lines == MemberLines(reading, t, ps)
  {
    ScanSucceeds(reading, t, processed, ps);
    if AllTyped(reading, t, ps) {
      ScanImports(reading, t, processed, ps);
      ScanPending(reading, t, processed, ps);
      ScanLines(reading, t, processed, ps);
    }
  }

  /** A name fit for every line the class variant writes about a type. */
  predicate Printable(r: TypeRef) {
    PlainName(r.name) && forall j :: 0 <= j < |r.genericParameters| ==> NoNewLine(r.genericParameters[j])
  }

  /** The names the class variant prints hold no line break, and consulted types
      are `Printable`. */
  predicate PrintableClass(reading: Reading, t: TypeDef) {
    && NoNewLine(t.ref.name)
    && forall i :: 0 <= i < |t.properties| ==>
         NoNewLine(t.properties[i].name) && Printable(Referenced(reading, t, t.properties[i]))
  }

  lemma ImportNamePlain(r: TypeRef)
    requires PlainName(r.name)
    ensures PlainName(GetImportName(r))
  {
    var n := GetImportName(r);
    ReplaceDrawsFrom(r.name, ArityMarker, "");
    forall i | 0 <= i < |n|
      ensures n[i] != ' ' && n[i] != '{' && n[i] != '\n'
    {
      assert n[i] in n;
    }
  }

  lemma ImportedNamesPlain(reading: Reading, t: TypeDef, ps: seq<PropertyDef>)
    requires forall i :: 0 <= i < |ps| ==> Printable(Referenced(reading, t, ps[i]))
    ensures forall i :: 0 <= i < |ImportedNames(reading, t, ps)| ==> PlainName(ImportedNames(reading, t, ps)[i])
  {
    if |ps| > 0 {
      var p := ps[|ps| - 1];
      ImportedNamesPlain(reading, t, ps[..|ps| - 1]);
      ImportNamePlain(Referenced(reading, t, p));
    }
  }

  /** The member type of a printable type holds no line break. */
  lemma PropTypeNoNewLine(r: TypeRef)
    requires GetPropType(r).Ok? && Printable(r)
    ensures NoNewLine(GetPropType(r).value.GetOr(""))
  {
    NoNewLinePreserved(r.name, ArityMarker, "");
    if |r.genericParameters| > 0 {
      var last := Last(r.genericParameters);
      assert NoNewLine(last);
      NoNewLineConcat(last, "[]");
      NoNewLineConcat(Replace(r.name, ArityMarker, ""), "<");
      NoNewLineConcat(Replace(r.name, ArityMarker, "") + "<", last);
      NoNewLineConcat(Replace(r.name, ArityMarker, "") + "<" + last, ">");
    }
  }

  lemma MemberLineNoNewLine(reading: Reading, t: TypeDef, p: PropertyDef)
    requires GetPropType(Referenced(reading, t, p)).Ok?
    requires NoNewLine(p.name) && Printable(Referenced(reading, t, p))
    ensures NoNewLine(MemberLine(reading, t, p))
  {
    var ty := GetPropType(Referenced(reading, t, p)).value.GetOr("");
    PropTypeNoNewLine(Referenced(reading, t, p));
    ToLowerIdempotent(p.name);
    NoNewLineConcat("   ", ToLower(p.name));
    NoNewLineConcat("   " + ToLower(p.name), ": ");
    NoNewLineConcat("   " + ToLower(p.name) + ": ", ty);
    NoNewLineConcat("   " + ToLower(p.name) + ": " + ty, ";");
  }

  /** The lines of the class variant's text, as an independent description. */
  function ClassLines(reading: Reading, t: TypeDef): seq<string>
    requires AllTyped(reading, t, t.properties)
  {
    Statements(Distinct(ImportedNames(reading, t, t.properties)))
    + InterfaceLines(t, MemberLines(reading, t, t.properties))
  }

  /** The import block followed (when not empty) by a line break and the body is
      the text of all lines, each terminated. */
  lemma ClassTextIsUnlines(reading: Reading, t: TypeDef, processed: set<string>)
    requires PrintableClass(reading, t)
    requires AllTyped(reading, t, t.properties)
    ensures ProcessClassWith(reading, t, processed).Ok?
    ensures ProcessClassWith(reading, t, processed).value.text == Unlines(ClassLines(reading, t))
  {
    var ps := t.properties;
    ScanMeaning(reading, t, processed, ps);
    var names := ImportedNames(reading, t, ps);
    ImportedNamesPlain(reading, t, ps);
    ImportBlockIsDistinctStatements(names);
    var d := Statements(Distinct(names));
    var b := InterfaceLines(t, MemberLines(reading, t, ps));
    assert Scan(reading, t, processed, ps).value.imports == Join(d);
    if |d| > 0 {
      JoinNonEmpty(d);
      JoinThenNewLine(d);
      UnlinesAppend(d, b);
    } else {
      assert d + b == b;
    }
  }

  lemma ImportLinesNoNewLine(reading: Reading, t: TypeDef)
    requires PrintableClass(reading, t)
    ensures forall i :: 0 <= i < |Statements(Distinct(ImportedNames(reading, t, t.properties)))| ==>
              NoNewLine(Statements(Distinct(ImportedNames(reading, t, t.properties)))[i])
  {
    var names := ImportedNames(reading, t, t.properties);
    ImportedNamesPlain(reading, t, t.properties);
    var d := Statements(Distinct(names));
    forall i | 0 <= i < |d|
      ensures NoNewLine(d[i])
    {
      assert Distinct(names)[i] in names;
    }
  }

  lemma BodyLinesNoNewLine(reading: Reading, t: TypeDef)
    requires PrintableClass(reading, t)
    requires AllTyped(reading, t, t.properties)
    ensures forall i :: 0 <= i < |InterfaceLines(t, MemberLines(reading, t, t.properties))| ==>
              NoNewLine(InterfaceLines(t, MemberLines(reading, t, t.properties))[i])
  {
    var ps := t.properties;
    var m := MemberLines(reading, t, ps);
    forall i | 0 <= i < |ps|
      ensures NoNewLine(m[i])
    {
      MemberLineNoNewLine(reading, t, ps[i]);
    }
    NoNewLinePreserved(t.ref.name, ArityMarker, "<T>");
    NoNewLineConcat("export interface ", GetDefinition(t.ref));
    NoNewLineConcat("export interface " + GetDefinition(t.ref), " {");
    var b := InterfaceLines(t, m);
    forall i | 0 <= i < |b|
      ensures NoNewLine(b[i])
    {
      if 2 <= i < 2 + |m| {
        assert b[i] == m[i - 2];
      }
    }
  }

  lemma ClassLinesNoNewLine(reading: Reading, t: TypeDef)
    requires PrintableClass(reading, t)
    requires AllTyped(reading, t, t.properties)
    ensures forall i :: 0 <= i < |ClassLines(reading, t)| ==> NoNewLine(ClassLines(reading, t)[i])
  {
    ImportLinesNoNewLine(reading, t);
    BodyLinesNoNewLine(reading, t);
    var d := Statements(Distinct(ImportedNames(reading, t, t.properties)));
    var b := InterfaceLines(t, MemberLines(reading, t, t.properties));
    forall i | 0 <= i < |d + b|
      ensures NoNewLine((d + b)[i])
    {
      if i < |d| {
        assert (d + b)[i] == d[i];
      } else {
        assert (d + b)[i] == b[i - |d|];
      }
    }
  }

  /** The class variant succeeds exactly when no consulted type makes `GetPropType`
      raise, and then reads back line by line as: one import statement per distinct
      imported name in first-seen order, a blank line, the interface header, one
      member line per property in order, and the closing brace. */
  lemma ClassTextLines(reading: Reading, t: TypeDef, processed: set<string>)
    requires PrintableClass(reading, t)
    ensures ProcessClassWith(reading, t, processed).Ok? <==> AllTyped(reading, t, t.properties)
    ensures AllTyped(reading, t, t.properties) ==>
              SplitLines(ProcessClassWith(reading, t, processed).value.text) == ClassLines(reading, t)
  {
    ScanMeaning(reading, t, processed, t.properties);
    if AllTyped(reading, t, t.properties) {
      ClassTextIsUnlines(reading, t, processed);
      ClassLinesNoNewLine(reading, t);
      SplitUnlines(ClassLines(reading, t));
    }
  }

  /** The class variant as corrected recurses only into other types not yet processed,
      each of which should be imported. */
  lemma {:induction false} CorrectedPendingAreOtherTypes(t: TypeDef, processed: set<string>, ps: seq<PropertyDef>)
    ensures forall i :: 0 <= i < |PendingTargets(Corrected, t, processed, ps)| ==>
              var q := PendingTargets(Corrected, t, processed, ps)[i];
              q.fullName != t.ref.fullName && q.fullName !in processed && ShouldImport(q)
  {
    if |ps| > 0 {
      CorrectedPendingAreOtherTypes(t, processed, ps[..|ps| - 1]);
    }
  }

  /** As written, every recursion request names the enclosing type itself, and every
      import statement imports the enclosing type. */
  lemma {:induction false} AsWrittenConsultsEnclosingType(t: TypeDef, processed: set<string>, ps: seq<PropertyDef>)
    ensures forall i :: 0 <= i < |PendingTargets(AsWritten, t, processed, ps)| ==>
              PendingTargets(AsWritten, t, processed, ps)[i] == t.ref
    ensures forall i :: 0 <= i < |ImportedNames(AsWritten, t, ps)| ==>
              ImportedNames(AsWritten, t, ps)[i] == GetImportName(t.ref)
  {
    if |ps| > 0 {
      AsWrittenConsultsEnclosingType(t, processed, ps[..|ps| - 1]);
    }
  }

  /** Re-entry: as written, a class emission that requests any recursion requests
      `ProcessType` on the very type being emitted, before that type is marked
      processed, so the request repeats the call it came from. */
  lemma AsWrittenRecursionReenters(t: TypeDef, processed: set<string>)
    requires ProcessClassAsWritten(t, processed).Ok?
    ensures forall i :: 0 <= i < |ProcessClassAsWritten(t, processed).value.pending| ==>
              ProcessClassAsWritten(t, processed).value.pending[i] == t.ref
  {
    ScanMeaning(AsWritten, t, processed, t.properties);
    AsWrittenConsultsEnclosingType(t, processed, t.properties);
  }

  /** A property whose type is the enclosing type adds neither an import nor a
      recursion request, whichever type the loop consults. */
  lemma SelfTypedPropertyAddsNoImport(reading: Reading, t: TypeDef, processed: set<string>,
                                      scan: ClassScan, p: PropertyDef)
    requires p.propertyType.fullName == t.ref.fullName
    requires ScanProperty(reading, t, processed, scan, p).Ok?
    ensures ScanProperty(reading, t, processed, scan, p).value.imports == scan.imports
    ensures ScanProperty(reading, t, processed, scan, p).value.pending == scan.pending
  {
  }

  /** As corrected, an imported property never makes `GetPropType` raise (an `IList`
      type is never imported), and its member type is null exactly when its type is
      neither string-like, nor numeric, nor generic: a non-generic interface or
      struct is imported but printed with an empty member type. */
  lemma ImportedMemberType(t: TypeDef, p: PropertyDef)
    requires IsImported(Corrected, t, p)
    ensures GetPropType(p.propertyType).Ok?
    ensures GetPropType(p.propertyType).value.None? <==>
              && p.propertyType.fullName !in StringLikeFullNames
              && p.propertyType.fullName !in NumberFullNames
              && |p.propertyType.genericParameters| == 0
    ensures GetPropType(p.propertyType).value.None? ==>
              MemberLine(Corrected, t, p) == "   " + ToLower(p.name) + ": ;"
  {
  }

  /** After the caches are cleared, no imported type is suppressed: every property
      that adds an import also asks for its type to be processed. */
  lemma {:induction false} ClearedCacheSuppressesNothing(c: Cache, reading: Reading, t: TypeDef, ps: seq<PropertyDef>)
    ensures forall i :: 0 <= i < |ps| && IsImported(reading, t, ps[i]) ==>
              Referenced(reading, t, ps[i]) in PendingTargets(reading, t, ClearCache(c).processed, ps)
  {
    if |ps| > 0 {
      var init := ps[..|ps| - 1];
      ClearedCacheSuppressesNothing(c, reading, t, init);
      assert forall i :: 0 <= i < |init| ==> init[i] == ps[i];
    }
  }
}
