/** The import block of one emitted interface: statements accumulated one per
    referenced type, skipping any statement the block already contains. */
module Imports {
  import opened Strings

  /** The statement importing `name` from its sibling module "./name". */
  function ImportStatement(name: string): string {
    "import { " + name + " } from \"./" + name + "\""
  }

  /** A name that cannot break the shape of a statement: no space, no opening
      brace, no line feed (every C# identifier qualifies). */
  predicate PlainName(n: string) {
    forall i :: 0 <= i < |n| ==> n[i] != ' ' && n[i] != '{' && n[i] != '\n'
  }

  /** One step of the accumulation: the first statement is taken as is, a later one
      is appended after a line break unless the block already contains it. */
  function AddImport(block: string, statement: string): string {
    if block == "" then block + statement
    else if !Contains(block, statement) then block + NewLine + statement
    else block
  }

  /** The block after adding each statement of `statements` in order. */
  function ImportBlock(statements: seq<string>): string {
    if |statements| == 0 then ""
    else AddImport(ImportBlock(statements[..|statements| - 1]), statements[|statements| - 1])
  }

  /** The statements importing each of `names`, in order. */
  function Statements(names: seq<string>): seq<string> {
    seq(|names|, i requires 0 <= i < |names| => ImportStatement(names[i]))
  }

  predicate NoDuplicates(xs: seq<string>) {
    forall i, j :: 0 <= i < j < |xs| ==> xs[i] != xs[j]
  }

  /** The distinct elements of `xs`, each kept where it is first seen. */
  function Distinct(xs: seq<string>): (r: seq<string>)
    ensures NoDuplicates(r)
    ensures forall x :: x in r <==> x in xs
  {
    if |xs| == 0 then []
    else
      var init := Distinct(xs[..|xs| - 1]);
      var x := xs[|xs| - 1];
      assert forall y :: y in xs <==> y in xs[..|xs| - 1] || y == x by {
        assert xs == xs[..|xs| - 1] + [x];
      }
      if x in init then init else init + [x]
  }

  /** Position of the first occurrence of `x` in `xs`. */
  function FirstIndex(xs: seq<string>, x: string): (i: nat)
    requires x in xs
    ensures i < |xs| && xs[i] == x
    ensures forall j :: 0 <= j < i ==> xs[j] != x
  {
    if xs[0] == x then 0 else 1 + FirstIndex(xs[1..], x)
  }

  lemma FirstIndexInPrefix(xs: seq<string>, y: string, x: string)
    requires x in xs
    ensures FirstIndex(xs + [y], x) == FirstIndex(xs, x)
  {
    var i := FirstIndex(xs, x);
    var k := FirstIndex(xs + [y], x);
    assert (xs + [y])[i] == x;
    assert k <= i;
    assert xs[k] == (xs + [y])[k];
  }

  /** `Distinct` keeps first-seen order: an element listed earlier was first
      seen earlier in the input. */
  lemma {:induction false} DistinctKeepsFirstSeenOrder(xs: seq<string>)
    ensures forall i, j :: 0 <= i < j < |Distinct(xs)|
              ==> FirstIndex(xs, Distinct(xs)[i]) < FirstIndex(xs, Distinct(xs)[j])
  {
    if |xs| > 0 {
      var init := xs[..|xs| - 1];
      var x := xs[|xs| - 1];
      var d := Distinct(init);
      DistinctKeepsFirstSeenOrder(init);
      assert xs == init + [x];
      forall y | y in d
        ensures FirstIndex(xs, y) == FirstIndex(init, y)
      {
        FirstIndexInPrefix(init, x, y);
      }
      if x !in d {
        assert FirstIndex(xs, x) == |init| by {
          assert forall j :: 0 <= j < |init| ==> xs[j] == init[j];
        }
        assert Distinct(xs) == d + [x];
      }
    }
  }

  /** The only opening brace of a statement for a plain name is its eighth character. */
  lemma BraceOnlyAtSeven(x: string)
    requires PlainName(x)
    ensures forall q :: 0 <= q < |ImportStatement(x)| && ImportStatement(x)[q] == '{' ==> q == 7
  {
    var line := ImportStatement(x);
    var mid := " } from \"./";
    assert line == "import { " + x + mid + x + "\"";
    assert '{' !in mid;
    forall q | 0 <= q < |line| && q != 7
      ensures line[q] != '{'
    {
      if q < 9 {
        assert line[q] == "import { "[q];
      } else if q < 9 + |x| {
        assert line[q] == x[q - 9];
      } else if q < 20 + |x| {
        assert line[q] == mid[q - 9 - |x|];
      } else if q < 20 + 2 * |x| {
        assert line[q] == x[q - 20 - |x|];
      } else {
        assert line[q] == '"';
      }
    }
  }

  /** In a statement for a plain name, the name runs from the tenth character
      up to the first space after it. */
  lemma NameEndsAtSpace(n: string)
    requires PlainName(n)
    ensures ImportStatement(n)[9 + |n|] == ' '
    ensures forall q :: 9 <= q < 9 + |n| ==> ImportStatement(n)[q] == n[q - 9] != ' '
  {
  }

  /** A statement for a plain name occurs inside the statement for another plain
      name only when the two names are the same. */
  lemma StatementOccursOnlyAsItself(x: string, a: string)
    requires PlainName(x) && PlainName(a)
    requires Contains(ImportStatement(x), ImportStatement(a))
    ensures a == x
  {
    var line := ImportStatement(x);
    var s := ImportStatement(a);
    var k := ContainsWitness(line, s);
    assert s[7] == '{';
    BraceOnlyAtSeven(x);
    assert line[k + 7] == s[7];
    assert k == 0;
    // The name ends at the first space after the brace, in both statements.
    assert line[..|s|] == s;
    NameEndsAtSpace(a);
    NameEndsAtSpace(x);
    assert |a| == |x|;
    assert a == s[9..9 + |a|] == line[9..9 + |x|] == x;
  }

  /** The block of the statements for distinct plain names contains the statement
      for a plain name exactly when that name is one of them. */
  lemma {:induction false} BlockContainsExactly(names: seq<string>, a: string)
    requires forall i :: 0 <= i < |names| ==> PlainName(names[i])
    requires PlainName(a)
    ensures Contains(Join(Statements(names)), ImportStatement(a)) <==> a in names
  {
    var s := ImportStatement(a);
    assert NoNewLine(s);
    if |names| == 0 {
      assert !Contains("", s);
    } else if |names| == 1 {
      var line := ImportStatement(names[0]);
      assert Join(Statements(names)) == line;
      if Contains(line, s) {
        StatementOccursOnlyAsItself(names[0], a);
      }
      if a == names[0] {
        assert line[0..|s|] == s;
        ContainsAt(line, s, 0);
      }
    } else {
      var init := names[..|names| - 1];
      var last := names[|names| - 1];
      var st := Statements(names);
      assert st[..|st| - 1] == Statements(init);
      var block := Join(Statements(init));
      assert Join(st) == block + NewLine + ImportStatement(last);
      BlockContainsExactly(init, a);
      assert names == init + [last];
      if Contains(Join(st), s) {
        ContainsAcrossNewLine(block, ImportStatement(last), s);
        if Contains(ImportStatement(last), s) {
          StatementOccursOnlyAsItself(last, a);
        }
      }
      if a in names {
        if a == last {
          ContainsEitherSide(block, ImportStatement(last), s);
        } else {
          assert a in init;
          ContainsEitherSide(block, ImportStatement(last), s);
        }
      }
    }
  }

  lemma JoinNonEmpty(ls: seq<string>)
    requires |ls| > 0 && ls[0] != ""
    ensures Join(ls) != ""
  {
    if |ls| == 1 {
      assert Join(ls) == ls[0];
    } else {
      assert |Join(ls)| >= |NewLine|;
    }
  }

  /** Appending one name appends its statement. */
  lemma StatementsSnoc(names: seq<string>, n: string)
    ensures Statements(names + [n]) == Statements(names) + [ImportStatement(n)]
  {
    var st := Statements(names + [n]);
    assert (names + [n])[..|names|] == names;
    assert st[..|st| - 1] == Statements(names);
  }

  /** Appending one statement is one accumulation step. */
  lemma ImportBlockSnoc(statements: seq<string>, s: string)
    ensures ImportBlock(statements + [s]) == AddImport(ImportBlock(statements), s)
  {
    assert (statements + [s])[..|statements|] == statements;
  }

  /** The first-seen deduplication extended by one name. */
  lemma DistinctSnoc(xs: seq<string>, x: string)
    ensures Distinct(xs + [x]) == (if x in Distinct(xs) then Distinct(xs) else Distinct(xs) + [x])
  {
    assert (xs + [x])[..|xs|] == xs;
  }

  predicate AllPlain(names: seq<string>) {
    forall i :: 0 <= i < |names| ==> PlainName(names[i])
  }

  /** Adding the statement for a name already listed leaves the block unchanged. */
  lemma AddSeenImport(d: seq<string>, x: string)
    requires AllPlain(d) && PlainName(x) && x in d
    ensures AddImport(Join(Statements(d)), ImportStatement(x)) == Join(Statements(d))
  {
    BlockContainsExactly(d, x);
    JoinNonEmpty(Statements(d));
  }

  /** Adding the statement for a new name appends it on its own line. */
  lemma AddNewImport(d: seq<string>, x: string)
    requires AllPlain(d) && PlainName(x) && x !in d
    ensures AddImport(Join(Statements(d)), ImportStatement(x)) == Join(Statements(d + [x]))
  {
    StatementsSnoc(d, x);
    if |d| == 0 {
      assert d + [x] == [x];
    } else {
      BlockContainsExactly(d, x);
      JoinNonEmpty(Statements(d));
      var st := Statements(d) + [ImportStatement(x)];
      assert st[..|st| - 1] == Statements(d);
    }
  }

  /** No duplicates, first-seen order: accumulating the statements for plain names
      yields one line per distinct name, in the order the names first appear. */
  lemma {:induction false} ImportBlockIsDistinctStatements(names: seq<string>)
    requires forall i :: 0 <= i < |names| ==> PlainName(names[i])
    ensures ImportBlock(Statements(names)) == Join(Statements(Distinct(names)))
  {
    if |names| > 0 {
      var init := names[..|names| - 1];
      var x := names[|names| - 1];
      assert names == init + [x];
      ImportBlockIsDistinctStatements(init);
      StatementsSnoc(init, x);
      ImportBlockSnoc(Statements(init), ImportStatement(x));
      DistinctSnoc(init, x);
      var d := Distinct(init);
      assert AllPlain(d) by {
        forall i | 0 <= i < |d|
          ensures PlainName(d[i])
        {
          assert d[i] in init;
        }
      }
      if x in d {
        AddSeenImport(d, x);
      } else {
        AddNewImport(d, x);
      }
    }
  }
}
