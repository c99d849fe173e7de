/** The .NET string operations the generator relies on, over `seq<char>`. */
module Strings {

  /** `Environment.NewLine`, fixed to a line feed. */
  const NewLine: string := "\n"

  predicate IsPrefix(p: string, s: string) {
    |p| <= |s| && s[..|p|] == p
  }

  predicate IsSuffix(p: string, s: string) {
    |p| <= |s| && s[|s| - |p|..] == p
  }

  /** Ordinal `string.Contains(string)`: `n` occurs somewhere in `s`. */
  predicate Contains(s: string, n: string)
    decreases |s|
  {
    IsPrefix(n, s) || (|s| > 0 && Contains(s[1..], n))
  }

  predicate NoNewLine(s: string) {
    forall i :: 0 <= i < |s| ==> s[i] != '\n'
  }

  /** An occurrence at a known offset makes `s` contain `n`. */
  lemma {:induction false} ContainsAt(s: string, n: string, k: nat)
    requires k + |n| <= |s| && s[k..k + |n|] == n
    ensures Contains(s, n)
    decreases k
  {
    if k > 0 {
      assert s[1..][k - 1..k - 1 + |n|] == s[k..k + |n|];
      ContainsAt(s[1..], n, k - 1);
    }
  }

  /** Every containment has an offset where the occurrence starts. */
  lemma {:induction false} ContainsWitness(s: string, n: string) returns (k: nat)
    requires Contains(s, n)
    ensures k + |n| <= |s| && s[k..k + |n|] == n
    decreases |s|
  {
    if IsPrefix(n, s) {
      k := 0;
    } else {
      var j := ContainsWitness(s[1..], n);
      k := j + 1;
      assert s[1..][j..j + |n|] == s[k..k + |n|];
    }
  }

  /** A needle without a line feed that occurs in `a + NewLine + b` lies within `a` or within `b`. */
  lemma {:induction false} ContainsAcrossNewLine(a: string, b: string, n: string)
    requires NoNewLine(n)
    requires Contains(a + NewLine + b, n)
    ensures Contains(a, n) || Contains(b, n)
  {
    var s := a + NewLine + b;
    var k := ContainsWitness(s, n);
    forall p | k <= p < k + |n|
      ensures s[p] != '\n'
    {
      assert s[p] == n[p - k];
    }
    assert s[|a|] == '\n';
    if k + |n| <= |a| {
      assert a[k..k + |n|] == s[k..k + |n|];
      ContainsAt(a, n, k);
    } else {
      assert k > |a|;
      assert b[k - |a| - 1..k - |a| - 1 + |n|] == s[k..k + |n|];
      ContainsAt(b, n, k - |a| - 1);
    }
  }

  /** `a` and `b` are both contained in `a + NewLine + b`. */
  lemma ContainsEitherSide(a: string, b: string, n: string)
    requires Contains(a, n) || n == b
    ensures Contains(a + NewLine + b, n)
  {
    var s := a + NewLine + b;
    if n == b {
      assert s[|a| + 1..|a| + 1 + |n|] == b;
      ContainsAt(s, n, |a| + 1);
    } else {
      var k := ContainsWitness(a, n);
      assert s[k..k + |n|] == a[k..k + |n|];
      ContainsAt(s, n, k);
    }
  }

  /** Ordinal `string.Replace(pat, rep)`: every non-overlapping occurrence of `pat`,
      scanning left to right, is replaced by `rep`. */
  function Replace(s: string, pat: string, rep: string): (r: string)
    requires |pat| > 0
    ensures !Contains(s, pat) ==> r == s
    decreases |s|
  {
    if |s| == 0 then s
    else if IsPrefix(pat, s) then rep + Replace(s[|pat|..], pat, rep)
    else [s[0]] + Replace(s[1..], pat, rep)
  }

  /** Every character of a replacement's result comes from the text or from the
      replacement string. */
  lemma {:induction false} ReplaceDrawsFrom(s: string, pat: string, rep: string)
    requires |pat| > 0
    ensures forall c :: c in Replace(s, pat, rep) ==> c in s || c in rep
    decreases |s|
  {
    if |s| > 0 {
      if IsPrefix(pat, s) {
        ReplaceDrawsFrom(s[|pat|..], pat, rep);
        forall c | c in s[|pat|..]
          ensures c in s
        {
          var k :| 0 <= k < |s[|pat|..]| && s[|pat|..][k] == c;
          assert s[|pat| + k] == c;
        }
      } else {
        ReplaceDrawsFrom(s[1..], pat, rep);
        forall c | c in s[1..]
          ensures c in s
        {
          var k :| 0 <= k < |s[1..]| && s[1..][k] == c;
          assert s[1 + k] == c;
        }
      }
    }
  }

  /** The generic arity marker of a one-parameter generic type name, as in "List`1". */
  const ArityMarker: string := "`1"

  /** A name with no back-tick cannot contain the arity marker. */
  lemma {:induction false} NoBacktickNoMarker(x: string)
    requires '`' !in x
    ensures !Contains(x, ArityMarker)
    decreases |x|
  {
    if |x| > 0 {
      assert x[0] in x;
      assert '`' !in x[1..] by {
        forall i | 0 <= i < |x[1..]|
          ensures x[1..][i] != '`'
        {
          assert x[1..][i] == x[i + 1] && x[i + 1] in x;
        }
      }
      NoBacktickNoMarker(x[1..]);
      if |x| >= 2 {
        assert x[..2][0] == x[0];
      }
    }
  }

  /** When X holds no marker, "X`1" does not start with the marker and X's tail holds none. */
  lemma MarkerNotAtHead(x: string)
    requires |x| > 0 && !Contains(x, ArityMarker)
    ensures !IsPrefix(ArityMarker, x + ArityMarker)
    ensures !Contains(x[1..], ArityMarker)
  {
    var s := x + ArityMarker;
    if |x| >= 2 {
      assert s[..2] == x[..2];
    } else {
      assert s[1] == '`';
    }
  }

  /** Where the pattern does not start the text, `Replace` keeps the first character. */
  lemma ReplaceKeepsHead(s: string, pat: string, rep: string)
    requires |pat| > 0 && |s| > 0 && !IsPrefix(pat, s)
    ensures Replace(s, pat, rep) == [s[0]] + Replace(s[1..], pat, rep)
  {
  }

  lemma ReplaceMarkerAlone(rep: string)
    ensures Replace(ArityMarker, ArityMarker, rep) == rep
  {
    var s := ArityMarker;
    assert IsPrefix(ArityMarker, s);
    assert s[|ArityMarker|..] == [];
    assert rep + [] == rep;
  }

  /** Replacing the marker in "X`1", where X holds no marker, rewrites only the suffix. */
  lemma {:induction false} ReplaceMarkerSuffix(x: string, rep: string)
    requires !Contains(x, ArityMarker)
    ensures Replace(x + ArityMarker, ArityMarker, rep) == x + rep
    decreases |x|
  {
    var s := x + ArityMarker;
    if |x| == 0 {
      assert s == ArityMarker;
      ReplaceMarkerAlone(rep);
    } else {
      MarkerNotAtHead(x);
      ReplaceKeepsHead(s, ArityMarker, rep);
      var tail := x[1..];
      assert s[1..] == tail + ArityMarker;
      ReplaceMarkerSuffix(tail, rep);
      assert [s[0]] + (tail + rep) == ([x[0]] + tail) + rep;
      assert [x[0]] + tail == x;
    }
  }

  function LowerChar(c: char): char {
    if 'A' <= c <= 'Z' then (c as int + 32) as char else c
  }

  /** `string.ToLower()` restricted to ASCII letters. */
  function ToLower(s: string): (r: string)
    ensures |r| == |s|
    ensures forall i :: 0 <= i < |s| ==> !('A' <= r[i] <= 'Z')
    ensures forall i :: 0 <= i < |s| && !('A' <= s[i] <= 'Z') ==> r[i] == s[i]
    ensures forall i :: 0 <= i < |s| && 'A' <= s[i] <= 'Z' ==> r[i] as int == s[i] as int + 32
  {
    seq(|s|, i requires 0 <= i < |s| => LowerChar(s[i]))
  }

  lemma NoNewLineConcat(a: string, b: string)
    requires NoNewLine(a) && NoNewLine(b)
    ensures NoNewLine(a + b)
  {
    forall i | 0 <= i < |a + b|
      ensures (a + b)[i] != '\n'
    {
      if i < |a| {
        assert (a + b)[i] == a[i];
      } else {
        assert (a + b)[i] == b[i - |a|];
      }
    }
  }

  /** Lower-casing is idempotent and keeps a string free of line feeds. */
  lemma ToLowerIdempotent(s: string)
    ensures ToLower(ToLower(s)) == ToLower(s)
    ensures NoNewLine(s) ==> NoNewLine(ToLower(s))
  {
  }

  /** What a sequence of `StringBuilder.AppendLine(l)` calls produces. */
  function Unlines(ls: seq<string>): string {
    if |ls| == 0 then "" else ls[0] + NewLine + Unlines(ls[1..])
  }

  /** Lines joined by `NewLine` with no trailing separator. */
  function Join(ls: seq<string>): string {
    if |ls| == 0 then ""
    else if |ls| == 1 then ls[0]
    else Join(ls[..|ls| - 1]) + NewLine + ls[|ls| - 1]
  }

  /** Index of the first line feed of `s`, or `|s|` when there is none. */
  function LineEnd(s: string): (i: nat)
    ensures i <= |s|
    ensures i < |s| ==> s[i] == '\n'
    ensures forall j :: 0 <= j < i ==> s[j] != '\n'
    decreases |s|
  {
    if |s| == 0 || s[0] == '\n' then 0 else 1 + LineEnd(s[1..])
  }

  /** Reads text back as the lines it holds. */
  function SplitLines(s: string): seq<string>
    decreases |s|
  {
    if |s| == 0 then []
    else
      var i := LineEnd(s);
      if i == |s| then [s] else [s[..i]] + SplitLines(s[i + 1..])
  }

  lemma {:induction false} UnlinesAppend(a: seq<string>, b: seq<string>)
    ensures Unlines(a + b) == Unlines(a) + Unlines(b)
    decreases |a|
  {
    if |a| > 0 {
      assert (a + b)[0] == a[0];
      assert (a + b)[1..] == a[1..] + b;
      UnlinesAppend(a[1..], b);
    } else {
      assert a + b == b;
    }
  }

  /** Joining and terminating the last line gives the same text as appending each line. */
  lemma {:induction false} JoinThenNewLine(ls: seq<string>)
    requires |ls| > 0
    ensures Join(ls) + NewLine == Unlines(ls)
    decreases |ls|
  {
    if |ls| > 1 {
      var init := ls[..|ls| - 1];
      JoinThenNewLine(init);
      UnlinesAppend(init, [ls[|ls| - 1]]);
      assert init + [ls[|ls| - 1]] == ls;
    }
  }

  /** Splitting appended lines recovers them when none holds a line feed. */
  lemma {:induction false} SplitUnlines(ls: seq<string>)
    requires forall i :: 0 <= i < |ls| ==> NoNewLine(ls[i])
    ensures SplitLines(Unlines(ls)) == ls
    decreases |ls|
  {
    if |ls| > 0 {
      var l := ls[0];
      var rest := Unlines(ls[1..]);
      var s := l + NewLine + rest;
      assert s[|l|] == '\n';
      var i := LineEnd(s);
      assert i == |l|;
      assert s[..i] == l;
      assert s[i + 1..] == rest;
      SplitUnlines(ls[1..]);
      assert ls == [l] + ls[1..];
    }
  }
}
