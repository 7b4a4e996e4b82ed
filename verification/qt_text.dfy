/**
 The QString operations the run controller relies on: `trimmed()`,
 `split(char)` (empty parts kept), `section(sep, 1, 1)`, `startsWith` and
 `endsWith`. Strings are sequences of Unicode scalar values.
 */
module QtText {

  /** QChar::isSpace: TAB..CR, NEL, and every Unicode separator (Zs, Zl, Zp). */
  predicate IsSpace(c: char) {
    || c == ' '
    || ('\t' <= c <= '\r')
    || c == '\U{0085}'
    || c == '\U{00A0}'
    || c == '\U{1680}'
    || ('\U{2000}' <= c <= '\U{200A}')
    || c == '\U{2028}'
    || c == '\U{2029}'
    || c == '\U{202F}'
    || c == '\U{205F}'
    || c == '\U{3000}'
  }

  predicate AllSpace(s: string) {
    forall i :: 0 <= i < |s| ==> IsSpace(s[i])
  }

  /** Neither end of `s` is white space. */
  predicate IsTrimmed(s: string) {
    s == [] || (!IsSpace(s[0]) && !IsSpace(s[|s| - 1]))
  }

  /** `t` is `s` with a white-space prefix and a white-space suffix removed. */
  predicate StripsMargins(s: string, t: string, k: int) {
    && 0 <= k <= |s| - |t|
    && s[k..k + |t|] == t
    && AllSpace(s[..k])
    && AllSpace(s[k + |t|..])
  }

  function TrimLeft(s: string): (r: string)
    ensures |r| <= |s| && r == s[|s| - |r|..]
    ensures r == [] || !IsSpace(r[0])
    ensures AllSpace(s[..|s| - |r|])
  {
    if |s| > 0 && IsSpace(s[0]) then
      var r := TrimLeft(s[1..]);
      assert s[..|s| - |r|] == [s[0]] + s[1..][..|s| - 1 - |r|];
      AllSpaceConcat([s[0]], s[1..][..|s| - 1 - |r|]);
      r
    else s
  }

  function TrimRight(s: string): (r: string)
    ensures |r| <= |s| && r == s[..|r|]
    ensures r == [] || !IsSpace(r[|r| - 1])
    ensures AllSpace(s[|r|..])
  {
    if |s| > 0 && IsSpace(s[|s| - 1]) then
      var init := s[..|s| - 1];
      var r := TrimRight(init);
      assert r == s[..|r|];
      assert s[|r|..] == init[|r|..] + [s[|s| - 1]];
      AllSpaceConcat(init[|r|..], [s[|s| - 1]]);
      r
    else s
  }

  /** QString::trimmed: removes white space from both ends, nothing else. */
  function Trim(s: string): (r: string)
    ensures IsTrimmed(r)
    ensures StripsMargins(s, r, |s| - |TrimLeft(s)|)
  {
    MarginsCompose(s, TrimLeft(s), TrimRight(TrimLeft(s)));
    TrimRight(TrimLeft(s))
  }

  /** A prefix of a suffix sits in the middle, and what follows it is the rest of the suffix. */
  lemma MarginsCompose(s: string, l: string, r: string)
    requires |l| <= |s| && l == s[|s| - |l|..]
    requires |r| <= |l| && r == l[..|r|]
    requires r == [] || !IsSpace(r[|r| - 1])
    requires l == [] || !IsSpace(l[0])
    requires AllSpace(s[..|s| - |l|]) && AllSpace(l[|r|..])
    ensures IsTrimmed(r)
    ensures StripsMargins(s, r, |s| - |l|)
  {
    var k := |s| - |l|;
    if r != [] { assert r[0] == l[0]; }
    assert s[k..k + |r|] == r;
    assert s[k + |r|..] == l[|r|..];
  }

  /** A string of white space only trims to nothing. */
  lemma {:induction false} TrimAllSpace(s: string)
    requires AllSpace(s)
    ensures TrimLeft(s) == [] && Trim(s) == []
    decreases |s|
  {
    if |s| > 0 {
      TrimAllSpace(s[1..]);
    }
  }

  /** Only white space trims to nothing. */
  lemma TrimEmptyIsSpace(s: string)
    requires Trim(s) == []
    ensures AllSpace(s)
  {
    var k := |s| - |TrimLeft(s)|;
    SpaceBefore(s, k);
    SpaceFrom(s, k);
  }

  /** Trimming a string whose ends are not white space changes nothing. */
  lemma TrimmedIsFixed(s: string)
    requires IsTrimmed(s)
    ensures Trim(s) == s
  {
  }

  lemma TrimIdempotent(s: string)
    ensures Trim(Trim(s)) == Trim(s)
  {
    TrimmedIsFixed(Trim(s));
  }

  /** Every index below `a` holds white space when the first `a` characters are white space. */
  lemma SpaceBefore(s: string, a: int)
    requires 0 <= a <= |s| && AllSpace(s[..a])
    ensures forall i :: 0 <= i < a ==> IsSpace(s[i])
  {
    forall i | 0 <= i < a
      ensures IsSpace(s[i])
    {
      assert s[..a][i] == s[i];
    }
  }

  /** Every index from `a` on holds white space when the rest from `a` is white space. */
  lemma SpaceFrom(s: string, a: int)
    requires 0 <= a <= |s| && AllSpace(s[a..])
    ensures forall i :: a <= i < |s| ==> IsSpace(s[i])
  {
    forall i | a <= i < |s|
      ensures IsSpace(s[i])
    {
      assert s[a..][i - a] == s[i];
    }
  }

  /** The trimmed core is unique: any trimmed `t` that `s` holds between
      white-space margins is what `trimmed()` returns. */
  lemma TrimUnique(s: string, t: string, k: int)
    requires IsTrimmed(t) && StripsMargins(s, t, k)
    ensures Trim(s) == t
  {
    if t == [] {
      SpaceBefore(s, k);
      SpaceFrom(s, k);
      TrimAllSpace(s);
    } else {
      MarginsUnique(s, t, k, Trim(s), |s| - |TrimLeft(s)|);
    }
  }

  /** A non-empty trimmed core between white-space margins is the only
      trimmed text held between such margins. */
  lemma MarginsUnique(s: string, t: string, k: int, r: string, j: int)
    requires t != [] && IsTrimmed(t) && StripsMargins(s, t, k)
    requires IsTrimmed(r) && StripsMargins(s, r, j)
    ensures t == r
  {
    SpaceBefore(s, k);
    SpaceFrom(s, k + |t|);
    SpaceBefore(s, j);
    SpaceFrom(s, j + |r|);
    assert s[k] == t[0] && s[k + |t| - 1] == t[|t| - 1];
    assert j <= k < j + |r|;
    assert s[j] == r[0] && s[j + |r| - 1] == r[|r| - 1];
    assert j == k && |r| == |t|;
  }

  lemma AllSpaceConcat(a: string, b: string)
    requires AllSpace(a) && AllSpace(b)
    ensures AllSpace(a + b)
  {
    forall i | 0 <= i < |a + b|
      ensures IsSpace((a + b)[i])
    {
      if i >= |a| { assert (a + b)[i] == b[i - |a|]; }
    }
  }

  /** Margins of white space stay margins when more white space is added
      around them, so the trimmed core is still what `trimmed()` returns. */
  lemma WidenMargins(w1: string, p: string, w2: string, t: string, k: int)
    requires AllSpace(w1) && AllSpace(w2) && IsTrimmed(t) && StripsMargins(p, t, k)
    ensures Trim(w1 + p + w2) == t
  {
    var s := w1 + p + w2;
    var k2 := |w1| + k;
    assert s[..k2] == w1 + p[..k];
    AllSpaceConcat(w1, p[..k]);
    assert s[k2 + |t|..] == p[k + |t|..] + w2;
    AllSpaceConcat(p[k + |t|..], w2);
    assert s[k2..k2 + |t|] == p[k..k + |t|];
    TrimUnique(s, t, k2);
  }

  /** White space added around a text does not change what it trims to. */
  lemma TrimPadded(w1: string, p: string, w2: string)
    requires AllSpace(w1) && AllSpace(w2)
    ensures Trim(w1 + p + w2) == Trim(p)
  {
    WidenMargins(w1, p, w2, Trim(p), |p| - |TrimLeft(p)|);
  }

  /** Parts joined with `sep` between each neighbouring pair (QStringList::join). */
  function Join(parts: seq<string>, sep: char): string
  {
    if |parts| == 0 then ""
    else if |parts| == 1 then parts[0]
    else parts[0] + [sep] + Join(parts[1..], sep)
  }

  predicate NoneContains(parts: seq<string>, c: char) {
    forall i :: 0 <= i < |parts| ==> c !in parts[i]
  }

  /** QString::split(sep) with empty parts kept: "" splits into [""]. */
  function Split(s: string, sep: char): (parts: seq<string>)
    ensures |parts| >= 1
    ensures NoneContains(parts, sep)
    ensures Join(parts, sep) == s
  {
    if |s| == 0 then [""]
    else
      var rest := Split(s[1..], sep);
      if s[0] == sep then
        assert Join([""] + rest, sep) == [sep] + Join(rest, sep) by {
          assert ([""] + rest)[1..] == rest;
        }
        [""] + rest
      else
        var parts := [[s[0]] + rest[0]] + rest[1..];
        assert Join(parts, sep) == [s[0]] + Join(rest, sep) by {
          if |rest| > 1 {
            assert parts[1..] == rest[1..];
          }
        }
        parts
  }

  /** Splitting the join of separator-free parts gives the parts back. */
  lemma {:induction false} SplitJoin(parts: seq<string>, sep: char)
    requires |parts| >= 1
    requires NoneContains(parts, sep)
    ensures Split(Join(parts, sep), sep) == parts
    decreases |parts|, |parts[0]|
  {
    if |parts[0]| > 0 {
      var p := parts[0];
      var tail := [p[1..]] + parts[1..];
      assert tail[1..] == parts[1..];
      SplitJoin(tail, sep);
      var s := Join(parts, sep);
      assert s[0] == p[0] && s[0] != sep;
      assert s[1..] == Join(tail, sep) by {
        if |parts| > 1 {
          assert s == p + [sep] + Join(parts[1..], sep);
        }
      }
      assert [p[0]] + p[1..] == p;
    } else if |parts| > 1 {
      var s := Join(parts, sep);
      assert s == [sep] + Join(parts[1..], sep);
      assert s[1..] == Join(parts[1..], sep);
      SplitJoin(parts[1..], sep);
      assert [""] + parts[1..] == parts;
    }
  }

  /** `u` prepended to the first of `parts`. */
  function GlueFirst(u: string, parts: seq<string>): (r: seq<string>)
    requires |parts| >= 1
    ensures |r| == |parts| && r[0] == u + parts[0] && r[1..] == parts[1..]
  {
    [u + parts[0]] + parts[1..]
  }

  /** Splitting a text that starts with the separator gives an empty first part. */
  lemma SplitAtSep(s: string, sep: char)
    ensures Split([sep] + s, sep) == [""] + Split(s, sep)
  {
    assert ([sep] + s)[1..] == s;
  }

  /** Any other first character joins the first part. */
  lemma SplitAtChar(c: char, s: string, sep: char)
    requires c != sep
    ensures Split([c] + s, sep) == GlueFirst([c], Split(s, sep))
  {
    assert ([c] + s)[1..] == s;
  }

  /** The parts of white space are white space. */
  lemma {:induction false} SplitSpace(w: string, sep: char)
    requires AllSpace(w)
    ensures forall i :: 0 <= i < |Split(w, sep)| ==> AllSpace(Split(w, sep)[i])
    decreases |w|
  {
    if |w| > 0 {
      var rest := Split(w[1..], sep);
      SplitSpace(w[1..], sep);
      if w[0] != sep {
        AllSpaceConcat([w[0]], rest[0]);
      }
    }
  }

  /** A string with no separator in it splits into itself alone. */
  lemma SplitWithoutSep(s: string, sep: char)
    requires sep !in s
    ensures Split(s, sep) == [s]
  {
    SplitJoin([s], sep);
  }

  /** The first separator ends the first part; the rest splits on its own. */
  lemma {:induction false} SplitCons(a: string, sep: char, rest: string)
    requires sep !in a
    ensures Split(a + [sep] + rest, sep) == [a] + Split(rest, sep)
  {
    var parts := [a] + Split(rest, sep);
    assert parts[1..] == Split(rest, sep);
    assert Join(parts, sep) == a + [sep] + rest;
    SplitJoin(parts, sep);
  }

  /** QString::section(sep, 1, 1): the field between the first and the second
      separator (or the end), and "" when there is no separator. */
  function Section1(s: string, sep: char): (r: string)
    ensures sep !in r
    ensures sep !in s ==> r == ""
  {
    var fields := Split(s, sep);
    assert sep !in s ==> fields == [s] by {
      if sep !in s { SplitWithoutSep(s, sep); }
    }
    if |fields| > 1 then fields[1] else ""
  }

  /** The section is the text after the first separator when there is no second one. */
  lemma Section1LastField(a: string, sep: char, b: string)
    requires sep !in a && sep !in b
    ensures Section1(a + [sep] + b, sep) == b
  {
    SplitCons(a, sep, b);
    SplitWithoutSep(b, sep);
  }

  /** The section stops at the second separator. */
  lemma Section1MiddleField(a: string, sep: char, b: string, c: string)
    requires sep !in a && sep !in b
    ensures Section1(a + [sep] + b + [sep] + c, sep) == b
  {
    assert a + [sep] + b + [sep] + c == a + [sep] + (b + [sep] + c);
    SplitCons(a, sep, b + [sep] + c);
    SplitCons(b, sep, c);
  }

  predicate StartsWith(s: string, prefix: string)
    ensures StartsWith(s, prefix) ==> |prefix| <= |s| && s == prefix + s[|prefix|..]
  {
    |prefix| <= |s| && s[..|prefix|] == prefix
  }

  /** A text starts with whatever was written in front of it. */
  lemma StartsWithPrefix(prefix: string, rest: string)
    ensures StartsWith(prefix + rest, prefix)
  {
    assert (prefix + rest)[..|prefix|] == prefix;
  }

  lemma DiffersAtStart(s: string, prefix: string)
    requires |s| > 0 && |prefix| > 0 && s[0] != prefix[0]
    ensures !StartsWith(s, prefix)
  {
    if |prefix| <= |s| {
      assert s[..|prefix|][0] == s[0];
    }
  }

  predicate EndsWith(s: string, suffix: string)
    ensures EndsWith(s, suffix) ==> |suffix| <= |s| && s == s[..|s| - |suffix|] + suffix
  {
    |suffix| <= |s| && s[|s| - |suffix|..] == suffix
  }

  /** A text ends with whatever was written after it. */
  lemma EndsWithSuffix(rest: string, suffix: string)
    ensures EndsWith(rest + suffix, suffix)
  {
    assert (rest + suffix)[|rest|..] == suffix;
  }
}
