/**
 The text handleSerialResponse receives: how a delivery is cut into lines,
 and how the value of a LOAD line is read.
 */
module Inbound {
  import opened QtText
  import Seqs


  /** What one part contributes: its trimmed text, or nothing when that is empty. */
  function CleanPart(p: string): (ls: seq<string>)
    ensures |ls| <= 1
    ensures ls == [] <==> AllSpace(p)
    ensures ls != [] ==> ls[0] == Trim(p) && IsTrimmed(ls[0])
  {
    var t := Trim(p);
    assert AllSpace(p) ==> t == [] by { if AllSpace(p) { TrimAllSpace(p); } }
    assert t == [] ==> AllSpace(p) by { if t == [] { TrimEmptyIsSpace(p); } }
    if t == [] then [] else [t]
  }

  /** Each part trimmed, and the parts that are then empty skipped, in order. */
  function CleanLines(parts: seq<string>): (ls: seq<string>)
    ensures |ls| <= |parts|
    ensures forall i :: 0 <= i < |ls| ==> ls[i] != [] && IsTrimmed(ls[i])
    decreases |parts|
  {
    if |parts| == 0 then []
    else
      var head := CleanPart(parts[0]);
      var tail := CleanLines(parts[1..]);
      CleanConcat(head, tail);
      head + tail
  }

  /** Lines that are all non-empty and trimmed stay so when concatenated. */
  lemma CleanConcat(a: seq<string>, b: seq<string>)
    requires forall i :: 0 <= i < |a| ==> a[i] != [] && IsTrimmed(a[i])
    requires forall i :: 0 <= i < |b| ==> b[i] != [] && IsTrimmed(b[i])
    ensures forall i :: 0 <= i < |a + b| ==> (a + b)[i] != [] && IsTrimmed((a + b)[i])
  {
    forall i | 0 <= i < |a + b|
      ensures (a + b)[i] != [] && IsTrimmed((a + b)[i])
    {
      if i >= |a| { assert (a + b)[i] == b[i - |a|]; }
    }
  }

  lemma CleanLinesCons(p: string, rest: seq<string>)
    ensures CleanLines([p] + rest) == CleanPart(p) + CleanLines(rest)
  {
    Seqs.ConcatHeadTail([p], rest);
  }

  /** A single part gives its trimmed text, or nothing when that is empty. */
  lemma CleanLinesOne(p: string)
    ensures CleanLines([p]) == if Trim(p) == [] then [] else [Trim(p)]
  {
    Seqs.AppendEmpty(CleanPart(p));
  }

  /** Cleaning works part by part: the lines of a concatenation are the lines
      of the first half followed by those of the second. */
  lemma {:induction false} CleanLinesAppend(a: seq<string>, b: seq<string>)
    ensures CleanLines(a + b) == CleanLines(a) + CleanLines(b)
    decreases |a|
  {
    if |a| == 0 {
      Seqs.AppendEmpty(b);
    } else {
      Seqs.ConcatHeadTail(a, b);
      CleanLinesAppend(a[1..], b);
      Seqs.Assoc(CleanPart(a[0]), CleanLines(a[1..]), CleanLines(b));
    }
  }

  /** Parts of white space alone contribute nothing. */
  lemma {:induction false} CleanBlank(parts: seq<string>)
    requires forall i :: 0 <= i < |parts| ==> AllSpace(parts[i])
    ensures CleanLines(parts) == []
    decreases |parts|
  {
    if |parts| > 0 {
      assert AllSpace(parts[0]);
      CleanBlank(parts[1..]);
    }
  }

  /** Cleaning a list whose first part gets a white-space prefix gives the same lines. */
  lemma CleanGlueSpace(w: string, parts: seq<string>)
    requires |parts| >= 1 && AllSpace(w)
    ensures CleanLines(GlueFirst(w, parts)) == CleanLines(parts)
  {
    TrimPadded(w, parts[0], "");
    Seqs.AppendEmpty(w + parts[0]);
  }

  /** A leading newline gives an empty first part, which carries no line. */
  lemma CleanAfterBreak(s: string)
    ensures CleanLines(Split(['\n'] + s, '\n')) == CleanLines(Split(s, '\n'))
  {
    SplitAtSep(s, '\n');
    CleanLinesCons("", Split(s, '\n'));
    Seqs.AppendEmpty(CleanLines(Split(s, '\n')));
  }

  /** One leading white-space character, a newline or not, carries no line. */
  lemma LeadingSpaceChar(c: char, rest: string)
    requires IsSpace(c)
    ensures CleanLines(Split([c] + rest, '\n')) == CleanLines(Split(rest, '\n'))
  {
    if c == '\n' {
      CleanAfterBreak(rest);
    } else {
      SplitAtChar(c, rest, '\n');
      CleanGlueSpace([c], Split(rest, '\n'));
    }
  }

  /** Leading white space, newlines included, carries no line. */
  lemma {:induction false} LeadingSpaceLines(w: string, s: string)
    requires AllSpace(w)
    ensures CleanLines(Split(w + s, '\n')) == CleanLines(Split(s, '\n'))
    decreases |w|
  {
    if |w| > 0 {
      Seqs.ConcatHeadTail(w, s);
      Seqs.HeadTail(w + s);
      assert AllSpace(w[1..]) by {
        forall i | 0 <= i < |w[1..]|
          ensures IsSpace(w[1..][i])
        {
          assert w[1..][i] == w[i + 1];
        }
      }
      LeadingSpaceLines(w[1..], s);
      LeadingSpaceChar(w[0], w[1..] + s);
    } else {
      assert w == [];
      Seqs.AppendEmpty(s);
    }
  }

  /** Gluing nothing onto the first part changes nothing. */
  lemma GlueNothing(parts: seq<string>)
    requires |parts| >= 1
    ensures GlueFirst("", parts) == parts
  {
    Seqs.AppendEmpty(parts[0]);
    Seqs.HeadTail(parts);
  }

  /** Gluing twice is gluing the two texts together. */
  lemma GlueTwice(u: string, c: string, parts: seq<string>)
    requires |parts| >= 1
    ensures GlueFirst(u, GlueFirst(c, parts)) == GlueFirst(u + c, parts)
  {
    Seqs.Assoc(u, c, parts[0]);
  }

  /** Trailing white space, newlines included, carries no line, whatever
      text `u` has been glued to the start. */
  lemma {:induction false} TrailingSpaceLines(u: string, s: string, w: string)
    requires AllSpace(w)
    ensures CleanLines(GlueFirst(u, Split(s + w, '\n'))) == CleanLines(GlueFirst(u, Split(s, '\n')))
    decreases |s|
  {
    if |s| == 0 {
      Seqs.AppendEmpty(w);
      TrailingBlank(u, w);
    } else {
      var c := s[0];
      Seqs.ConcatHeadTail(s, w);
      Seqs.HeadTail(s + w);
      Seqs.HeadTail(s);
      if c == '\n' {
        TrailingSpaceLines("", s[1..], w);
        TrailingAfterBreak(u, s[1..], w);
      } else {
        SplitAtChar(c, s[1..] + w, '\n');
        SplitAtChar(c, s[1..], '\n');
        GlueTwice(u, [c], Split(s[1..] + w, '\n'));
        GlueTwice(u, [c], Split(s[1..], '\n'));
        TrailingSpaceLines(u + [c], s[1..], w);
      }
    }
  }

  /** The base case: `u` followed by white space gives `u`'s line alone. */
  lemma TrailingBlank(u: string, w: string)
    requires AllSpace(w)
    ensures CleanLines(GlueFirst(u, Split(w, '\n'))) == CleanLines(GlueFirst(u, Split("", '\n')))
  {
    var parts := Split(w, '\n');
    SplitSpace(w, '\n');
    TrimPadded("", u, parts[0]);
    Seqs.AppendEmpty(u);
    Seqs.AppendEmpty(u + parts[0]);
    CleanBlank(parts[1..]);
    CleanLinesCons(u + parts[0], parts[1..]);
    Seqs.AppendEmpty(CleanPart(u));
  }

  /** After a newline, `u` is a line of its own and the rest is cleaned alone. */
  lemma TrailingAfterBreak(u: string, s: string, w: string)
    requires CleanLines(GlueFirst("", Split(s + w, '\n'))) == CleanLines(GlueFirst("", Split(s, '\n')))
    ensures CleanLines(GlueFirst(u, Split(['\n'] + (s + w), '\n')))
         == CleanLines(GlueFirst(u, Split(['\n'] + s, '\n')))
  {
    var x := Split(s + w, '\n');
    var y := Split(s, '\n');
    SplitAtSep(s + w, '\n');
    SplitAtSep(s, '\n');
    GlueNothing(x);
    GlueNothing(y);
    Seqs.AppendEmpty(u);
    Seqs.ConcatHeadTail([""], x);
    Seqs.ConcatHeadTail([""], y);
    CleanLinesCons(u, x);
    CleanLinesCons(u, y);
  }

  /** The outer trim of handleSerialResponse changes nothing: cleaning the
      parts of the raw text gives the same lines. */
  lemma InboundIgnoresOuterTrim(data: string)
    ensures InboundLines(data) == CleanLines(Split(data, '\n'))
  {
    var t := Trim(data);
    var k := |data| - |TrimLeft(data)|;
    assert StripsMargins(data, t, k);
    Seqs.Slices(data, k, |t|);
    MarginLines(data[..k], t, data[k + |t|..]);
  }

  /** White-space margins on both sides of a text carry no line. */
  lemma MarginLines(w1: string, t: string, w2: string)
    requires AllSpace(w1) && AllSpace(w2)
    ensures CleanLines(Split(w1 + (t + w2), '\n')) == CleanLines(Split(t, '\n'))
  {
    LeadingSpaceLines(w1, t + w2);
    TrailingSpaceLines("", t, w2);
    GlueNothing(Split(t + w2, '\n'));
    GlueNothing(Split(t, '\n'));
  }

  /** The lines handleSerialResponse processes: the text trimmed, split on
      newline, each part trimmed, empty ones skipped. */
  function InboundLines(data: string): (ls: seq<string>)
    ensures forall i :: 0 <= i < |ls| ==> ls[i] != [] && IsTrimmed(ls[i])
  {
    CleanLines(Split(Trim(data), '\n'))
  }

  /** Lines already clean come through CleanLines unchanged. */
  lemma {:induction false} CleanLinesFixed(ls: seq<string>)
    requires forall i :: 0 <= i < |ls| ==> ls[i] != [] && IsTrimmed(ls[i])
    ensures CleanLines(ls) == ls
    decreases |ls|
  {
    if |ls| > 0 {
      TrimmedIsFixed(ls[0]);
      CleanLinesFixed(ls[1..]);
    }
  }

  /** Non-empty lines joined with newlines start and end with a line's own ends. */
  lemma {:induction false} JoinEnds(ls: seq<string>)
    requires |ls| > 0 && forall i :: 0 <= i < |ls| ==> ls[i] != []
    ensures |Join(ls, '\n')| > 0
    ensures Join(ls, '\n')[0] == ls[0][0]
    ensures Join(ls, '\n')[|Join(ls, '\n')| - 1] == ls[|ls| - 1][|ls[|ls| - 1]| - 1]
    decreases |ls|
  {
    if |ls| > 1 {
      JoinEnds(ls[1..]);
    }
  }

  /** Non-empty trimmed lines joined with newlines have no white space at either end. */
  lemma JoinIsTrimmed(ls: seq<string>)
    requires forall i :: 0 <= i < |ls| ==> ls[i] != [] && IsTrimmed(ls[i])
    ensures IsTrimmed(Join(ls, '\n'))
  {
    if |ls| > 0 {
      JoinEnds(ls);
      assert IsTrimmed(ls[0]) && IsTrimmed(ls[|ls| - 1]);
    }
  }

  /** Sending clean lines joined with newlines delivers exactly those lines, in order. */
  lemma InboundRoundTrip(ls: seq<string>)
    requires forall i :: 0 <= i < |ls| ==> ls[i] != [] && IsTrimmed(ls[i]) && '\n' !in ls[i]
    ensures InboundLines(Join(ls, '\n')) == ls
  {
    var text := Join(ls, '\n');
    JoinIsTrimmed(ls);
    TrimmedIsFixed(text);
    if |ls| > 0 {
      assert NoneContains(ls, '\n');
      SplitJoin(ls, '\n');
      CleanLinesFixed(ls);
    }
  }

  /** Parts that trim to given non-empty lines clean to exactly those lines. */
  lemma {:induction false} CleanTrimmedTo(parts: seq<string>, ls: seq<string>)
    requires |parts| == |ls|
    requires forall i :: 0 <= i < |ls| ==> ls[i] != [] && Trim(parts[i]) == ls[i]
    ensures CleanLines(parts) == ls
    decreases |parts|
  {
    if |parts| > 0 {
      assert Trim(parts[0]) == ls[0];
      CleanTrimmedTo(parts[1..], ls[1..]);
      Seqs.HeadTail(ls);
    }
  }

  /** Each line with the same white-space margins around it. */
  function Pad(ls: seq<string>, pre: string, post: string): (ps: seq<string>)
    ensures |ps| == |ls|
    ensures forall i :: 0 <= i < |ls| ==> ps[i] == pre + ls[i] + post
  {
    seq(|ls|, i requires 0 <= i < |ls| => pre + ls[i] + post)
  }

  /** Lines sent with white-space margins that hold no newline, such as a
      trailing carriage return or indentation, arrive as the bare lines. */
  lemma PaddedLinesDelivered(ls: seq<string>, pre: string, post: string)
    requires forall i :: 0 <= i < |ls| ==> ls[i] != [] && IsTrimmed(ls[i]) && '\n' !in ls[i]
    requires AllSpace(pre) && AllSpace(post) && '\n' !in pre && '\n' !in post
    ensures InboundLines(Join(Pad(ls, pre, post), '\n')) == ls
  {
    var parts := Pad(ls, pre, post);
    InboundIgnoresOuterTrim(Join(parts, '\n'));
    if |ls| == 0 {
      TrimmedIsFixed("");
    } else {
      forall i | 0 <= i < |ls|
        ensures Trim(parts[i]) == ls[i] && '\n' !in parts[i]
      {
        TrimPadded(pre, ls[i], post);
        TrimmedIsFixed(ls[i]);
      }
      assert NoneContains(parts, '\n');
      SplitJoin(parts, '\n');
      CleanTrimmedTo(parts, ls);
    }
  }

  /** Lines ended by CR LF arrive without the carriage return. */
  lemma CrLfLinesDelivered(ls: seq<string>)
    requires forall i :: 0 <= i < |ls| ==> ls[i] != [] && IsTrimmed(ls[i]) && '\n' !in ls[i]
    ensures InboundLines(Join(Pad(ls, "", "\r"), '\n')) == ls
  {
    PaddedLinesDelivered(ls, "", "\r");
  }

  /** Text of white space and newlines only carries no line. */
  lemma BlankCarriesNothing(data: string)
    requires AllSpace(data)
    ensures InboundLines(data) == []
  {
    TrimAllSpace(data);
    var parts := Split(Trim(data), '\n');
    assert parts == [""];
    TrimAllSpace(parts[0]);
    assert parts[1..] == [];
  }

  /** The value of a LOAD line: the field after the colon with one trailing '%' removed. */
  function LoadText(line: string): (t: string)
    ensures ':' !in t
    ensures EndsWith(Section1(line, ':'), "%") ==> t + "%" == Section1(line, ':')
    ensures !EndsWith(Section1(line, ':'), "%") ==> t == Section1(line, ':')
  {
    var field := Section1(line, ':');
    if EndsWith(field, "%") then
      assert field == field[..|field| - 1] + "%";
      field[..|field| - 1]
    else field
  }

  /** The value of a LOAD line is read with or without its trailing percent sign. */
  lemma LoadTextStripsPercent(x: string)
    requires ':' !in x
    ensures !EndsWith(x, "%") ==> LoadText("LOAD:" + x) == x
    ensures LoadText("LOAD:" + x + "%") == x
  {
    assert "LOAD:" + x == "LOAD" + [':'] + x;
    Section1LastField("LOAD", ':', x);
    assert "LOAD:" + x + "%" == "LOAD" + [':'] + (x + "%");
    Section1LastField("LOAD", ':', x + "%");
    assert (x + "%")[..|x|] == x;
  }

  /** The value stops at a second colon. */
  lemma LoadTextStopsAtColon(x: string, y: string)
    requires ':' !in x && !EndsWith(x, "%")
    ensures LoadText("LOAD:" + x + ":" + y) == x
  {
    assert "LOAD:" + x + ":" + y == "LOAD" + [':'] + x + [':'] + y;
    Section1MiddleField("LOAD", ':', x, y);
  }

  /** Of two trailing percent signs only the last is removed. */
  lemma LoadTextDoubledPercent(x: string)
    requires ':' !in x && !EndsWith(x, "%")
    ensures LoadText("LOAD:" + x + "%%") == x + "%"
  {
    assert "LOAD:" + x + "%%" == "LOAD:" + (x + "%") + "%";
    LoadTextStripsPercent(x + "%");
  }
}
