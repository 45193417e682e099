/** The string operations the scanner and the configuration writer rely on.
    A Go string is a byte sequence; here every char stands for one byte. */
module Text {
  import opened Wrappers

  // The class \s of Go's regexp package.
  predicate IsSpace(c: char) {
    c == ' ' || c == '\t' || c == '\n' || c == '\U{000c}' || c == '\r'
  }

  // The end of the longest match of \s* at p.
  function SpaceEnd(o: string, p: nat): (q: nat)
    requires p <= |o|
    ensures p <= q <= |o|
    ensures q < |o| ==> !IsSpace(o[q])
    decreases |o| - p
  {
    if p == |o| || !IsSpace(o[p]) then p else SpaceEnd(o, p + 1)
  }

  // The position of the first newline at or after p, or the end of o.
  function LineEnd(o: string, p: nat): (q: nat)
    requires p <= |o|
    ensures p <= q <= |o|
    ensures q < |o| ==> o[q] == '\n'
    decreases |o| - p
  {
    if p == |o| || o[p] == '\n' then p else LineEnd(o, p + 1)
  }

  predicate LineStart(o: string, p: nat) {
    p <= |o| && (p == 0 || o[p - 1] == '\n')
  }

  // Only white space is left from p on.
  predicate BlankFrom(o: string, p: nat)
    requires p <= |o|
  {
    SpaceEnd(o, p) == |o|
  }

  // The first line of o from p on that is not blank, stripped on the left.
  function LineAt(o: string, p: nat): string
    requires p <= |o|
  {
    o[SpaceEnd(o, p)..LineEnd(o, SpaceEnd(o, p))]
  }

  // The position after that line and its newline.
  function Next(o: string, p: nat): (q: nat)
    requires p <= |o|
    ensures p <= q <= |o|
    ensures p < |o| ==> p < q
    ensures LineStart(o, q) || q == |o|
  {
    var end := LineEnd(o, SpaceEnd(o, p));
    if end < |o| then end + 1 else end
  }

  // The lines of o from p on that are not blank, each stripped on the left.
  function LinesFrom(o: string, p: nat): seq<string>
    requires p <= |o|
    decreases |o| - p
  {
    if BlankFrom(o, p) then [] else [LineAt(o, p)] + LinesFrom(o, Next(o, p))
  }

  function Lines(o: string): seq<string> {
    LinesFrom(o, 0)
  }

  // a is the part of o that starts at x.
  predicate PartOf(a: string, o: string, x: nat) {
    x + |a| <= |o| && forall i :: 0 <= i < |a| ==> a[i] == o[x + i]
  }

  // The lines of a part of a text that stops at a line boundary come before
  // the lines after it.
  lemma {:induction false} PartLines(a: string, o: string, x: nat, p: nat)
    requires PartOf(a, o, x) && p <= |a|
    requires LineStart(o, x + |a|) || x + |a| == |o|
    ensures LinesFrom(o, x + p) == LinesFrom(a, p) + LinesFrom(o, x + |a|)
    decreases |a| - p
  {
    hide SpaceEnd, LineEnd, LinesFrom, LineAt, Next;
    if SpaceEnd(o, x + p) >= x + |a| {
      PartRest(a, o, x, p);
    } else {
      PartStep(a, o, x, p);
      PartLines(a, o, x, Next(a, p));
      LinesStep(a, p);
      LinesStep(o, x + p);
      ConsConcat(LineAt(a, p), LinesFrom(a, Next(a, p)), LinesFrom(o, x + |a|));
    }
  }

  lemma LinesStep(o: string, p: nat)
    requires p <= |o| && !BlankFrom(o, p)
    ensures LinesFrom(o, p) == [LineAt(o, p)] + LinesFrom(o, Next(o, p))
  {
  }

  lemma ConsConcat<T>(first: T, s: seq<T>, t: seq<T>)
    ensures [first] + (s + t) == [first] + s + t
  {
  }

  lemma PartSpaceEnd(a: string, o: string, x: nat, p: nat)
    requires PartOf(a, o, x) && p <= |a|
    ensures SpaceEnd(a, p) == if SpaceEnd(o, x + p) <= x + |a| then SpaceEnd(o, x + p) - x else |a|
    decreases |a| - p
  {
    if p < |a| && IsSpace(a[p]) {
      PartSpaceEnd(a, o, x, p + 1);
    }
  }

  lemma PartLineEnd(a: string, o: string, x: nat, p: nat)
    requires PartOf(a, o, x) && p <= |a|
    ensures LineEnd(a, p) == if LineEnd(o, x + p) <= x + |a| then LineEnd(o, x + p) - x else |a|
    decreases |a| - p
  {
    if p < |a| && a[p] != '\n' {
      PartLineEnd(a, o, x, p + 1);
    }
  }

  lemma SpaceEndInside(o: string, p: nat, q: nat)
    requires p <= q <= |o| && q <= SpaceEnd(o, p)
    ensures SpaceEnd(o, q) == SpaceEnd(o, p)
    decreases q - p
  {
    if p < q {
      SpaceEndInside(o, p + 1, q);
    }
  }

  lemma LineEndBefore(o: string, p: nat, q: nat)
    requires p <= q < |o| && o[q] == '\n'
    ensures LineEnd(o, p) <= q
    decreases q - p
  {
    if p < q {
      LineEndBefore(o, p + 1, q);
    }
  }

  lemma PartRest(a: string, o: string, x: nat, p: nat)
    requires PartOf(a, o, x) && p <= |a|
    requires SpaceEnd(o, x + p) >= x + |a|
    ensures LinesFrom(a, p) == []
    ensures LinesFrom(o, x + p) == LinesFrom(o, x + |a|)
  {
    PartSpaceEnd(a, o, x, p);
    SpaceEndInside(o, x + p, x + |a|);
    SameLines(o, x + p, x + |a|);
  }

  lemma SameLines(o: string, p: nat, q: nat)
    requires p <= |o| && q <= |o| && SpaceEnd(o, p) == SpaceEnd(o, q)
    ensures LinesFrom(o, p) == LinesFrom(o, q)
  {
    assert LineAt(o, p) == LineAt(o, q) && Next(o, p) == Next(o, q);
  }

  lemma PartStep(a: string, o: string, x: nat, p: nat)
    requires PartOf(a, o, x) && p <= |a|
    requires LineStart(o, x + |a|) || x + |a| == |o|
    requires SpaceEnd(o, x + p) < x + |a|
    ensures !BlankFrom(a, p) && !BlankFrom(o, x + p)
    ensures LineAt(o, x + p) == LineAt(a, p)
    ensures Next(o, x + p) == x + Next(a, p)
  {
    var w := SpaceEnd(o, x + p);
    PartSpaceEnd(a, o, x, p);
    PartLineEnd(a, o, x, w - x);
    if x + |a| < |o| {
      LineEndBefore(o, w, x + |a| - 1);
    }
    PartSlice(a, o, x, w - x, LineEnd(a, w - x));
  }

  lemma PartSlice(a: string, o: string, x: nat, i: nat, j: nat)
    requires PartOf(a, o, x) && i <= j <= |a|
    ensures a[i..j] == o[x + i..x + j]
  {
    var b := o[x + i..x + j];
    forall k | 0 <= k < j - i
      ensures a[i..j][k] == b[k]
    {
      assert a[i..j][k] == a[i + k] == o[x + (i + k)];
    }
  }

  lemma NoLinesAtEnd(o: string)
    ensures LinesFrom(o, |o|) == []
  {
  }

  predicate EndsLine(s: string) {
    s == "" || s[|s| - 1] == '\n'
  }

  // Text that ends a line can be read on its own.
  lemma LinesConcat(x: string, y: string)
    requires EndsLine(x)
    ensures Lines(x + y) == Lines(x) + Lines(y)
  {
    hide LinesFrom;
    var o := x + y;
    assert LinesFrom(o, 0) == LinesFrom(x, 0) + LinesFrom(o, |x|) by {
      assert LineStart(o, |x|);
      PartLines(x, o, 0, 0);
    }
    assert LinesFrom(o, |x|) == LinesFrom(y, 0) + LinesFrom(o, |o|) by {
      PartLines(y, o, |x|, 0);
    }
    NoLinesAtEnd(o);
  }

  predicate NoNewlines(lines: seq<string>) {
    forall i :: 0 <= i < |lines| ==> '\n' !in lines[i]
  }

  lemma LineHasNoNewline(o: string, p: nat)
    requires p <= |o|
    ensures '\n' !in o[p..LineEnd(o, p)]
    decreases |o| - p
  {
    if p < |o| && o[p] != '\n' {
      LineHasNoNewline(o, p + 1);
      assert o[p..LineEnd(o, p)] == [o[p]] + o[p + 1..LineEnd(o, p)];
    }
  }

  lemma {:induction false} LinesHaveNoNewline(o: string, p: nat)
    requires p <= |o|
    ensures NoNewlines(LinesFrom(o, p))
    decreases |o| - p
  {
    if !BlankFrom(o, p) {
      LineHasNoNewline(o, SpaceEnd(o, p));
      LinesHaveNoNewline(o, Next(o, p));
    }
  }

  predicate Blank(s: string) {
    BlankFrom(s, 0)
  }

  function StripLeft(s: string): string {
    s[SpaceEnd(s, 0)..]
  }

  lemma LineEndIs(o: string, p: nat, q: nat)
    requires p <= q <= |o| && '\n' !in o[p..q]
    requires q < |o| ==> o[q] == '\n'
    ensures LineEnd(o, p) == q
    decreases q - p
  {
    if p < q {
      assert o[p] == o[p..q][0];
      assert o[p + 1..q] == o[p..q][1..];
      LineEndIs(o, p + 1, q);
    }
  }

  lemma LinesOfLine(u: string)
    requires '\n' !in u
    ensures Lines(u + "\n") == if Blank(u) then [] else [StripLeft(u)]
  {
    var o := u + "\n";
    var w := SpaceEnd(u, 0);
    PartSpaceEnd(u, o, 0, 0);
    if w == |u| {
      SpaceEndInside(o, 0, |u|);
    } else {
      assert o[w..|u|] == u[w..];
      LineEndIs(o, w, |u|);
      assert LinesFrom(o, 0) == [LineAt(o, 0)] + LinesFrom(o, |o|);
    }
  }

  lemma SpaceIff(c: char)
    ensures IsSpace(c) <==> c in " \t\n\r\U{000c}"
  {
    var white := " \t\n\r\U{000c}";
    assert c in white <==> c == white[0] || c == white[1] || c == white[2] || c == white[3] || c == white[4];
  }

  lemma OneSpace(c: char, o: string)
    requires IsSpace(c)
    ensures Lines([c] + o) == Lines(o)
  {
    hide LinesFrom;
    var s := [c] + o;
    SpaceEndInside(s, 0, 1);
    SameLines(s, 0, 1);
    PartLines(o, s, 1, 0);
    NoLinesAtEnd(s);
  }

  // White space in front of a line, empty lines included, does not matter.
  lemma {:induction false} LinesOfSpace(white: string, o: string)
    requires forall i :: 0 <= i < |white| ==> white[i] in " \t\n\r\U{000c}"
    ensures Lines(white + o) == Lines(o)
  {
    hide Lines;
    if white == "" {
      assert white + o == o;
    } else {
      SpaceIff(white[0]);
      OneSpace(white[0], white[1..] + o);
      assert [white[0]] + (white[1..] + o) == white + o;
      LinesOfSpace(white[1..], o);
    }
  }

  // Any other line is kept as it is, and nothing else is found.
  lemma LinesOfText(line: string, o: string)
    requires line != "" && '\n' !in line && line[0] !in " \t\n\r\U{000c}"
    ensures Lines(line + "\n" + o) == [line] + Lines(o)
    ensures Lines(line) == [line]
    ensures Lines("") == []
  {
    SpaceIff(line[0]);
    KeptLine(line);
    LinesConcat(line + "\n", o);
  }

  lemma KeptLine(line: string)
    requires line != "" && '\n' !in line && !IsSpace(line[0])
    ensures Lines(line + "\n") == [line] && Lines(line) == [line]
  {
    assert SpaceEnd(line, 0) == 0 && line[0..] == line;
    LinesOfLine(line);
    assert line[0..|line|] == line;
    LineEndIs(line, 0, |line|);
    LinesStep(line, 0);
    NoLinesAtEnd(line);
  }

  // strings.Split(s, ":")[1]; None when there is no second field, in which
  // case the index is out of range and the program panics.
  function SecondField(s: string): Option<string> {
    if s == "" then None
    else if s[0] == ':' then Some(UpToColon(s[1..]))
    else SecondField(s[1..])
  }

  function UpToColon(s: string): (t: string)
    ensures ':' !in t
    ensures t <= s
    ensures ':' !in s ==> t == s
  {
    if s == "" || s[0] == ':' then "" else [s[0]] + UpToColon(s[1..])
  }

  lemma {:induction false} SecondFieldAfter(a: string, b: string)
    requires ':' !in a
    ensures SecondField(a + b) == SecondField(b)
    decreases |a|
  {
    if a == "" {
      assert a + b == b;
    } else {
      assert (a + b)[1..] == a[1..] + b;
      SecondFieldAfter(a[1..], b);
    }
  }

  lemma SecondFieldOf(a: string, b: string)
    requires ':' !in a
    ensures SecondField(a + ":" + b) == Some(UpToColon(b))
  {
    SecondFieldAfter(a, ":" + b);
    assert a + ":" + b == a + (":" + b);
    assert (":" + b)[1..] == b;
  }

  // strings.Trim(s, cutset)
  function Trim(s: string, cutset: string): (t: string)
    ensures t != "" ==> t[0] !in cutset && t[|t| - 1] !in cutset
    decreases |s|
  {
    if s == "" then ""
    else if s[0] in cutset then Trim(s[1..], cutset)
    else if s[|s| - 1] in cutset then Trim(s[..|s| - 1], cutset)
    else s
  }

  lemma {:induction false} TrimShrinks(s: string, cutset: string)
    ensures |Trim(s, cutset)| <= |s|
    ensures Trim(s, cutset) == s <==> s == "" || (s[0] !in cutset && s[|s| - 1] !in cutset)
    decreases |s|
  {
    if s != "" {
      if s[0] in cutset {
        TrimShrinks(s[1..], cutset);
      } else if s[|s| - 1] in cutset {
        TrimShrinks(s[..|s| - 1], cutset);
      }
    }
  }

  // Cutting fields out of a text adds no character to it.
  lemma {:induction false} TrimHasNo(s: string, cutset: string, c: char)
    requires c !in s
    ensures c !in Trim(s, cutset)
    decreases |s|
  {
    if s != "" {
      if s[0] in cutset {
        TrimHasNo(s[1..], cutset, c);
      } else if s[|s| - 1] in cutset {
        TrimHasNo(s[..|s| - 1], cutset, c);
      }
    }
  }

  lemma {:induction false} SecondFieldHasNo(s: string, c: char)
    requires c !in s && SecondField(s).Some?
    ensures c !in SecondField(s).value
  {
    if s[0] != ':' {
      SecondFieldHasNo(s[1..], c);
    }
  }
}
