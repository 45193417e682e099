/** Properties of parseIwlistOut over whole scans: each network is decided by
    the bytes of its own cell, scans can be read piece by piece, no ESSID is
    repeated and none is lost. */
module IwlScans {
  import opened Wrappers
  import opened Text
  import opened IwlPatterns
  import opened IwlParse

  function Essids(options: seq<WifiOption>): set<string> {
    set i | 0 <= i < |options| :: options[i].essid
  }

  predicate DistinctEssids(options: seq<WifiOption>) {
    forall i, j :: 0 <= i < j < |options| ==> options[i].essid != options[j].essid
  }

  function Without(options: seq<WifiOption>, essids: set<string>): seq<WifiOption> {
    if options == [] then []
    else if options[0].essid in essids then Without(options[1..], essids)
    else [options[0]] + Without(options[1..], essids)
  }

  // ---- One cell at a time -----------------------------------------------

  // The lines of one cell: its Cell line first, one ESSID, one key option.
  predicate IsCell(c: seq<string>) {
    && c != [] && Hit(CellRE, c[0]) && Hits(CellRE, c[1..]) == []
    && |Hits(EssidRE, c)| == 1 && |Hits(EncKeyOptRE, c)| == 1
  }

  predicate AreCells(cells: seq<seq<string>>) {
    forall i :: 0 <= i < |cells| ==> IsCell(cells[i])
  }

  // Lines before the first cell.
  predicate IsPreamble(pre: seq<string>) {
    Hits(CellRE, pre) == [] && Hits(EssidRE, pre) == [] && Hits(EncKeyOptRE, pre) == []
  }

  function Flatten(cells: seq<seq<string>>): seq<string> {
    if cells == [] then [] else cells[0] + Flatten(cells[1..])
  }

  function CellEssid(c: seq<string>): Option<string>
    requires IsCell(c)
  {
    EssidOf(Hits(EssidRE, c)[0])
  }

  function CellProtocol(c: seq<string>): Option<SecProto>
    requires IsCell(c)
  {
    Protocol(Hits(EncKeyOptRE, c)[0], c)
  }

  // What the cells say, each read alone.
  function Collect(cells: seq<seq<string>>, known: set<string>): ScanResult
    requires AreCells(cells)
  {
    if cells == [] then Options([])
    else if CellEssid(cells[0]).None? then Panic
    else
      var essid := CellEssid(cells[0]).value;
      if essid in known then Collect(cells[1..], known)
      else if CellProtocol(cells[0]).None? then Panic
      else
        Prepend([WifiOption(essid, CellProtocol(cells[0]).value)], Collect(cells[1..], known + {essid}))
  }

  lemma {:induction false} BlocksPreamble(pre: seq<string>, lines: seq<string>)
    requires Hits(CellRE, pre) == []
    ensures Blocks(pre + lines) == Blocks(lines)
  {
    if pre == [] {
      assert pre + lines == lines;
    } else {
      assert (pre + lines)[1..] == pre[1..] + lines;
      BlocksPreamble(pre[1..], lines);
    }
  }

  predicate StartsCell(lines: seq<string>) {
    lines == [] || Hit(CellRE, lines[0])
  }

  lemma {:induction false} UntilCellConcat(a: seq<string>, b: seq<string>)
    requires StartsCell(b)
    ensures UntilCell(a + b) == UntilCell(a)
    ensures Hits(CellRE, a) == [] ==> UntilCell(a) == a
  {
    if a == [] {
      assert a + b == b;
    } else {
      assert (a + b)[1..] == a[1..] + b;
      UntilCellConcat(a[1..], b);
    }
  }

  lemma {:induction false} BlocksConcat(a: seq<string>, b: seq<string>)
    requires StartsCell(b)
    ensures Blocks(a + b) == Blocks(a) + Blocks(b)
  {
    if a == [] {
      assert a + b == b;
    } else {
      assert (a + b)[1..] == a[1..] + b;
      BlocksConcat(a[1..], b);
      UntilCellConcat(a[1..], b);
    }
  }

  lemma BlocksOfCell(c: seq<string>)
    requires IsCell(c)
    ensures Blocks(c) == [c]
  {
    UntilCellConcat(c[1..], []);
    assert c[1..] + [] == c[1..];
    BlocksPreamble(c[1..], []);
    assert [c[0]] + c[1..] == c;
  }

  // The three lists of a scan in cells, cell by cell.
  lemma {:induction false} ListsOfCells(cells: seq<seq<string>>)
    requires AreCells(cells)
    ensures StartsCell(Flatten(cells))
    ensures Blocks(Flatten(cells)) == cells
    ensures |Hits(EssidRE, Flatten(cells))| == |Hits(EncKeyOptRE, Flatten(cells))| == |cells|
  {
    if cells != [] {
      ListsOfCells(cells[1..]);
      BlocksOfCell(cells[0]);
      BlocksConcat(cells[0], Flatten(cells[1..]));
      HitsConcat(EssidRE, cells[0], Flatten(cells[1..]));
      HitsConcat(EncKeyOptRE, cells[0], Flatten(cells[1..]));
    }
  }

  lemma {:induction false} CombineIsCollect(cells: seq<seq<string>>, known: set<string>)
    requires AreCells(cells)
    ensures var lines := Flatten(cells);
            Combine(cells, Hits(EssidRE, lines), Hits(EncKeyOptRE, lines), known) == Collect(cells, known)
  {
    if cells != [] {
      var rest := Flatten(cells[1..]);
      HitsConcat(EssidRE, cells[0], rest);
      HitsConcat(EncKeyOptRE, cells[0], rest);
      assert Hits(EssidRE, Flatten(cells))[1..] == Hits(EssidRE, rest);
      assert Hits(EncKeyOptRE, Flatten(cells))[1..] == Hits(EncKeyOptRE, rest);
      CombineIsCollect(cells[1..], known);
      if CellEssid(cells[0]).Some? {
        CombineIsCollect(cells[1..], known + {CellEssid(cells[0]).value});
      }
    }
  }

  // When every cell has one ESSID line and one key line, the result is what
  // the cells say one by one: no cell depends on the bytes of another.
  lemma CellsAreIndependent(pre: seq<string>, cells: seq<seq<string>>)
    requires IsPreamble(pre) && AreCells(cells)
    ensures ParseLines(pre + Flatten(cells)) == Collect(cells, {})
  {
    var lines := Flatten(cells);
    assert Blocks(pre + lines) == cells by {
      BlocksPreamble(pre, lines);
      ListsOfCells(cells);
    }
    assert Hits(EssidRE, pre + lines) == Hits(EssidRE, lines) by {
      HitsConcat(EssidRE, pre, lines);
    }
    assert Hits(EncKeyOptRE, pre + lines) == Hits(EncKeyOptRE, lines) by {
      HitsConcat(EncKeyOptRE, pre, lines);
    }
    CombineIsCollect(cells, {});
  }

  // ---- Where the matches lie --------------------------------------------

  lemma {:induction false} LinesShrink(o: string, p: nat, q: nat)
    requires p <= q && LineStart(o, q)
    ensures |LinesFrom(o, q)| <= |LinesFrom(o, p)|
    decreases q - p
  {
    var w := SpaceEnd(o, p);
    if q <= w {
      SpaceEndInside(o, p, q);
      SameLines(o, p, q);
    } else {
      if q <= LineEnd(o, w) {
        LineEndFrom(o, w, q);
      }
      LinesShrink(o, Next(o, p), q);
    }
  }

  // With more lines left at p than at q, the first line at p ends before q.
  lemma LineBefore(o: string, p: nat, q: nat)
    requires LineStart(o, p) && LineStart(o, q)
    requires |LinesFrom(o, q)| < |LinesFrom(o, p)|
    ensures p < q && LineEnd(o, SpaceEnd(o, p)) < q
  {
    var w := SpaceEnd(o, p);
    if q <= p {
      LinesShrink(o, q, p);
    } else if q <= w {
      SpaceEndInside(o, p, q);
      SameLines(o, p, q);
    } else if q <= LineEnd(o, w) {
      LineEndFrom(o, w, q);
    }
  }

  // In the first cell, the hit is below the Cell line and above the rest.
  lemma FromHitInFirst(re: Pattern, c: seq<string>, rest: seq<string>)
    requires IsCell(c) && (re.EssidRE? || re.EncKeyOptRE?)
    ensures |Hits(re, c + rest)| > 0 && |Hits(CellRE, c + rest)| > 0
    ensures |rest| < |FromHit(re, c + rest, 0)| < |FromHit(CellRE, c + rest, 0)|
  {
    FromHitConcat(re, c, rest, 0);
    CellHitsOnce(c);
    FromHitConcat(CellRE, c, rest, 0);
    if |FromHit(re, c, 0)| == |c| {
      FromHitWhole(re, c);
      HitOnce(re, CellRE, c[0]);
    }
  }

  lemma CellHitsOnce(c: seq<string>)
    requires IsCell(c)
    ensures |Hits(CellRE, c)| == 1 && FromHit(CellRE, c, 0) == c
  {
    assert Hits(CellRE, c) == [c[0]] + Hits(CellRE, c[1..]);
  }

  lemma EssidOnce(re: Pattern, c: seq<string>)
    requires IsCell(c) && (re.EssidRE? || re.EncKeyOptRE?)
    ensures |Hits(re, c)| == 1
  {
  }

  lemma CellsHits(re: Pattern, cells: seq<seq<string>>)
    requires AreCells(cells) && (re.EssidRE? || re.EncKeyOptRE? || re.CellRE?)
    ensures |Hits(re, Flatten(cells))| == |cells|
  {
    ListsOfCells(cells);
    BlocksCount(Flatten(cells));
  }

  lemma {:induction false} FromHitInCell(re: Pattern, cells: seq<seq<string>>, i: nat)
    requires AreCells(cells) && i < |cells|
    requires re.EssidRE? || re.EncKeyOptRE?
    ensures |Hits(re, Flatten(cells))| == |Hits(CellRE, Flatten(cells))| == |cells|
    ensures |FromHit(re, Flatten(cells), i)| < |FromHit(CellRE, Flatten(cells), i)|
    ensures i + 1 < |cells| ==> |FromHit(CellRE, Flatten(cells), i + 1)| < |FromHit(re, Flatten(cells), i)|
  {
    hide Hits, FromHit, IsCell;
    var c, rest := cells[0], Flatten(cells[1..]);
    CellsHits(re, cells);
    CellsHits(CellRE, cells);
    CellsHits(re, cells[1..]);
    CellsHits(CellRE, cells[1..]);
    CellHitsOnce(c);
    EssidOnce(re, c);
    if i + 1 < |cells| {
      FromHitConcat(CellRE, c, rest, i + 1);
    }
    if i == 0 {
      FromHitInFirst(re, c, rest);
    } else {
      FromHitConcat(re, c, rest, i);
      FromHitConcat(CellRE, c, rest, i);
      FromHitInCell(re, cells[1..], i - 1);
    }
  }

  lemma {:induction false} FromHitWhole(re: Pattern, lines: seq<string>)
    requires Hits(re, lines) != [] && |FromHit(re, lines, 0)| == |lines|
    ensures Hit(re, lines[0])
  {
  }

  // Where match i starts, and that it stays on its line.
  lemma MatchPlace(re: Pattern, o: string, i: nat)
    requires i < |Hits(re, Lines(o))|
    ensures |FindAll(re, o, 0)| == |Hits(re, Lines(o))|
    ensures var m := FindAll(re, o, 0)[i];
            LineStart(o, m.start) && LinesFrom(o, m.start) == FromHit(re, Lines(o), i) &&
            m.end <= LineEnd(o, SpaceEnd(o, m.start))
  {
    FindAllDescribes(re, o, 0);
    assert Describes(re, o, Lines(o), FindAll(re, o, 0)[i], i);
  }

  // The same below a preamble.
  lemma FromHitBelow(re: Pattern, pre: seq<string>, cells: seq<seq<string>>, i: nat)
    requires IsPreamble(pre) && AreCells(cells) && i < |cells|
    requires re.EssidRE? || re.EncKeyOptRE?
    ensures var lines := pre + Flatten(cells);
            |Hits(re, lines)| == |Hits(CellRE, lines)| == |cells| &&
            |FromHit(re, lines, i)| < |FromHit(CellRE, lines, i)| &&
            (i + 1 < |cells| ==> |FromHit(CellRE, lines, i + 1)| < |FromHit(re, lines, i)|)
  {
    hide Flatten, FromHit, IsCell;
    FromHitInCell(re, cells, i);
    FromHitConcat(CellRE, pre, Flatten(cells), i);
    FromHitConcat(re, pre, Flatten(cells), i);
    if i + 1 < |cells| {
      FromHitConcat(CellRE, pre, Flatten(cells), i + 1);
    }
  }

  // The i-th ESSID and the i-th key option lie inside the bytes of cell i.
  lemma MatchesInsideCell(o: string, pre: seq<string>, cells: seq<seq<string>>, re: Pattern, i: nat)
    requires IsPreamble(pre) && AreCells(cells) && Lines(o) == pre + Flatten(cells)
    requires re.EssidRE? || re.EncKeyOptRE?
    requires i < |cells|
    ensures var starts, ms := FindAll(CellRE, o, 0), FindAll(re, o, 0);
            |starts| == |ms| == |cells| &&
            starts[i].start < ms[i].start &&
            (i + 1 < |cells| ==> ms[i].end < starts[i + 1].start)
  {
    hide FindAll, Flatten, FromHit, Hits, Lines, LinesFrom, LineEnd, SpaceEnd, IsPreamble, AreCells;
    FromHitBelow(re, pre, cells, i);
    MatchPlace(CellRE, o, i);
    MatchPlace(re, o, i);
    LineBefore(o, FindAll(CellRE, o, 0)[i].start, FindAll(re, o, 0)[i].start);
    if i + 1 < |cells| {
      MatchPlace(CellRE, o, i + 1);
      LineBefore(o, FindAll(re, o, 0)[i].start, FindAll(CellRE, o, 0)[i + 1].start);
    }
  }

  // ---- Scans read piece by piece ----------------------------------------

  // Assumption 1 of the source: cells, ESSIDs and key options go together.
  predicate Aligned(lines: seq<string>) {
    |Blocks(lines)| == |Hits(EssidRE, lines)| == |Hits(EncKeyOptRE, lines)|
  }

  lemma {:induction false} CombineAppend(b1: seq<seq<string>>, b2: seq<seq<string>>, e1: seq<string>, e2: seq<string>,
                                         k1: seq<string>, k2: seq<string>, known: set<string>)
    requires |b1| == |e1| == |k1|
    requires Combine(b1, e1, k1, known).Options?
    ensures var x := Combine(b1, e1, k1, known).options;
            Combine(b1 + b2, e1 + e2, k1 + k2, known) == Prepend(x, Combine(b2, e2, k2, known + Essids(x)))
  {
    if b1 == [] {
      assert b1 + b2 == b2 && e1 + e2 == e2 && k1 + k2 == k2;
      assert known + Essids([]) == known;
    } else {
      assert (b1 + b2)[1..] == b1[1..] + b2;
      assert (e1 + e2)[1..] == e1[1..] + e2;
      assert (k1 + k2)[1..] == k1[1..] + k2;
      var essid := EssidOf(e1[0]).value;
      if essid in known {
        CombineAppend(b1[1..], b2, e1[1..], e2, k1[1..], k2, known);
      } else {
        CombineAppend(b1[1..], b2, e1[1..], e2, k1[1..], k2, known + {essid});
        var option := WifiOption(essid, Protocol(k1[0], b1[0]).value);
        var later := Combine(b1[1..], e1[1..], k1[1..], known + {essid}).options;
        EssidsCons(option, later);
        assert known + {essid} + Essids(later) == known + Essids([option] + later);
        PrependFlat(option, later, Combine(b2, e2, k2, known + {essid} + Essids(later)));
      }
    }
  }

  lemma EssidsCons(option: WifiOption, later: seq<WifiOption>)
    ensures Essids([option] + later) == {option.essid} + Essids(later)
  {
    var all := [option] + later;
    forall e | e in {option.essid} + Essids(later)
      ensures e in Essids(all)
    {
      if e == option.essid {
        assert all[0].essid == e;
      } else {
        var i :| 0 <= i < |later| && later[i].essid == e;
        assert all[i + 1].essid == e;
      }
    }
  }

  lemma PrependFlat(option: WifiOption, later: seq<WifiOption>, r: ScanResult)
    ensures Prepend([option], Prepend(later, r)) == Prepend([option] + later, r)
  {
    if r.Options? {
      assert [option] + (later + r.options) == [option] + later + r.options;
    }
  }

  // Networks that are known already are left out, nothing else changes.
  lemma {:induction false} CombineKnown(b: seq<seq<string>>, e: seq<string>, k: seq<string>, known: set<string>,
                                        more: set<string>)
    requires Combine(b, e, k, known).Options?
    ensures Combine(b, e, k, known + more) == Options(Without(Combine(b, e, k, known).options, more))
    decreases |b|
  {
    if b != [] {
      var essid := EssidOf(e[0]).value;
      if essid in known {
        CombineKnown(b[1..], e[1..], Drop(k, 1), known, more);
      } else {
        CombineKnown(b[1..], e[1..], k[1..], known + {essid}, more);
        if essid in more {
          assert known + {essid} + more == known + more;
        } else {
          assert known + {essid} + more == known + more + {essid};
        }
      }
    }
  }

  // Reading a scan in two pieces, the second starting at a Cell line, gives
  // the networks of the first and those of the second that are new.
  lemma ParseAppend(a: seq<string>, b: seq<string>)
    requires Aligned(a) && StartsCell(b)
    ensures ParseLines(a).Options? && ParseLines(b).Options? ==>
              var x, y := ParseLines(a).options, ParseLines(b).options;
              ParseLines(a + b) == Options(x + Without(y, Essids(x)))
  {
    BlocksConcat(a, b);
    HitsConcat(EssidRE, a, b);
    HitsConcat(EncKeyOptRE, a, b);
    if ParseLines(a).Options? && ParseLines(b).Options? {
      CombineAppend(Blocks(a), Blocks(b), Hits(EssidRE, a), Hits(EssidRE, b),
                    Hits(EncKeyOptRE, a), Hits(EncKeyOptRE, b), {});
      var x := ParseLines(a).options;
      CombineKnown(Blocks(b), Hits(EssidRE, b), Hits(EncKeyOptRE, b), {}, Essids(x));
      assert {} + Essids(x) == Essids(x);
    }
  }

  // The same on bytes.
  lemma ScanAppend(o1: string, o2: string)
    requires EndsLine(o1) && Aligned(Lines(o1)) && StartsCell(Lines(o2))
    requires ParseLines(Lines(o1)).Options? && ParseLines(Lines(o2)).Options?
    ensures var x, y := ParseLines(Lines(o1)).options, ParseLines(Lines(o2)).options;
            ParseLines(Lines(o1 + o2)) == Options(x + Without(y, Essids(x)))
  {
    LinesConcat(o1, o2);
    ParseAppend(Lines(o1), Lines(o2));
  }

  // ---- Nothing twice, nothing lost --------------------------------------

  lemma {:induction false} CombineDistinct(b: seq<seq<string>>, e: seq<string>, k: seq<string>, known: set<string>)
    requires Combine(b, e, k, known).Options?
    ensures var x := Combine(b, e, k, known).options;
            DistinctEssids(x) && Essids(x) !! known
    decreases |b|
  {
    if b != [] {
      var essid := EssidOf(e[0]).value;
      if essid in known {
        CombineDistinct(b[1..], e[1..], Drop(k, 1), known);
      } else {
        CombineDistinct(b[1..], e[1..], k[1..], known + {essid});
        var later := Combine(b[1..], e[1..], k[1..], known + {essid}).options;
        EssidsCons(WifiOption(essid, Protocol(k[0], b[0]).value), later);
        forall j | 0 <= j < |later|
          ensures later[j].essid != essid
        {
          assert later[j].essid in Essids(later);
        }
      }
    }
  }

  lemma {:induction false} CombineComplete(b: seq<seq<string>>, e: seq<string>, k: seq<string>, known: set<string>,
                                           i: nat)
    requires Combine(b, e, k, known).Options? && i < |b|
    ensures i < |e| && EssidOf(e[i]).Some?
    ensures EssidOf(e[i]).value in known + Essids(Combine(b, e, k, known).options)
    decreases |b|
  {
    var essid := EssidOf(e[0]).value;
    if essid in known {
      if i > 0 {
        CombineComplete(b[1..], e[1..], Drop(k, 1), known, i - 1);
      }
    } else {
      var later := Combine(b[1..], e[1..], k[1..], known + {essid}).options;
      EssidsCons(WifiOption(essid, Protocol(k[0], b[0]).value), later);
      if i > 0 {
        CombineComplete(b[1..], e[1..], k[1..], known + {essid}, i - 1);
      }
    }
  }

  // For every scan that is read at all: the ESSIDs of the result are
  // pairwise different and the ESSID of every cell is among them.
  lemma NoDuplicatesNoneLost(lines: seq<string>)
    requires ParseLines(lines).Options?
    ensures DistinctEssids(ParseLines(lines).options)
    ensures |Hits(CellRE, lines)| <= |Hits(EssidRE, lines)|
    ensures forall i :: 0 <= i < |Hits(CellRE, lines)| ==>
              EssidOf(Hits(EssidRE, lines)[i]).Some? &&
              EssidOf(Hits(EssidRE, lines)[i]).value in Essids(ParseLines(lines).options)
  {
    BlocksCount(lines);
    CombineDistinct(Blocks(lines), Hits(EssidRE, lines), Hits(EncKeyOptRE, lines), {});
    forall i | 0 <= i < |Hits(CellRE, lines)|
      ensures i < |Hits(EssidRE, lines)| && EssidOf(Hits(EssidRE, lines)[i]).Some?
      ensures EssidOf(Hits(EssidRE, lines)[i]).value in Essids(ParseLines(lines).options)
    {
      CombineComplete(Blocks(lines), Hits(EssidRE, lines), Hits(EncKeyOptRE, lines), {}, i);
    }
    if |Hits(CellRE, lines)| > 0 {
      CombineComplete(Blocks(lines), Hits(EssidRE, lines), Hits(EncKeyOptRE, lines), {}, |Hits(CellRE, lines)| - 1);
    }
  }

  // Every ESSID of the result was read from an ESSID line.
  lemma {:induction false} CombineReports(b: seq<seq<string>>, e: seq<string>, k: seq<string>, known: set<string>,
                                          i: nat)
      returns (j: nat)
    requires Combine(b, e, k, known).Options? && i < |Combine(b, e, k, known).options|
    ensures j < |e| && EssidOf(e[j]) == Some(Combine(b, e, k, known).options[i].essid)
    decreases |b|
  {
    var essid := EssidOf(e[0]).value;
    if essid in known {
      j := CombineReports(b[1..], e[1..], Drop(k, 1), known, i);
      j := j + 1;
    } else if i == 0 {
      j := 0;
    } else {
      j := CombineReports(b[1..], e[1..], k[1..], known + {essid}, i - 1);
      j := j + 1;
    }
  }

  lemma {:induction false} HitsHaveNoNewline(re: Pattern, lines: seq<string>)
    requires NoNewlines(lines)
    ensures NoNewlines(Hits(re, lines))
  {
    if lines != [] {
      HitsHaveNoNewline(re, lines[1..]);
    }
  }

  // No ESSID that is reported holds a newline, whatever the scan.
  lemma ReportedEssids(o: string, i: nat)
    requires ParseLines(Lines(o)).Options? && i < |ParseLines(Lines(o)).options|
    ensures '\n' !in ParseLines(Lines(o)).options[i].essid
  {
    var lines := Lines(o);
    var essids := Hits(EssidRE, lines);
    var j := CombineReports(Blocks(lines), essids, Hits(EncKeyOptRE, lines), {}, i);
    LinesHaveNoNewline(o, 0);
    HitsHaveNoNewline(EssidRE, lines);
    SecondFieldHasNo(essids[j], '\n');
    TrimHasNo(SecondField(essids[j]).value, "\"\n", '\n');
  }

  // ---- The first cell of each ESSID -------------------------------------

  predicate Readable(c: seq<string>) {
    IsCell(c) && CellEssid(c).Some? && CellProtocol(c).Some?
  }

  predicate AllReadable(cells: seq<seq<string>>) {
    forall i :: 0 <= i < |cells| ==> Readable(cells[i])
  }

  function OptionOf(c: seq<string>): WifiOption
    requires Readable(c)
  {
    WifiOption(CellEssid(c).value, CellProtocol(c).value)
  }

  // Some cell has this ESSID.
  predicate Announced(cells: seq<seq<string>>, essid: string)
    requires AllReadable(cells)
  {
    cells != [] && (OptionOf(cells[0]).essid == essid || Announced(cells[1..], essid))
  }

  // A cell is kept exactly when no cell before it has its ESSID.
  function FirstCells(cells: seq<seq<string>>): seq<WifiOption>
    requires AllReadable(cells)
  {
    if cells == [] then []
    else
      var before, option := cells[..|cells| - 1], OptionOf(cells[|cells| - 1]);
      FirstCells(before) + if Announced(before, option.essid) then [] else [option]
  }

  lemma {:induction false} CollectLast(cells: seq<seq<string>>, last: seq<string>, known: set<string>)
    requires AllReadable(cells) && Readable(last)
    ensures Collect(cells, known).Options?
    ensures var essid := OptionOf(last).essid;
            var kept := if essid in known || Announced(cells, essid) then [] else [OptionOf(last)];
            Collect(cells + [last], known) == Options(Collect(cells, known).options + kept)
  {
    hide IsCell, CellEssid, CellProtocol;
    if cells == [] {
      assert [last][1..] == [];
    } else {
      assert (cells + [last])[1..] == cells[1..] + [last];
      var essid := CellEssid(cells[0]).value;
      CollectLast(cells[1..], last, if essid in known then known else known + {essid});
    }
  }

  lemma FirstCellsLast(before: seq<seq<string>>, last: seq<string>)
    requires AllReadable(before) && Readable(last)
    ensures AllReadable(before + [last])
    ensures FirstCells(before + [last])
         == FirstCells(before) + if Announced(before, OptionOf(last).essid) then [] else [OptionOf(last)]
  {
    assert (before + [last])[..|before|] == before;
  }

  lemma {:induction false} CollectIsFirstCells(cells: seq<seq<string>>)
    requires AllReadable(cells)
    ensures Collect(cells, {}) == Options(FirstCells(cells))
    decreases |cells|
  {
    if cells != [] {
      var before, last := cells[..|cells| - 1], cells[|cells| - 1];
      assert cells == before + [last];
      assert Collect(before, {}) == Options(FirstCells(before)) by {
        CollectIsFirstCells(before);
      }
      CollectLast(before, last, {});
      FirstCellsLast(before, last);
    }
  }
}
