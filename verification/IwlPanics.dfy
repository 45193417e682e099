/** When parseIwlistOut (pkg/wifi/iwl.go) indexes out of range. It takes for
    granted that there are as many ESSID lines as Cell lines, a key line for
    every new ESSID, a second field in an ESSID line and in an Authentication
    Suites line, and the suites line itself once it has seen a WPA2 line. */
module IwlPanics {
  import opened Wrappers
  import opened Text
  import opened IwlPatterns
  import opened IwlParse
  import opened IwlScans

  // ---- The three lists --------------------------------------------------

  // An ESSID that is not known yet when round i is reached.
  predicate IsNew(essids: seq<string>, i: nat, known: set<string>)
    requires i < |essids|
  {
    && (EssidOf(essids[i]).Some? ==> EssidOf(essids[i]).value !in known)
    && forall j :: 0 <= j < i ==> EssidOf(essids[j]) != EssidOf(essids[i])
  }

  // Round i would index out of range.
  predicate Breaks(blocks: seq<seq<string>>, essids: seq<string>, keys: seq<string>, known: set<string>, i: nat)
    requires i < |blocks|
  {
    || i >= |essids|
    || EssidOf(essids[i]).None?
    || (IsNew(essids, i, known) && (i >= |keys| || Protocol(keys[i], blocks[i]).None?))
  }

  ghost predicate SomeBreaks(blocks: seq<seq<string>>, essids: seq<string>, keys: seq<string>, known: set<string>) {
    exists i :: 0 <= i < |blocks| && Breaks(blocks, essids, keys, known, i)
  }

  lemma IsNewLater(essids: seq<string>, i: nat, known: set<string>)
    requires i + 1 < |essids| && EssidOf(essids[0]).Some?
    ensures IsNew(essids, i + 1, known) <==> IsNew(essids[1..], i, known + {EssidOf(essids[0]).value})
  {
    hide EssidOf;
    var rest, more := essids[1..], known + {EssidOf(essids[0]).value};
    if IsNew(rest, i, more) {
      forall j | 0 <= j < i + 1
        ensures EssidOf(essids[j]) != EssidOf(essids[i + 1])
      {
        assert j > 0 ==> essids[j] == rest[j - 1];
      }
    }
    if IsNew(essids, i + 1, known) {
      forall j | 0 <= j < i
        ensures EssidOf(rest[j]) != EssidOf(rest[i])
      {
        assert rest[j] == essids[j + 1];
      }
    }
  }

  // Round i + 1 seen from behind the first.
  lemma BreaksLater(blocks: seq<seq<string>>, essids: seq<string>, keys: seq<string>, known: set<string>, i: nat)
    requires i + 1 < |blocks| && essids != [] && EssidOf(essids[0]).Some?
    ensures Breaks(blocks, essids, keys, known, i + 1)
        <==> Breaks(blocks[1..], essids[1..], Drop(keys, 1), known + {EssidOf(essids[0]).value}, i)
  {
    hide EssidOf, Protocol, IsNew;
    if i + 1 < |essids| {
      IsNewLater(essids, i, known);
    }
  }

  lemma SomeBreaksLater(blocks: seq<seq<string>>, essids: seq<string>, keys: seq<string>, known: set<string>)
    requires blocks != [] && essids != [] && EssidOf(essids[0]).Some?
    ensures SomeBreaks(blocks, essids, keys, known)
        <==> || Breaks(blocks, essids, keys, known, 0)
             || SomeBreaks(blocks[1..], essids[1..], Drop(keys, 1), known + {EssidOf(essids[0]).value})
  {
    hide EssidOf, Breaks;
    var more := known + {EssidOf(essids[0]).value};
    if SomeBreaks(blocks, essids, keys, known) && !Breaks(blocks, essids, keys, known, 0) {
      var i :| 0 <= i < |blocks| && Breaks(blocks, essids, keys, known, i);
      BreaksLater(blocks, essids, keys, known, i - 1);
      assert Breaks(blocks[1..], essids[1..], Drop(keys, 1), more, i - 1);
    }
    if SomeBreaks(blocks[1..], essids[1..], Drop(keys, 1), more) {
      var i :| 0 <= i < |blocks| - 1 && Breaks(blocks[1..], essids[1..], Drop(keys, 1), more, i);
      BreaksLater(blocks, essids, keys, known, i);
    }
  }

  lemma FirstBreaks(blocks: seq<seq<string>>, essids: seq<string>, keys: seq<string>, known: set<string>)
    requires blocks != [] && essids != [] && EssidOf(essids[0]).Some?
    ensures Breaks(blocks, essids, keys, known, 0)
        <==> EssidOf(essids[0]).value !in known && (keys == [] || Protocol(keys[0], blocks[0]).None?)
  {
  }

  lemma {:induction false} CombinePanics(blocks: seq<seq<string>>, essids: seq<string>, keys: seq<string>,
                                         known: set<string>)
    ensures Combine(blocks, essids, keys, known).Panic? <==> SomeBreaks(blocks, essids, keys, known)
    decreases |blocks|
  {
    hide EssidOf, Protocol, Breaks, SomeBreaks;
    if blocks == [] {
      NothingBreaks(essids, keys, known);
    } else if essids == [] || EssidOf(essids[0]).None? {
      BreaksAtOnce(blocks, essids, keys, known);
    } else {
      var essid := EssidOf(essids[0]).value;
      FirstBreaks(blocks, essids, keys, known);
      SomeBreaksLater(blocks, essids, keys, known);
      CombinePanics(blocks[1..], essids[1..], Drop(keys, 1), known + {essid});
      if essid in known {
        assert known + {essid} == known;
      }
    }
  }

  lemma NothingBreaks(essids: seq<string>, keys: seq<string>, known: set<string>)
    ensures !SomeBreaks([], essids, keys, known)
  {
  }

  lemma BreaksAtOnce(blocks: seq<seq<string>>, essids: seq<string>, keys: seq<string>, known: set<string>)
    requires blocks != [] && (essids == [] || EssidOf(essids[0]).None?)
    ensures SomeBreaks(blocks, essids, keys, known)
  {
    assert Breaks(blocks, essids, keys, known, 0);
  }

  // ---- On lines ---------------------------------------------------------

  // A WPA2 line, but no suite to be read below it.
  predicate LacksSuite(block: seq<string>) {
    && Hits(Wpa2RE, block) != []
    && var suites := Hits(AuthSuitesRE, FromHit(Wpa2RE, block, 0));
       suites == [] || ':' !in suites[0]
  }

  lemma {:induction false} SecondFieldNone(s: string)
    ensures SecondField(s).None? <==> ':' !in s
  {
    if s != "" && s[0] != ':' {
      SecondFieldNone(s[1..]);
      assert s == [s[0]] + s[1..];
    }
  }

  lemma KeyOptions()
    ensures EncKeyOf("Encryption key:on") == Some("on") && EncKeyOf("Encryption key:off") == Some("off")
  {
    assert "Encryption key:on" == "Encryption key" + ":" + "on";
    assert "Encryption key:off" == "Encryption key" + ":" + "off";
    SecondFieldOf("Encryption key", "on");
    SecondFieldOf("Encryption key", "off");
    TrimShrinks("on", "\n");
    TrimShrinks("off", "\n");
  }

  lemma {:induction false} HitsHit(re: Pattern, lines: seq<string>, i: nat)
    requires i < |Hits(re, lines)|
    ensures Hit(re, Hits(re, lines)[i])
  {
    var suffix := FromHit(re, lines, i);
  }

  lemma ProtocolLacks(key: string, block: seq<string>)
    requires Hit(EncKeyOptRE, key)
    ensures Protocol(key, block).None? <==> key == "Encryption key:on" && LacksSuite(block)
  {
    KeyOptions();
    assert EncKeyOf(key) == Some(if key == "Encryption key:on" then "on" else "off");
    if Hits(Wpa2RE, block) != [] {
      var suites := Hits(AuthSuitesRE, FromHit(Wpa2RE, block, 0));
      if suites != [] {
        SecondFieldNone(suites[0]);
      }
    }
  }

  // Cell i has no ESSID line left for it, or one without a colon; or it is the
  // first of its ESSID and has no key line left for it, or is encrypted with a
  // WPA2 line but no suite with a colon below it.
  predicate BreaksAt(blocks: seq<seq<string>>, essids: seq<string>, keys: seq<string>, i: nat)
    requires i < |blocks|
  {
    || i >= |essids|
    || ':' !in essids[i]
    || (IsNew(essids, i, {}) && (i >= |keys| || (keys[i] == "Encryption key:on" && LacksSuite(blocks[i]))))
  }

  ghost predicate BreaksSomewhere(blocks: seq<seq<string>>, essids: seq<string>, keys: seq<string>) {
    exists i :: 0 <= i < |blocks| && BreaksAt(blocks, essids, keys, i)
  }

  lemma BreaksAtIff(blocks: seq<seq<string>>, essids: seq<string>, keys: seq<string>, i: nat)
    requires i < |blocks| && (i < |keys| ==> Hit(EncKeyOptRE, keys[i]))
    ensures Breaks(blocks, essids, keys, {}, i) <==> BreaksAt(blocks, essids, keys, i)
  {
    hide Hit, Protocol, IsNew, LacksSuite;
    if i < |essids| {
      SecondFieldNone(essids[i]);
    }
    if i < |keys| {
      ProtocolLacks(keys[i], blocks[i]);
    }
  }

  // Every scan, however its lines are arranged, ends in a panic exactly when
  // some cell of it breaks.
  lemma PanicsIff(lines: seq<string>)
    ensures ParseLines(lines).Panic?
        <==> BreaksSomewhere(Blocks(lines), Hits(EssidRE, lines), Hits(EncKeyOptRE, lines))
  {
    hide Breaks, BreaksAt, Combine, Blocks, Hits;
    var blocks, essids, keys := Blocks(lines), Hits(EssidRE, lines), Hits(EncKeyOptRE, lines);
    CombinePanics(blocks, essids, keys, {});
    forall i | 0 <= i < |blocks|
      ensures Breaks(blocks, essids, keys, {}, i) <==> BreaksAt(blocks, essids, keys, i)
    {
      if i < |keys| {
        HitsHit(EncKeyOptRE, lines, i);
      }
      BreaksAtIff(blocks, essids, keys, i);
    }
  }

  // ---- Scans with one ESSID and one key line a cell ----------------------

  function OneOfEach(re: Pattern, cells: seq<seq<string>>): (hits: seq<string>)
    requires AreCells(cells) && (re.EssidRE? || re.EncKeyOptRE?)
    ensures |hits| == |cells|
  {
    seq(|cells|, i requires 0 <= i < |cells| => Hits(re, cells[i])[0])
  }

  lemma {:induction false} HitsOfCells(re: Pattern, cells: seq<seq<string>>)
    requires AreCells(cells) && (re.EssidRE? || re.EncKeyOptRE?)
    ensures Hits(re, Flatten(cells)) == OneOfEach(re, cells)
  {
    if cells != [] {
      HitsOfCells(re, cells[1..]);
      HitsConcat(re, cells[0], Flatten(cells[1..]));
      assert OneOfEach(re, cells) == Hits(re, cells[0]) + OneOfEach(re, cells[1..]);
    }
  }

  // There, block i, ESSID i and key i are those of cell i.
  lemma CellsPanicIff(pre: seq<string>, cells: seq<seq<string>>)
    requires IsPreamble(pre) && AreCells(cells)
    ensures ParseLines(pre + Flatten(cells)).Panic?
        <==> BreaksSomewhere(cells, OneOfEach(EssidRE, cells), OneOfEach(EncKeyOptRE, cells))
  {
    hide ParseLines, BreaksSomewhere, OneOfEach, IsCell;
    PanicsIff(pre + Flatten(cells));
    ListsBelow(pre, cells);
  }

  lemma ListsBelow(pre: seq<string>, cells: seq<seq<string>>)
    requires IsPreamble(pre) && AreCells(cells)
    ensures Blocks(pre + Flatten(cells)) == cells
    ensures Hits(EssidRE, pre + Flatten(cells)) == OneOfEach(EssidRE, cells)
    ensures Hits(EncKeyOptRE, pre + Flatten(cells)) == OneOfEach(EncKeyOptRE, cells)
  {
    hide OneOfEach, IsCell;
    BlocksPreamble(pre, Flatten(cells));
    ListsOfCells(cells);
    HitsConcat(EssidRE, pre, Flatten(cells));
    HitsConcat(EncKeyOptRE, pre, Flatten(cells));
    HitsOfCells(EssidRE, cells);
    HitsOfCells(EncKeyOptRE, cells);
  }

  // ---- Two inputs -------------------------------------------------------

  lemma {:induction false} NoHits(re: Pattern, lines: seq<string>)
    requires forall i :: 0 <= i < |lines| ==> !Hit(re, lines[i])
    ensures Hits(re, lines) == []
  {
    if lines != [] {
      NoHits(re, lines[1..]);
    }
  }

  lemma {:induction false} OneHit(re: Pattern, lines: seq<string>, k: nat)
    requires k < |lines| && Hit(re, lines[k])
    requires forall i :: 0 <= i < |lines| && i != k ==> !Hit(re, lines[i])
    ensures Hits(re, lines) == [lines[k]]
    ensures FromHit(re, lines, 0) == lines[k..]
    decreases k
  {
    hide Hit;
    var rest := lines[1..];
    if k == 0 {
      NoHits(re, rest);
    } else {
      OneHit(re, rest, k - 1);
      assert rest[k - 1..] == lines[k..];
    }
  }

  // A line taken for a WPA2 line, with no Authentication Suites line below it,
  // is enough.
  lemma MissingSuitePanics(x: string)
    ensures IsCharacter(x) ==>
              ParseLines(["Cell 01", "ESSID:\"a\"", "Encryption key:on",
                          "IE: IEEE 802" + x + "11i/WPA2 Version 1"]).Panic?
  {
    hide IsCharacter, ParseLines;
    if IsCharacter(x) {
      var c := ["Cell 01", "ESSID:\"a\"", "Encryption key:on", "IE: IEEE 802" + x + "11i/WPA2 Version 1"];
      assert c[0][..4] == "Cell" && c[1][..5] == "ESSID";
      LineIff(c[0]);
      LineIff(c[1]);
      LineIff(c[2]);
      AnyCharacterHits(x);
      NoSuiteCell(c[0], c[1], c[2], c[3]);
      assert c == [c[0], c[1], c[2], c[3]];
      NoSuiteBreaks(c);
      PanicsIff(c);
    }
  }

  lemma NoSuiteCell(cell: string, essid: string, key: string, wpa2: string)
    ensures Hit(CellRE, cell) && Hit(EssidRE, essid) && Hit(EncKeyOptRE, key) && Hit(Wpa2RE, wpa2) ==>
              var c := [cell, essid, key, wpa2];
              IsCell(c) && LacksSuite(c) && Hits(EncKeyOptRE, c)[0] == key
  {
    hide Hit, Hits, FromHit;
    if Hit(CellRE, cell) && Hit(EssidRE, essid) && Hit(EncKeyOptRE, key) && Hit(Wpa2RE, wpa2) {
      var c, kinds := [cell, essid, key, wpa2], [CellRE, EssidRE, EncKeyOptRE, Wpa2RE];
      forall re, i | 0 <= i < 4 && Hit(re, c[i])
        ensures re == kinds[i]
      {
        HitOnce(re, kinds[i], c[i]);
      }
      NoHits(CellRE, c[1..]);
      OneHit(EssidRE, c, 1);
      OneHit(EncKeyOptRE, c, 2);
      OneHit(Wpa2RE, c, 3);
      NoHits(AuthSuitesRE, c[3..]);
    }
  }

  lemma NoSuiteBreaks(c: seq<string>)
    ensures IsCell(c) && LacksSuite(c) && Hits(EncKeyOptRE, c)[0] == "Encryption key:on" ==>
              BreaksSomewhere(Blocks(c), Hits(EssidRE, c), Hits(EncKeyOptRE, c))
  {
    hide LacksSuite, EssidOf;
    if IsCell(c) && LacksSuite(c) && Hits(EncKeyOptRE, c)[0] == "Encryption key:on" {
      BlocksOfCell(c);
      assert BreaksAt([c], Hits(EssidRE, c), Hits(EncKeyOptRE, c), 0);
    }
  }

  // A cell without an ESSID line is too.
  lemma MissingEssidPanics()
    ensures ParseLines(["Cell 01", "Encryption key:off"]).Panic?
  {
    var c := ["Cell 01", "Encryption key:off"];
    assert c[0][..4] == "Cell";
    OnlyKind(CellRE, c[0]);
    OnlyKind(EncKeyOptRE, c[1]);
    NoHits(EssidRE, c);
    BlocksCount(c);
    OneHit(CellRE, c, 0);
    assert BreaksAt(Blocks(c), [], Hits(EncKeyOptRE, c), 0);
    PanicsIff(c);
  }

  lemma OnlyKind(re: Pattern, line: string)
    ensures Hit(re, line) ==> forall other :: other != re ==> !Hit(other, line)
  {
    forall other | Hit(re, line) && Hit(other, line)
      ensures other == re
    {
      HitOnce(re, other, line);
    }
  }
}
