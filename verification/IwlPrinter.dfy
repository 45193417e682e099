/** The layout of iwlist's scan output, and parseIwlistOut as its inverse. */
module IwlPrinter {
  import opened Wrappers
  import opened Text
  import opened IwlPatterns
  import opened IwlParse
  import opened IwlScans

  // Key management suites, as iwlist names them.
  datatype Suite = Psk | Dot1x | OtherSuite(name: string)

  function SuiteName(suite: Suite): string {
    match suite
    case Psk => "PSK"
    case Dot1x => "802.1x"
    case OtherSuite(name) => name
  }

  // The lines between the WPA2 line and the suite, and the suite.
  datatype Wpa2 = Wpa2(ciphers: seq<string>, suite: Suite)

  // One cell of the output. Lines the parser takes no interest in are kept as
  // they are: before the key option, between the ESSID and the WPA2 line
  // (which may hold a whole WPA1 element with suites of its own), and after.
  datatype AccessPoint = AccessPoint(
    header: string, before: seq<string>, encrypted: bool, essid: string,
    between: seq<string>, wpa2: Option<Wpa2>, after: seq<string>)

  const INDENT10 := "          "
  const INDENT20 := INDENT10 + INDENT10
  const INDENT24 := INDENT20 + "    "

  function PrintAll(lines: seq<string>): string {
    if lines == [] then "" else lines[0] + "\n" + PrintAll(lines[1..])
  }

  const WPA2_LINE := "IE: IEEE 802.11i/WPA2 Version 1"

  function EncLine(encrypted: bool): string {
    if encrypted then "Encryption key:on" else "Encryption key:off"
  }

  function EssidLine(essid: string): string {
    "ESSID:\"" + essid + "\""
  }

  function SuiteLine(suite: Suite): string {
    "Authentication Suites (1) : " + SuiteName(suite)
  }

  function PrintWpa2(wpa2: Option<Wpa2>): seq<string> {
    match wpa2
    case None => []
    case Some(w) => [INDENT20 + WPA2_LINE] + w.ciphers + [INDENT24 + SuiteLine(w.suite)]
  }

  function CellLayout(ap: AccessPoint): seq<string> {
    [INDENT10 + "Cell " + ap.header] + ap.before
    + [INDENT20 + EncLine(ap.encrypted), INDENT20 + EssidLine(ap.essid)]
    + ap.between + PrintWpa2(ap.wpa2) + ap.after
  }

  function ScanLayout(aps: seq<AccessPoint>): seq<string> {
    if aps == [] then [] else CellLayout(aps[0]) + ScanLayout(aps[1..])
  }

  function Print(preamble: seq<string>, aps: seq<AccessPoint>): string {
    PrintAll(preamble + ScanLayout(aps))
  }

  // ---- Well-formed output -----------------------------------------------

  // Lines without a newline that none of the patterns is looking for.
  predicate Filler(lines: seq<string>, res: set<Pattern>) {
    forall i :: 0 <= i < |lines| ==> '\n' !in lines[i] && forall re :: re in res ==> !Hit(re, StripLeft(lines[i]))
  }

  const STRUCTURE: set<Pattern> := {CellRE, EssidRE, EncKeyOptRE}

  // Nothing but the places for it holds a Cell, ESSID or key line; a WPA2
  // line only where wpa2 says so, and the suite is the first one after it.
  predicate WellFormed(ap: AccessPoint) {
    && '\n' !in ap.header && '\n' !in ap.essid
    && Filler(ap.before, STRUCTURE + {Wpa2RE})
    && Filler(ap.between, STRUCTURE + {Wpa2RE})
    && Filler(ap.after, if ap.wpa2.None? then STRUCTURE + {Wpa2RE} else STRUCTURE)
    && match ap.wpa2
       case None => true
       case Some(w) => Filler(w.ciphers, STRUCTURE + {AuthSuitesRE}) && GoodSuite(w.suite)
  }

  // A suite with a name of its own.
  predicate GoodSuite(suite: Suite) {
    suite.OtherSuite? ==>
      && '\n' !in suite.name && ':' !in suite.name
      && Trim(suite.name, "\n ") != "PSK" && Trim(suite.name, "\n ") != "802.1x"
  }

  predicate AllWellFormed(aps: seq<AccessPoint>) {
    forall i :: 0 <= i < |aps| ==> WellFormed(aps[i])
  }

  // What the parser is to make of an access point.
  function Shown(essid: string): string {
    Trim(UpToColon("\"" + essid + "\""), "\"\n")
  }

  function Security(ap: AccessPoint): SecProto {
    if !ap.encrypted then NoEnc
    else match ap.wpa2
         case None => NotSupportedProto
         case Some(Wpa2(_, Psk)) => WpaPsk
         case Some(Wpa2(_, Dot1x)) => WpaEap
         case Some(Wpa2(_, OtherSuite(_))) => NotSupportedProto
  }

  function Expected(ap: AccessPoint): WifiOption {
    WifiOption(Shown(ap.essid), Security(ap))
  }

  function ExpectedAll(aps: seq<AccessPoint>): seq<WifiOption> {
    seq(|aps|, i requires 0 <= i < |aps| => Expected(aps[i]))
  }

  predicate EssidIn(options: seq<WifiOption>, essid: string) {
    exists i :: 0 <= i < |options| && options[i].essid == essid
  }

  // The first of each ESSID, in order.
  function FirstOfEach(options: seq<WifiOption>): seq<WifiOption> {
    if options == [] then []
    else
      var before, last := options[..|options| - 1], options[|options| - 1];
      FirstOfEach(before) + if EssidIn(before, last.essid) then [] else [last]
  }

  // ---- Lines of the printed text ----------------------------------------

  // The significant part of some printed lines.
  function Significant(lines: seq<string>): seq<string> {
    if lines == [] then []
    else (if Blank(lines[0]) then [] else [StripLeft(lines[0])]) + Significant(lines[1..])
  }

  predicate Printable(lines: seq<string>) {
    forall i :: 0 <= i < |lines| ==> '\n' !in lines[i]
  }

  lemma {:induction false} LinesOfPrint(lines: seq<string>)
    requires Printable(lines)
    ensures Lines(PrintAll(lines)) == Significant(lines)
  {
    if lines == [] {
      assert BlankFrom("", 0);
    } else {
      LinesOfLine(lines[0]);
      LinesOfPrint(lines[1..]);
      LinesConcat(lines[0] + "\n", PrintAll(lines[1..]));
    }
  }

  lemma {:induction false} SignificantConcat(a: seq<string>, b: seq<string>)
    ensures Significant(a + b) == Significant(a) + Significant(b)
  {
    if a == [] {
      assert a + b == b;
    } else {
      assert (a + b)[1..] == a[1..] + b;
      SignificantConcat(a[1..], b);
    }
  }

  lemma {:induction false} SpacesEnd(o: string, p: nat, n: nat)
    requires p <= n < |o| && !IsSpace(o[n])
    requires forall i :: p <= i < n ==> o[i] == ' '
    ensures SpaceEnd(o, p) == n
    decreases n - p
  {
    if p < n {
      SpacesEnd(o, p + 1, n);
    }
  }

  lemma SignificantIndented(indent: string, content: string)
    requires forall i :: 0 <= i < |indent| ==> indent[i] == ' '
    requires content != "" && !IsSpace(content[0])
    ensures Significant([indent + content]) == [content]
  {
    SpacesEnd(indent + content, 0, |indent|);
    assert Significant([indent + content][1..]) == [];
  }

  lemma {:induction false} FillerMisses(lines: seq<string>, res: set<Pattern>, re: Pattern)
    requires Filler(lines, res) && re in res
    ensures Hits(re, Significant(lines)) == []
  {
    if lines != [] {
      assert forall i :: 0 <= i < |lines[1..]| ==> lines[1..][i] == lines[i + 1];
      FillerMisses(lines[1..], res, re);
      HitsConcat(re, if Blank(lines[0]) then [] else [StripLeft(lines[0])], Significant(lines[1..]));
    }
  }

  // ---- One cell ---------------------------------------------------------

  function Head(ap: AccessPoint): string {
    "Cell " + ap.header
  }

  function Tail(ap: AccessPoint): seq<string> {
    match ap.wpa2
    case None => []
    case Some(w) => [WPA2_LINE] + Significant(w.ciphers) + [SuiteLine(w.suite)]
  }

  // Everything in front of the WPA2 line.
  function Front(ap: AccessPoint): seq<string> {
    [Head(ap)] + Significant(ap.before) + [EncLine(ap.encrypted), EssidLine(ap.essid)] + Significant(ap.between)
  }

  // The significant lines of a printed cell.
  function CellLines(ap: AccessPoint): seq<string> {
    Front(ap) + Tail(ap) + Significant(ap.after)
  }

  lemma SignificantWpa2(wpa2: Option<Wpa2>)
    requires wpa2.Some?
    ensures Significant(PrintWpa2(wpa2))
         == [WPA2_LINE] + Significant(wpa2.value.ciphers) + [SuiteLine(wpa2.value.suite)]
  {
    var w := wpa2.value;
    SignificantIndented(INDENT20, WPA2_LINE);
    SignificantIndented(INDENT24, SuiteLine(w.suite));
    SignificantConcat([INDENT20 + WPA2_LINE] + w.ciphers, [INDENT24 + SuiteLine(w.suite)]);
    SignificantConcat([INDENT20 + WPA2_LINE], w.ciphers);
  }

  lemma SignificantCell(ap: AccessPoint)
    ensures Significant(CellLayout(ap)) == CellLines(ap)
  {
    var head := [INDENT10 + "Cell " + ap.header];
    var middle := [INDENT20 + EncLine(ap.encrypted), INDENT20 + EssidLine(ap.essid)];
    assert Significant(head) == [Head(ap)] by {
      assert INDENT10 + "Cell " + ap.header == INDENT10 + Head(ap);
      SignificantIndented(INDENT10, Head(ap));
    }
    assert Significant(middle) == [EncLine(ap.encrypted), EssidLine(ap.essid)] by {
      assert middle == [INDENT20 + EncLine(ap.encrypted)] + [INDENT20 + EssidLine(ap.essid)];
      SignificantIndented(INDENT20, EncLine(ap.encrypted));
      SignificantIndented(INDENT20, EssidLine(ap.essid));
      SignificantConcat([INDENT20 + EncLine(ap.encrypted)], [INDENT20 + EssidLine(ap.essid)]);
    }
    assert Significant(PrintWpa2(ap.wpa2)) == Tail(ap) by {
      if ap.wpa2.Some? {
        SignificantWpa2(ap.wpa2);
      }
    }
    SignificantConcat(head + ap.before + middle + ap.between + PrintWpa2(ap.wpa2), ap.after);
    SignificantConcat(head + ap.before + middle + ap.between, PrintWpa2(ap.wpa2));
    SignificantConcat(head + ap.before + middle, ap.between);
    SignificantConcat(head + ap.before, middle);
    SignificantConcat(head, ap.before);
  }

  lemma Wpa2LineHits()
    ensures Hit(Wpa2RE, WPA2_LINE)
  {
    hide Hit;
    AnyCharacterHits(".");
    assert WPA2_LINE == "IE: IEEE 802" + "." + "11i/WPA2 Version 1";
  }

  // Which pattern each of the parser's lines hits.
  lemma LineKinds(ap: AccessPoint)
    ensures forall re :: Hit(re, Head(ap)) <==> re == CellRE
    ensures forall re :: Hit(re, EncLine(ap.encrypted)) <==> re == EncKeyOptRE
    ensures forall re :: Hit(re, EssidLine(ap.essid)) <==> re == EssidRE
    ensures forall re :: Hit(re, WPA2_LINE) <==> re == Wpa2RE
    ensures ap.wpa2.Some? ==> forall re :: Hit(re, SuiteLine(ap.wpa2.value.suite)) <==> re == AuthSuitesRE
  {
    Kind(CellRE, Head(ap));
    Kind(EncKeyOptRE, EncLine(ap.encrypted));
    Kind(EssidRE, EssidLine(ap.essid));
    Wpa2LineHits();
    Kind(Wpa2RE, WPA2_LINE);
    if ap.wpa2.Some? {
      Kind(AuthSuitesRE, SuiteLine(ap.wpa2.value.suite));
    }
  }

  lemma Kind(re: Pattern, line: string)
    requires Hit(re, line)
    ensures forall other :: Hit(other, line) <==> other == re
  {
    forall other | Hit(other, line)
      ensures other == re
    {
      HitOnce(re, other, line);
    }
  }

  lemma TailMisses(ap: AccessPoint, re: Pattern)
    requires WellFormed(ap) && re in STRUCTURE
    ensures Hits(re, Tail(ap)) == []
  {
    LineKinds(ap);
    if ap.wpa2.Some? {
      var w := ap.wpa2.value;
      FillerMisses(w.ciphers, STRUCTURE + {AuthSuitesRE}, re);
      HitsConcat(re, [WPA2_LINE] + Significant(w.ciphers), [SuiteLine(w.suite)]);
      HitsConcat(re, [WPA2_LINE], Significant(w.ciphers));
    }
  }

  // The hits of a cell's printed lines, part by part.
  lemma PartHits(ap: AccessPoint, re: Pattern)
    ensures Hits(re, CellLines(ap)) == Hits(re, Front(ap)) + Hits(re, Tail(ap)) + Hits(re, Significant(ap.after))
    ensures Hits(re, Front(ap))
         == Hits(re, [Head(ap)]) + Hits(re, Significant(ap.before))
          + Hits(re, [EncLine(ap.encrypted), EssidLine(ap.essid)]) + Hits(re, Significant(ap.between))
  {
    var head, middle := [Head(ap)], [EncLine(ap.encrypted), EssidLine(ap.essid)];
    HitsConcat(re, Front(ap) + Tail(ap), Significant(ap.after));
    HitsConcat(re, Front(ap), Tail(ap));
    HitsConcat(re, head + Significant(ap.before) + middle, Significant(ap.between));
    HitsConcat(re, head + Significant(ap.before), middle);
    HitsConcat(re, head, Significant(ap.before));
  }

  lemma HitsOfTwo(re: Pattern, a: string, b: string)
    ensures Hits(re, [a, b]) == (if Hit(re, a) then [a] else []) + (if Hit(re, b) then [b] else [])
  {
    assert [a, b][1..] == [b];
    assert [b][1..] == [];
  }

  lemma CellHits(ap: AccessPoint, re: Pattern)
    requires WellFormed(ap) && re in STRUCTURE
    ensures Hits(re, CellLines(ap)) ==
      (match re case CellRE => [Head(ap)] case EncKeyOptRE => [EncLine(ap.encrypted)] case _ => [EssidLine(ap.essid)])
  {
    PartHits(ap, re);
    LineKinds(ap);
    HitsOfTwo(re, EncLine(ap.encrypted), EssidLine(ap.essid));
    TailMisses(ap, re);
    FillerMisses(ap.before, STRUCTURE + {Wpa2RE}, re);
    FillerMisses(ap.between, STRUCTURE + {Wpa2RE}, re);
    FillerMisses(ap.after, if ap.wpa2.None? then STRUCTURE + {Wpa2RE} else STRUCTURE, re);
    assert [Head(ap)][1..] == [];
  }

  lemma CellIsCell(ap: AccessPoint)
    requires WellFormed(ap)
    ensures IsCell(CellLines(ap))
  {
    CellHits(ap, CellRE);
    CellHits(ap, EssidRE);
    CellHits(ap, EncKeyOptRE);
    LineKinds(ap);
    assert CellLines(ap)[0] == Head(ap);
  }

  // ---- What one cell is read as -----------------------------------------

  lemma EssidRead(essid: string)
    ensures EssidOf(EssidLine(essid)) == Some(Shown(essid))
  {
    assert EssidLine(essid) == "ESSID" + ":" + ("\"" + essid + "\"");
    SecondFieldOf("ESSID", "\"" + essid + "\"");
  }

  lemma EncRead(encrypted: bool)
    ensures EncKeyOf(EncLine(encrypted)) == Some(if encrypted then "on" else "off")
  {
    var value := if encrypted then "on" else "off";
    assert EncLine(encrypted) == "Encryption key" + ":" + value;
    SecondFieldOf("Encryption key", value);
    TrimShrinks(value, "\n");
  }

  lemma SuiteRead(suite: Suite)
    requires GoodSuite(suite)
    ensures SuiteOf(SuiteLine(suite))
         == Some(match suite case Psk => WpaPsk case Dot1x => WpaEap case OtherSuite(_) => NotSupportedProto)
  {
    var name := SuiteName(suite);
    assert SuiteLine(suite) == "Authentication Suites (1) " + ":" + (" " + name);
    SecondFieldOf("Authentication Suites (1) ", " " + name);
    assert (" " + name)[1..] == name;
    TrimShrinks(name, "\n ");
  }

  lemma FrontMisses(ap: AccessPoint)
    requires WellFormed(ap)
    ensures Hits(Wpa2RE, Front(ap)) == []
  {
    PartHits(ap, Wpa2RE);
    LineKinds(ap);
    HitsOfTwo(Wpa2RE, EncLine(ap.encrypted), EssidLine(ap.essid));
    FillerMisses(ap.before, STRUCTURE + {Wpa2RE}, Wpa2RE);
    FillerMisses(ap.between, STRUCTURE + {Wpa2RE}, Wpa2RE);
  }

  // The lines from the WPA2 line on, read for the suite.
  lemma SuiteFound(ap: AccessPoint)
    requires WellFormed(ap) && ap.wpa2.Some?
    ensures Hits(AuthSuitesRE, Tail(ap) + Significant(ap.after)) != []
    ensures Hits(AuthSuitesRE, Tail(ap) + Significant(ap.after))[0] == SuiteLine(ap.wpa2.value.suite)
  {
    var w := ap.wpa2.value;
    var ciphers, suite := Significant(w.ciphers), [SuiteLine(w.suite)];
    LineKinds(ap);
    FillerMisses(w.ciphers, STRUCTURE + {AuthSuitesRE}, AuthSuitesRE);
    HitsConcat(AuthSuitesRE, Tail(ap), Significant(ap.after));
    HitsConcat(AuthSuitesRE, [WPA2_LINE] + ciphers, suite);
    HitsConcat(AuthSuitesRE, [WPA2_LINE], ciphers);
  }

  lemma ClassifyCell(ap: AccessPoint)
    requires WellFormed(ap) && ap.encrypted
    ensures Classify(CellLines(ap)) == Some(Expected(ap).authSuite)
  {
    hide Hit, SuiteOf;
    FrontMisses(ap);
    match ap.wpa2
    case None =>
      PartHits(ap, Wpa2RE);
      FillerMisses(ap.after, STRUCTURE + {Wpa2RE}, Wpa2RE);
    case Some(w) =>
      var rest := Tail(ap) + Significant(ap.after);
      assert CellLines(ap) == Front(ap) + rest;
      LineKinds(ap);
      assert rest[0] == WPA2_LINE && Hits(Wpa2RE, rest) != [];
      FromHitConcat(Wpa2RE, Front(ap), rest, 0);
      SuiteFound(ap);
      SuiteRead(w.suite);
  }

  lemma CellRead(ap: AccessPoint)
    requires WellFormed(ap)
    ensures Readable(CellLines(ap)) && OptionOf(CellLines(ap)) == Expected(ap)
  {
    CellIsCell(ap);
    CellHits(ap, EssidRE);
    CellHits(ap, EncKeyOptRE);
    EssidRead(ap.essid);
    EncRead(ap.encrypted);
    if ap.encrypted {
      ClassifyCell(ap);
    }
  }

  // ---- Whole scans ------------------------------------------------------

  function AllCells(aps: seq<AccessPoint>): seq<seq<string>> {
    seq(|aps|, i requires 0 <= i < |aps| => CellLines(aps[i]))
  }

  lemma NothingSignificant()
    ensures Significant([]) == []
  {
  }

  lemma {:induction false} SignificantScan(aps: seq<AccessPoint>)
    ensures Significant(ScanLayout(aps)) == Flatten(AllCells(aps))
  {
    hide Significant, CellLayout, CellLines;
    if aps == [] {
      NothingSignificant();
    } else {
      SignificantScan(aps[1..]);
      SignificantCell(aps[0]);
      SignificantConcat(CellLayout(aps[0]), ScanLayout(aps[1..]));
      assert AllCells(aps)[1..] == AllCells(aps[1..]);
    }
  }

  lemma AllCellsRead(aps: seq<AccessPoint>)
    requires AllWellFormed(aps)
    ensures AllReadable(AllCells(aps))
    ensures forall i :: 0 <= i < |aps| ==> OptionOf(AllCells(aps)[i]) == Expected(aps[i])
  {
    forall i | 0 <= i < |aps|
      ensures Readable(AllCells(aps)[i]) && OptionOf(AllCells(aps)[i]) == Expected(aps[i])
    {
      CellRead(aps[i]);
    }
  }

  lemma {:induction false} AnnouncedIsEssidIn(cells: seq<seq<string>>, options: seq<WifiOption>, essid: string)
    requires AllReadable(cells) && |cells| == |options|
    requires forall i :: 0 <= i < |cells| ==> OptionOf(cells[i]) == options[i]
    ensures Announced(cells, essid) == EssidIn(options, essid)
  {
    if cells != [] {
      var rest := options[1..];
      AnnouncedIsEssidIn(cells[1..], rest, essid);
      if EssidIn(rest, essid) {
        var i :| 0 <= i < |rest| && rest[i].essid == essid;
        assert options[i + 1].essid == essid;
      }
      if EssidIn(options, essid) && options[0].essid != essid {
        var i :| 0 <= i < |options| && options[i].essid == essid;
        assert rest[i - 1].essid == essid;
      }
    }
  }

  lemma {:induction false} FirstCellsExpected(cells: seq<seq<string>>, options: seq<WifiOption>)
    requires AllReadable(cells) && |cells| == |options|
    requires forall i :: 0 <= i < |cells| ==> OptionOf(cells[i]) == options[i]
    ensures FirstCells(cells) == FirstOfEach(options)
    decreases |cells|
  {
    if cells != [] {
      var n := |cells| - 1;
      FirstCellsExpected(cells[..n], options[..n]);
      AnnouncedIsEssidIn(cells[..n], options[..n], options[n].essid);
    }
  }

  lemma {:induction false} ScanPrintable(aps: seq<AccessPoint>)
    requires AllWellFormed(aps)
    ensures Printable(ScanLayout(aps))
  {
    if aps != [] {
      assert forall i :: 0 <= i < |aps[1..]| ==> aps[1..][i] == aps[i + 1];
      ScanPrintable(aps[1..]);
      assert WellFormed(aps[0]);
      CellPrintable(aps[0]);
    }
  }

  lemma PrintableConcat(a: seq<string>, b: seq<string>)
    requires Printable(a) && Printable(b)
    ensures Printable(a + b)
  {
  }

  lemma PrintableLine(indent: string, line: string)
    requires '\n' !in indent && '\n' !in line
    ensures Printable([indent + line])
  {
  }

  lemma PrintableSuite(suite: Suite)
    requires GoodSuite(suite)
    ensures '\n' !in SuiteLine(suite)
  {
    assert '\n' !in SuiteName(suite);
  }

  lemma Wpa2Printable(ap: AccessPoint)
    requires WellFormed(ap)
    ensures Printable(PrintWpa2(ap.wpa2))
  {
    if ap.wpa2.Some? {
      var w := ap.wpa2.value;
      PrintableSuite(w.suite);
      PrintableLine(INDENT20, WPA2_LINE);
      PrintableLine(INDENT24, SuiteLine(w.suite));
      PrintableConcat([INDENT20 + WPA2_LINE], w.ciphers);
      PrintableConcat([INDENT20 + WPA2_LINE] + w.ciphers, [INDENT24 + SuiteLine(w.suite)]);
    }
  }

  lemma CellPrintable(ap: AccessPoint)
    requires WellFormed(ap)
    ensures Printable(CellLayout(ap))
  {
    var head := [INDENT10 + "Cell " + ap.header];
    var middle := [INDENT20 + EncLine(ap.encrypted), INDENT20 + EssidLine(ap.essid)];
    Wpa2Printable(ap);
    PrintableConcat(head, ap.before);
    PrintableConcat(head + ap.before, middle);
    PrintableConcat(head + ap.before + middle, ap.between);
    PrintableConcat(head + ap.before + middle + ap.between, PrintWpa2(ap.wpa2));
    PrintableConcat(head + ap.before + middle + ap.between + PrintWpa2(ap.wpa2), ap.after);
  }

  // Parsing printed output gives the first access point of each ESSID, in
  // order, with its protocol.
  lemma ParsePrint(preamble: seq<string>, aps: seq<AccessPoint>)
    requires Filler(preamble, STRUCTURE) && AllWellFormed(aps)
    ensures ParseLines(Lines(Print(preamble, aps))) == Options(FirstOfEach(ExpectedAll(aps)))
  {
    var pre, cells := Significant(preamble), AllCells(aps);
    assert Lines(Print(preamble, aps)) == pre + Flatten(cells) by {
      ScanPrintable(aps);
      LinesOfPrint(preamble + ScanLayout(aps));
      SignificantConcat(preamble, ScanLayout(aps));
      SignificantScan(aps);
    }
    assert IsPreamble(pre) by {
      FillerMisses(preamble, STRUCTURE, CellRE);
      FillerMisses(preamble, STRUCTURE, EssidRE);
      FillerMisses(preamble, STRUCTURE, EncKeyOptRE);
    }
    AllCellsRead(aps);
    CellsAreIndependent(pre, cells);
    CollectIsFirstCells(cells);
    FirstCellsExpected(cells, ExpectedAll(aps));
  }

  lemma OneCell(ap: AccessPoint)
    requires WellFormed(ap)
    ensures ParseLines(CellLines(ap)) == Options([Expected(ap)])
  {
    var cells := [CellLines(ap)];
    CellRead(ap);
    assert Flatten(cells) == CellLines(ap) by {
      assert cells[1..] == [];
    }
    assert [] + Flatten(cells) == CellLines(ap);
    CellsAreIndependent([], cells);
    CollectIsFirstCells(cells);
    assert cells[..0] == [];
  }

  // The lines of a cell with nothing else in it.
  lemma BareCell(ap: AccessPoint, cell: string, key: string, name: string)
    requires ap.before == [] && ap.between == [] && ap.after == [] && WellFormed(ap)
    requires cell == Head(ap) && key == EncLine(ap.encrypted) && name == EssidLine(ap.essid)
    ensures ap.wpa2.None? ==> ParseLines([cell, key, name]) == Options([Expected(ap)])
    ensures ap.wpa2.Some? && ap.wpa2.value.ciphers == [] ==>
              ParseLines([cell, key, name, WPA2_LINE, SuiteLine(ap.wpa2.value.suite)]) == Options([Expected(ap)])
  {
    hide Head, EncLine, EssidLine, SuiteLine, Expected, ParseLines, WellFormed;
    OneCell(ap);
    assert Significant([]) == [];
    if ap.wpa2.None? {
      assert CellLines(ap) == [cell, key, name];
    } else if ap.wpa2.value.ciphers == [] {
      assert CellLines(ap) == [cell, key, name, WPA2_LINE, SuiteLine(ap.wpa2.value.suite)];
    }
  }

  function Bare(essid: string, encrypted: bool, wpa2: Option<Wpa2>): AccessPoint {
    AccessPoint("01", [], encrypted, essid, [], wpa2, [])
  }

  lemma BareIsWellFormed(essid: string, encrypted: bool, wpa2: Option<Wpa2>)
    requires '\n' !in essid && wpa2 in {None, Some(Wpa2([], Psk)), Some(Wpa2([], Dot1x))}
    ensures WellFormed(Bare(essid, encrypted, wpa2)) && Head(Bare(essid, encrypted, wpa2)) == "Cell 01"
  {
    assert "Cell " + "01" == "Cell 01";
  }

  // What the lines of one cell are read as, for each kind of security.
  lemma CellsByKind(essid: string)
    requires '\n' !in essid && PlainEssid(essid)
    ensures ParseLines(["Cell 01", "Encryption key:off", "ESSID:\"" + essid + "\""])
         == Options([WifiOption(essid, NoEnc)])
    ensures ParseLines(["Cell 01", "Encryption key:on", "ESSID:\"" + essid + "\""])
         == Options([WifiOption(essid, NotSupportedProto)])
  {
    hide ParseLines, WellFormed, Head, Shown;
    ShownIff(essid);
    BareIsWellFormed(essid, false, None);
    BareCell(Bare(essid, false, None), "Cell 01", "Encryption key:off", "ESSID:\"" + essid + "\"");
    BareIsWellFormed(essid, true, None);
    BareCell(Bare(essid, true, None), "Cell 01", "Encryption key:on", "ESSID:\"" + essid + "\"");
  }

  lemma CellsBySuite(essid: string)
    requires '\n' !in essid && PlainEssid(essid)
    ensures ParseLines(["Cell 01", "Encryption key:on", "ESSID:\"" + essid + "\"",
                        "IE: IEEE 802.11i/WPA2 Version 1", "Authentication Suites (1) : PSK"])
         == Options([WifiOption(essid, WpaPsk)])
    ensures ParseLines(["Cell 01", "Encryption key:on", "ESSID:\"" + essid + "\"",
                        "IE: IEEE 802.11i/WPA2 Version 1", "Authentication Suites (1) : 802.1x"])
         == Options([WifiOption(essid, WpaEap)])
  {
    hide ParseLines, WellFormed, Head, Shown;
    ShownIff(essid);
    var psk, dot1x := Some(Wpa2([], Psk)), Some(Wpa2([], Dot1x));
    BareIsWellFormed(essid, true, psk);
    BareCell(Bare(essid, true, psk), "Cell 01", "Encryption key:on", "ESSID:\"" + essid + "\"");
    assert "Authentication Suites (1) : " + "PSK" == "Authentication Suites (1) : PSK";
    BareIsWellFormed(essid, true, dot1x);
    BareCell(Bare(essid, true, dot1x), "Cell 01", "Encryption key:on", "ESSID:\"" + essid + "\"");
    assert "Authentication Suites (1) : " + "802.1x" == "Authentication Suites (1) : 802.1x";
  }

  // ---- Which ESSIDs survive ---------------------------------------------

  predicate PlainEssid(essid: string) {
    ':' !in essid && (essid == "" || (essid[0] != '"' && essid[|essid| - 1] != '"'))
  }

  // An ESSID is shown as it is exactly when it holds no colon and has no
  // quote at either end: the parser cuts it at the first colon and strips
  // the quotes.
  lemma ShownIff(essid: string)
    requires '\n' !in essid
    ensures Shown(essid) == essid <==> PlainEssid(essid)
  {
    var quoted := "\"" + essid + "\"";
    if ':' in essid {
      var cut := UpToColon(quoted);
      assert |cut| < |quoted| - 1 by {
        assert quoted[1..] == essid + "\"";
        assert UpToColon(quoted) == ['"'] + UpToColon(essid + "\"");
        CutInside(essid, "\"");
      }
      assert cut[0] == '"';
      TrimShrinks(cut[1..], "\"\n");
    } else {
      assert ':' !in quoted;
      TrimQuotes(essid);
      TrimShrinks(essid, "\"\n");
    }
  }

  lemma {:induction false} CutInside(s: string, t: string)
    requires ':' in s
    ensures |UpToColon(s + t)| < |s|
  {
    assert s[0] == (s + t)[0];
    if s[0] != ':' {
      assert (s + t)[1..] == s[1..] + t;
      CutInside(s[1..], t);
    }
  }

  lemma {:induction false} TrimQuotes(s: string)
    ensures Trim("\"" + s + "\"", "\"\n") == Trim(s, "\"\n")
  {
    var right := s + "\"";
    assert ("\"" + s + "\"")[1..] == right;
    TrimRight(s);
  }

  lemma {:induction false} TrimRight(s: string)
    ensures Trim(s + "\"", "\"\n") == Trim(s, "\"\n")
    decreases |s|
  {
    var right := s + "\"";
    if s == "" {
      assert right[1..] == "";
    } else if s[0] in "\"\n" {
      assert right[1..] == s[1..] + "\"";
      TrimRight(s[1..]);
    } else {
      assert right[..|right| - 1] == s;
    }
  }

  // What an access point announces, ESSID unchanged.
  function Announces(ap: AccessPoint): WifiOption {
    WifiOption(ap.essid, Security(ap))
  }

  function AnnouncedAll(aps: seq<AccessPoint>): seq<WifiOption> {
    seq(|aps|, i requires 0 <= i < |aps| => Announces(aps[i]))
  }

  predicate AllPlain(aps: seq<AccessPoint>) {
    forall i :: 0 <= i < |aps| ==> PlainEssid(aps[i].essid)
  }

  // On plain ESSIDs the parser inverts the printer.
  lemma RoundTrip(preamble: seq<string>, aps: seq<AccessPoint>)
    requires Filler(preamble, STRUCTURE) && AllWellFormed(aps) && AllPlain(aps)
    ensures ParseLines(Lines(Print(preamble, aps))) == Options(FirstOfEach(AnnouncedAll(aps)))
  {
    ParsePrint(preamble, aps);
    forall i | 0 <= i < |aps|
      ensures ExpectedAll(aps)[i] == AnnouncedAll(aps)[i]
    {
      assert WellFormed(aps[i]);
      ShownIff(aps[i].essid);
    }
    assert ExpectedAll(aps) == AnnouncedAll(aps);
  }

  // Whatever is shown is plain.
  lemma ShownIsPlain(essid: string)
    ensures PlainEssid(Shown(essid))
  {
    TrimHasNo(UpToColon("\"" + essid + "\""), "\"\n", ':');
  }

  // Of no ESSID all options are dropped, and none is added.
  lemma {:induction false} FirstOfEachEssids(options: seq<WifiOption>, essid: string)
    ensures EssidIn(FirstOfEach(options), essid) <==> EssidIn(options, essid)
  {
    if options != [] {
      var n := |options| - 1;
      var before, last := options[..n], options[n];
      FirstOfEachEssids(before, essid);
      EssidInSnoc(before, last, essid);
      EssidInSnoc(FirstOfEach(before), last, essid);
      assert options == before + [last];
      if EssidIn(before, last.essid) {
        assert FirstOfEach(options) == FirstOfEach(before);
      } else {
        assert FirstOfEach(options) == FirstOfEach(before) + [last];
      }
    }
  }

  lemma EssidInSnoc(options: seq<WifiOption>, last: WifiOption, essid: string)
    ensures EssidIn(options + [last], essid) <==> EssidIn(options, essid) || last.essid == essid
  {
    var all := options + [last];
    if i :| 0 <= i < |options| && options[i].essid == essid {
      assert all[i].essid == essid;
    }
    if i :| 0 <= i < |all| && all[i].essid == essid {
      assert i < |options| ==> options[i].essid == essid;
    }
    assert all[|options|] == last;
  }

  // An ESSID that is not plain is announced but never reported.
  lemma NotPlainIsLost(aps: seq<AccessPoint>, i: nat)
    requires i < |aps| && !PlainEssid(aps[i].essid)
    ensures FirstOfEach(ExpectedAll(aps)) != FirstOfEach(AnnouncedAll(aps))
  {
    var essid := aps[i].essid;
    assert AnnouncedAll(aps)[i].essid == essid;
    FirstOfEachEssids(AnnouncedAll(aps), essid);
    FirstOfEachEssids(ExpectedAll(aps), essid);
    forall k | 0 <= k < |aps|
      ensures ExpectedAll(aps)[k].essid != essid
    {
      ShownIsPlain(aps[k].essid);
    }
  }

  // The access points are read back unchanged, the first of each ESSID, if and
  // only if all their ESSIDs are plain.
  lemma RoundTripIff(preamble: seq<string>, aps: seq<AccessPoint>)
    requires Filler(preamble, STRUCTURE) && AllWellFormed(aps)
    ensures ParseLines(Lines(Print(preamble, aps))) == Options(FirstOfEach(AnnouncedAll(aps))) <==> AllPlain(aps)
  {
    if AllPlain(aps) {
      RoundTrip(preamble, aps);
    } else {
      var i :| 0 <= i < |aps| && !PlainEssid(aps[i].essid);
      ParsePrint(preamble, aps);
      NotPlainIsLost(aps, i);
    }
  }

  // The ESSID a:b is read as a.
  lemma ColonCutsEssid(ap: AccessPoint)
    requires WellFormed(ap) && ap.essid == "a:b"
    ensures ParseLines(Lines(Print([], [ap]))) == Options([WifiOption("a", Security(ap))])
  {
    var quoted := "\"" + ap.essid + "\"";
    assert quoted[1..][1..][0] == ':';
    assert UpToColon(quoted) == "\"a";
    assert "\"a"[1..] == "a";
    TrimShrinks("a", "\"\n");
    ParsePrint([], [ap]);
    assert ExpectedAll([ap]) == [Expected(ap)];
    var options := [Expected(ap)];
    assert options[..0] == [];
    assert FirstOfEach(options) == [Expected(ap)];
  }
}
