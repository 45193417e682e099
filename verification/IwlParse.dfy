/** parseIwlistOut (pkg/wifi/iwl.go): three independent match lists combined by
    index, byte ranges cut out of the scan, duplicates dropped, the security
    protocol read from the range. An index out of range is a panic. */
module IwlParse {
  import opened Wrappers
  import opened Text
  import opened IwlPatterns

  datatype SecProto = NoEnc | WpaPsk | WpaEap | NotSupportedProto

  // wifi.Option
  datatype WifiOption = WifiOption(essid: string, authSuite: SecProto)

  datatype ScanResult = Options(options: seq<WifiOption>) | Panic

  // ---- What the scan means on lines -------------------------------------

  function EssidOf(line: string): Option<string> {
    match SecondField(line)
    case None => None
    case Some(field) => Some(Trim(field, "\"\n"))
  }

  function EncKeyOf(line: string): Option<string> {
    match SecondField(line)
    case None => None
    case Some(field) => Some(Trim(field, "\n"))
  }

  function SuiteProto(suite: string): SecProto {
    if suite == "PSK" then WpaPsk
    else if suite == "802.1x" then WpaEap
    else NotSupportedProto
  }

  function SuiteOf(line: string): Option<SecProto> {
    match SecondField(line)
    case None => None
    case Some(field) => Some(SuiteProto(Trim(field, "\n ")))
  }

  // The lines up to the next Cell line.
  function UntilCell(lines: seq<string>): seq<string> {
    if lines == [] || Hit(CellRE, lines[0]) then [] else [lines[0]] + UntilCell(lines[1..])
  }

  // Each Cell line with the lines up to the next one.
  function Blocks(lines: seq<string>): seq<seq<string>> {
    if lines == [] then []
    else if Hit(CellRE, lines[0]) then [[lines[0]] + UntilCell(lines[1..])] + Blocks(lines[1..])
    else Blocks(lines[1..])
  }

  // The protocol of an encrypted cell: the first Authentication Suites line
  // at or after the first WPA2 line decides. None is a panic.
  function Classify(block: seq<string>): Option<SecProto> {
    if Hits(Wpa2RE, block) == [] then Some(NotSupportedProto)
    else
      var suites := Hits(AuthSuitesRE, FromHit(Wpa2RE, block, 0));
      if suites == [] then None else SuiteOf(suites[0])
  }

  function Protocol(encKey: string, block: seq<string>): Option<SecProto> {
    match EncKeyOf(encKey)
    case None => None
    case Some(key) => if key == "off" then Some(NoEnc) else Classify(block)
  }

  function Drop<T>(s: seq<T>, i: nat): seq<T> {
    if i <= |s| then s[i..] else []
  }

  function Prepend(options: seq<WifiOption>, r: ScanResult): ScanResult {
    match r
    case Panic => Panic
    case Options(more) => Options(options + more)
  }

  // The three lists combined by index.
  function Combine(blocks: seq<seq<string>>, essids: seq<string>, encKeys: seq<string>, known: set<string>): ScanResult
    decreases |blocks|
  {
    if blocks == [] then Options([])
    else if essids == [] || EssidOf(essids[0]).None? then Panic
    else
      var essid := EssidOf(essids[0]).value;
      if essid in known then
        Combine(blocks[1..], essids[1..], Drop(encKeys, 1), known)
      else if encKeys == [] || Protocol(encKeys[0], blocks[0]).None? then Panic
      else
        var option := WifiOption(essid, Protocol(encKeys[0], blocks[0]).value);
        Prepend([option], Combine(blocks[1..], essids[1..], encKeys[1..], known + {essid}))
  }

  function ParseLines(lines: seq<string>): ScanResult {
    Combine(Blocks(lines), Hits(EssidRE, lines), Hits(EncKeyOptRE, lines), {})
  }

  // The result from cell i on, the lists being those of lines.
  function ParseFrom(lines: seq<string>, i: nat, known: set<string>): ScanResult {
    Combine(Drop(Blocks(lines), i), Drop(Hits(EssidRE, lines), i), Drop(Hits(EncKeyOptRE, lines), i), known)
  }

  lemma DropStep<T>(s: seq<T>, i: nat)
    ensures Drop(Drop(s, i), 1) == Drop(s, i + 1)
    ensures i < |s| ==> Drop(s, i) == [s[i]] + Drop(s, i + 1)
    ensures i >= |s| ==> Drop(s, i) == []
  {
  }

  // One round of the combination, by index.
  function Round(lines: seq<string>, i: nat, known: set<string>): ScanResult {
    var blocks, names, keys := Blocks(lines), Hits(EssidRE, lines), Hits(EncKeyOptRE, lines);
    if i >= |blocks| then Options([])
    else if i >= |names| || EssidOf(names[i]).None? then Panic
    else
      var essid := EssidOf(names[i]).value;
      if essid in known then ParseFrom(lines, i + 1, known)
      else if i >= |keys| || Protocol(keys[i], blocks[i]).None? then Panic
      else
        var option := WifiOption(essid, Protocol(keys[i], blocks[i]).value);
        Prepend([option], ParseFrom(lines, i + 1, known + {essid}))
  }

  lemma ParseFromStep(lines: seq<string>, i: nat, known: set<string>)
    ensures ParseFrom(lines, i, known) == Round(lines, i, known)
  {
    DropStep(Blocks(lines), i);
    DropStep(Hits(EssidRE, lines), i);
    DropStep(Hits(EncKeyOptRE, lines), i);
  }

  lemma PrependTwice(a: seq<WifiOption>, option: WifiOption, r: ScanResult)
    ensures Prepend(a, Prepend([option], r)) == Prepend(a + [option], r)
  {
    if r.Options? {
      assert a + ([option] + r.options) == a + [option] + r.options;
    }
  }

  // ---- From bytes to lines ----------------------------------------------

  lemma {:induction false} UntilCellRest(lines: seq<string>)
    ensures lines == UntilCell(lines) + (if Hits(CellRE, lines) == [] then [] else FromHit(CellRE, lines, 0))
  {
    if lines != [] && !Hit(CellRE, lines[0]) {
      UntilCellRest(lines[1..]);
    }
  }

  function FromHitOrEnd(lines: seq<string>, i: nat): seq<string> {
    if i < |Hits(CellRE, lines)| then FromHit(CellRE, lines, i) else []
  }

  // Block i is what lies between the i-th Cell line and the next.
  lemma {:induction false} BlockBetweenCells(lines: seq<string>, i: nat)
    requires i < |Hits(CellRE, lines)|
    ensures |Blocks(lines)| == |Hits(CellRE, lines)|
    ensures FromHit(CellRE, lines, i) == Blocks(lines)[i] + FromHitOrEnd(lines, i + 1)
  {
    if !Hit(CellRE, lines[0]) {
      BlockBetweenCells(lines[1..], i);
    } else if i == 0 {
      BlocksCount(lines);
      UntilCellRest(lines[1..]);
      assert FromHitOrEnd(lines, 1) == FromHitOrEnd(lines[1..], 0);
    } else {
      BlockBetweenCells(lines[1..], i - 1);
      assert FromHitOrEnd(lines, i + 1) == FromHitOrEnd(lines[1..], i);
    }
  }

  lemma BlocksCount(lines: seq<string>)
    ensures |Blocks(lines)| == |Hits(CellRE, lines)|
  {
  }

  lemma CancelSuffix<T>(a: seq<T>, b: seq<T>, c: seq<T>)
    requires a + c == b + c
    ensures a == b
  {
    assert |a + c| == |b + c|;
    assert a == (a + c)[..|a|];
    assert b == (b + c)[..|a|];
  }

  lemma SuffixLines(o: string, p: nat)
    requires LineStart(o, p)
    ensures Lines(o[p..]) == LinesFrom(o, p)
  {
    hide LinesFrom;
    var a := o[p..];
    assert PartOf(a, o, p);
    PartLines(a, o, p, 0);
    NoLinesAtEnd(o);
  }

  // The lines of a range that ends where a line starts.
  lemma RangeLines(o: string, start: nat, end: nat)
    requires start <= end <= |o| && (LineStart(o, end) || end == |o|)
    ensures LinesFrom(o, start) == Lines(o[start..end]) + LinesFrom(o, end)
  {
    hide LinesFrom;
    var a := o[start..end];
    assert PartOf(a, o, start);
    PartLines(a, o, start, 0);
  }

  // Where match i starts.
  lemma MatchStart(re: Pattern, o: string, ms: seq<Match>, i: nat)
    requires ms == FindAll(re, o, 0) && DescribesAll(re, o, Lines(o), ms) && i < |ms|
    ensures LineStart(o, ms[i].start) && LinesFrom(o, ms[i].start) == FromHit(re, Lines(o), i)
    ensures i + 1 < |ms| ==> ms[i].start < ms[i + 1].start
  {
    assert Describes(re, o, Lines(o), ms[i], i);
    FindAllOrdered(re, o, 0, i);
  }

  // The byte range of cell i holds exactly the lines of block i.
  lemma CellRange(o: string, cells: seq<Match>, i: nat, end: nat)
    requires cells == FindAll(CellRE, o, 0) && DescribesAll(CellRE, o, Lines(o), cells)
    requires i < |cells|
    requires end == if i + 1 < |cells| then cells[i + 1].start else |o|
    ensures |cells| == |Blocks(Lines(o))|
    ensures cells[i].start <= end <= |o|
    ensures Lines(o[cells[i].start..end]) == Blocks(Lines(o))[i]
  {
    hide FindAll, Describes, Blocks, FromHit, LinesFrom, Hits;
    var lines := Lines(o);
    BlockBetweenCells(lines, i);
    MatchStart(CellRE, o, cells, i);
    if i + 1 < |cells| {
      MatchStart(CellRE, o, cells, i + 1);
    } else {
      NoLinesAtEnd(o);
    }
    RangeLines(o, cells[i].start, end);
    CancelSuffix(Lines(o[cells[i].start..end]), Blocks(lines)[i], LinesFrom(o, end));
  }

  lemma {:induction false} FindAllOrdered(re: Pattern, o: string, p: nat, i: nat)
    requires p <= |o| && i < |FindAll(re, o, p)|
    ensures p <= FindAll(re, o, p)[i].start <= |o|
    ensures i + 1 < |FindAll(re, o, p)| ==> FindAll(re, o, p)[i].start < FindAll(re, o, p)[i + 1].start
    decreases |o| - p
  {
    var ms := FindAll(re, o, p);
    if Matches(re, o, p) {
      var end := MatchEnd(re, o, p);
      if i > 0 {
        FindAllOrdered(re, o, end, i - 1);
      } else if 1 < |ms| {
        FindAllOrdered(re, o, end, 0);
      }
    } else {
      FindAllOrdered(re, o, p + 1, i);
    }
  }

  // The blanks a match starts with hold no colon.
  lemma {:induction false} SecondFieldOfMatch(o: string, p: nat, end: nat)
    requires p <= |o| && SpaceEnd(o, p) <= end <= |o|
    ensures SecondField(o[p..end]) == SecondField(o[SpaceEnd(o, p)..end])
    decreases |o| - p
  {
    if p < SpaceEnd(o, p) {
      assert o[p..end][1..] == o[p + 1..end];
      SecondFieldOfMatch(o, p + 1, end);
    }
  }

  // A match of a pattern that takes whole lines covers the line.
  lemma MatchCovers(re: Pattern, o: string, p: nat)
    requires !re.CellRE? && Matches(re, o, p)
    ensures o[SpaceEnd(o, p)..MatchEnd(re, o, p)] == LineAt(o, p)
    ensures !BlankFrom(o, p)
  {
    assert |LineAt(o, p)| == LineEnd(o, SpaceEnd(o, p)) - SpaceEnd(o, p);
  }

  lemma FirstOfLines(o: string, p: nat)
    requires p <= |o| && !BlankFrom(o, p)
    ensures LinesFrom(o, p)[0] == LineAt(o, p)
  {
  }

  // The text of a match says what the line says.
  lemma MatchText(re: Pattern, o: string, lines: seq<string>, m: Match, i: nat)
    requires !re.CellRE? && Describes(re, o, lines, m, i)
    ensures m.start <= m.end <= |o|
    ensures SecondField(o[m.start..m.end]) == SecondField(Hits(re, lines)[i])
  {
    MatchCovers(re, o, m.start);
    FirstOfLines(o, m.start);
    assert LineAt(o, m.start) == Hits(re, lines)[i];
    SecondFieldOfMatch(o, m.start, m.end);
  }

  // ---- The code ---------------------------------------------------------

  function FindFirst(re: Pattern, o: string): Option<Match> {
    var ms := FindAll(re, o, 0);
    if ms == [] then None else Some(ms[0])
  }

  // The protocol of the cell in wpa2SearchArea.
  method ClassifyRange(wpa2SearchArea: string) returns (proto: Option<SecProto>)
    ensures proto == Classify(Lines(wpa2SearchArea))
  {
    ghost var block := Lines(wpa2SearchArea);
    var l := FindFirst(Wpa2RE, wpa2SearchArea);
    FindAllDescribes(Wpa2RE, wpa2SearchArea, 0);
    if l == None {
      return Some(NotSupportedProto);
    }
    assert Describes(Wpa2RE, wpa2SearchArea, block, l.value, 0);
    var authSearchArea := wpa2SearchArea[l.value.start..];
    SuffixLines(wpa2SearchArea, l.value.start);
    FindAllDescribes(AuthSuitesRE, authSearchArea, 0);
    var auth := FindFirst(AuthSuitesRE, authSearchArea);
    if auth == None {
      return None;  // the empty text has no second field
    }
    assert Describes(AuthSuitesRE, authSearchArea, Lines(authSearchArea), auth.value, 0);
    MatchText(AuthSuitesRE, authSearchArea, Lines(authSearchArea), auth.value, 0);
    proto := SuiteOf(authSearchArea[auth.value.start..auth.value.end]);
  }

  method ParseIwlistOut(o: string) returns (r: ScanResult)
    ensures r == ParseLines(Lines(o))
  {
    hide LinesFrom, Hits, FindAll, Describes, Combine, SecondField;
    var cells := FindAll(CellRE, o, 0);
    var essids := FindAll(EssidRE, o, 0);
    var encKeyOpts := FindAll(EncKeyOptRE, o, 0);
    ghost var lines := Lines(o);
    FindAllDescribes(CellRE, o, 0);
    FindAllDescribes(EssidRE, o, 0);
    FindAllDescribes(EncKeyOptRE, o, 0);
    BlocksCount(lines);

    var res: seq<WifiOption> := [];
    var knownEssids: set<string> := {};
    var i := 0;
    while i < |cells|
      invariant i <= |cells|
      invariant ParseLines(lines) == Prepend(res, ParseFrom(lines, i, knownEssids))
    {
      ParseFromStep(lines, i, knownEssids);
      if i >= |essids| {
        return Panic;
      }
      MatchText(EssidRE, o, lines, essids[i], i);
      var essid := EssidOf(o[essids[i].start..essids[i].end]);
      assert essid == EssidOf(Hits(EssidRE, lines)[i]);
      if essid == None {
        return Panic;
      }
      if essid.value in knownEssids {
        i := i + 1;
        continue;
      }
      ghost var rest := ParseFrom(lines, i + 1, knownEssids + {essid.value});
      knownEssids := knownEssids + {essid.value};
      if i >= |encKeyOpts| {
        return Panic;
      }
      MatchText(EncKeyOptRE, o, lines, encKeyOpts[i], i);
      var encKeyOpt := EncKeyOf(o[encKeyOpts[i].start..encKeyOpts[i].end]);
      assert encKeyOpt == EncKeyOf(Hits(EncKeyOptRE, lines)[i]);
      if encKeyOpt == None {
        return Panic;
      }
      if encKeyOpt.value == "off" {
        PrependTwice(res, WifiOption(essid.value, NoEnc), rest);
        res := res + [WifiOption(essid.value, NoEnc)];
        i := i + 1;
        continue;
      }
      var start, end := cells[i].start, |o|;
      if i != |cells| - 1 {
        end := cells[i + 1].start;
      }
      CellRange(o, cells, i, end);
      var proto := ClassifyRange(o[start..end]);
      if proto == None {
        return Panic;
      }
      PrependTwice(res, WifiOption(essid.value, proto.value), rest);
      res := res + [WifiOption(essid.value, proto.value)];
      i := i + 1;
    }
    ParseFromStep(lines, i, knownEssids);
    r := Options(res);
  }
}
