/** The five multi-line regular expressions of pkg/wifi/iwl.go with Go's
    leftmost, non-overlapping FindAll on bytes, and what they amount to on
    lines. All five have the shape (?m)^\s*BODY, and \s* also runs across
    newlines: a match may begin on blank lines above the line it is about. */
module IwlPatterns {
  import opened Wrappers
  import opened Text

  datatype Pattern = CellRE | EssidRE | EncKeyOptRE | Wpa2RE | AuthSuitesRE

  // The dot of the WPA2 pattern is not quoted: it stands for any character.
  const WPA2_HEAD := "IE: IEEE 802"
  const WPA2_TAIL := "11i/WPA2 Version 1"
  const ENC_ON := "Encryption key:on"
  const ENC_OFF := "Encryption key:off"

  predicate Continues(c: char) {
    '\U{0080}' <= c <= '\U{00bf}'
  }

  // What the dot matches, before the 1 that follows it: the UTF-8 encoding of
  // a character, or one byte that is not part of one; but not a newline.
  predicate IsCharacter(x: string) {
    match |x|
    case 1 => x[0] != '\n'
    case 2 => '\U{00c2}' <= x[0] <= '\U{00df}' && Continues(x[1])
    case 3 =>
      && '\U{00e0}' <= x[0] <= '\U{00ef}' && Continues(x[1]) && Continues(x[2])
      && (x[0] == '\U{00e0}' ==> '\U{00a0}' <= x[1])
      && (x[0] == '\U{00ed}' ==> x[1] <= '\U{009f}')
    case 4 =>
      && '\U{00f0}' <= x[0] <= '\U{00f4}' && Continues(x[1]) && Continues(x[2]) && Continues(x[3])
      && (x[0] == '\U{00f0}' ==> '\U{0090}' <= x[1])
      && (x[0] == '\U{00f4}' ==> x[1] <= '\U{008f}')
    case _ => false
  }

  predicate IsWpa2Line(line: string) {
    && |line| > |WPA2_HEAD| + |WPA2_TAIL|
    && WPA2_HEAD <= line
    && line[|line| - |WPA2_TAIL|..] == WPA2_TAIL
    && IsCharacter(line[|WPA2_HEAD|..|line| - |WPA2_TAIL|])
  }

  // How much of line the part of the pattern after \s* matches. line is the
  // text up to the next newline and does not start with white space.
  function Body(re: Pattern, line: string): (n: Option<nat>)
    ensures n.Some? ==> 0 < n.value <= |line|
    ensures n.Some? && !re.CellRE? ==> n.value == |line|
  {
    match re
    case CellRE => if "Cell" <= line then Some(4) else None
    case EssidRE => if "ESSID" <= line then Some(|line|) else None
    case EncKeyOptRE => if line == ENC_ON || line == ENC_OFF then Some(|line|) else None
    case Wpa2RE => if IsWpa2Line(line) then Some(|line|) else None
    case AuthSuitesRE => if "Authentication Suites " <= line then Some(|line|) else None
  }

  predicate Hit(re: Pattern, line: string) {
    Body(re, line).Some?
  }

  // A match of re can start at p only where a line starts.
  predicate Matches(re: Pattern, o: string, p: nat) {
    LineStart(o, p) && Hit(re, LineAt(o, p))
  }

  function MatchEnd(re: Pattern, o: string, p: nat): (end: nat)
    requires Matches(re, o, p)
    ensures p <= SpaceEnd(o, p) < end <= LineEnd(o, SpaceEnd(o, p))
  {
    SpaceEnd(o, p) + Body(re, LineAt(o, p)).value
  }

  datatype Match = Match(start: nat, end: nat)

  // FindAllIndex: the matches in o from position p on.
  function FindAll(re: Pattern, o: string, p: nat): (ms: seq<Match>)
    requires p <= |o|
    decreases |o| - p
  {
    if p == |o| then []
    else if Matches(re, o, p) then
      [Match(p, MatchEnd(re, o, p))] + FindAll(re, o, MatchEnd(re, o, p))
    else
      FindAll(re, o, p + 1)
  }

  // The lines a pattern hits, in order.
  function Hits(re: Pattern, lines: seq<string>): (hits: seq<string>)
    ensures |hits| <= |lines|
  {
    if lines == [] then []
    else if Hit(re, lines[0]) then [lines[0]] + Hits(re, lines[1..])
    else Hits(re, lines[1..])
  }

  // The lines from the i-th hit on.
  function FromHit(re: Pattern, lines: seq<string>, i: nat): (suffix: seq<string>)
    requires i < |Hits(re, lines)|
    ensures 0 < |suffix| <= |lines|
    ensures suffix[0] == Hits(re, lines)[i] && Hit(re, suffix[0])
  {
    if !Hit(re, lines[0]) then FromHit(re, lines[1..], i)
    else if i == 0 then lines
    else FromHit(re, lines[1..], i - 1)
  }

  lemma {:induction false} HitsConcat(re: Pattern, a: seq<string>, b: seq<string>)
    ensures Hits(re, a + b) == Hits(re, a) + Hits(re, b)
  {
    if a == [] {
      assert a + b == b;
    } else {
      assert (a + b)[1..] == a[1..] + b;
      HitsConcat(re, a[1..], b);
    }
  }

  lemma {:induction false} FromHitConcat(re: Pattern, a: seq<string>, b: seq<string>, i: nat)
    requires i < |Hits(re, a)| + |Hits(re, b)|
    ensures |Hits(re, a + b)| == |Hits(re, a)| + |Hits(re, b)|
    ensures FromHit(re, a + b, i)
         == if i < |Hits(re, a)| then FromHit(re, a, i) + b else FromHit(re, b, i - |Hits(re, a)|)
  {
    hide Hit, Hits, FromHit;
    HitsConcat(re, a, b);
    if a == [] {
      NoLinesNoHits(re);
      assert a + b == b;
    } else {
      assert (a + b)[1..] == a[1..] + b;
      FromHitStep(re, a + b, i);
      if i < |Hits(re, a)| {
        FromHitStep(re, a, i);
      }
      HitsStep(re, a);
      if !Hit(re, a[0]) {
        FromHitConcat(re, a[1..], b, i);
      } else if i > 0 {
        FromHitConcat(re, a[1..], b, i - 1);
      }
    }
  }

  lemma NoLinesNoHits(re: Pattern)
    ensures Hits(re, []) == []
  {
  }

  lemma HitsStep(re: Pattern, lines: seq<string>)
    requires lines != []
    ensures |Hits(re, lines)| == |Hits(re, lines[1..])| + (if Hit(re, lines[0]) then 1 else 0)
  {
  }

  lemma FromHitStep(re: Pattern, lines: seq<string>, i: nat)
    requires lines != [] && i < |Hits(re, lines)|
    ensures !Hit(re, lines[0]) ==>
              i < |Hits(re, lines[1..])| && FromHit(re, lines, i) == FromHit(re, lines[1..], i)
    ensures Hit(re, lines[0]) && i == 0 ==> FromHit(re, lines, i) == lines
    ensures Hit(re, lines[0]) && i > 0 ==>
              i - 1 < |Hits(re, lines[1..])| && FromHit(re, lines, i) == FromHit(re, lines[1..], i - 1)
  {
  }

  // The five patterns tell lines apart by their first two bytes.
  lemma HitPrefix(re: Pattern, line: string)
    requires Hit(re, line)
    ensures |line| >= 2
    ensures line[0] == (match re case CellRE => 'C' case AuthSuitesRE => 'A' case Wpa2RE => 'I' case _ => 'E')
    ensures line[1] == (match re
                        case CellRE => 'e' case EssidRE => 'S' case EncKeyOptRE => 'n'
                        case Wpa2RE => 'E' case AuthSuitesRE => 'u')
  {
    assert re.CellRE? ==> line[0] == "Cell"[0] && line[1] == "Cell"[1];
    assert re.Wpa2RE? ==> line[0] == WPA2_HEAD[0] && line[1] == WPA2_HEAD[1];
    assert re.EssidRE? ==> line[0] == "ESSID"[0] && line[1] == "ESSID"[1];
    assert re.AuthSuitesRE? ==> line[0] == "Authentication Suites "[0] && line[1] == "Authentication Suites "[1];
  }

  lemma HitOnce(re: Pattern, other: Pattern, line: string)
    requires Hit(re, line) && Hit(other, line)
    ensures re == other
  {
    HitPrefix(re, line);
    HitPrefix(other, line);
  }

  lemma AnyCharacterHits(x: string)
    requires IsCharacter(x)
    ensures Hit(Wpa2RE, "IE: IEEE 802" + x + "11i/WPA2 Version 1")
  {
    assert x != "";
    var line := WPA2_HEAD + x + WPA2_TAIL;
    assert line[|line| - |WPA2_TAIL|..] == WPA2_TAIL;
    assert line[|WPA2_HEAD|..|line| - |WPA2_TAIL|] == x;
  }

  // The WPA2 pattern takes the lines with any character in place of the dot.
  lemma Wpa2LineIff(line: string)
    ensures Hit(Wpa2RE, line) <==> exists x :: IsCharacter(x) && line == "IE: IEEE 802" + x + "11i/WPA2 Version 1"
  {
    hide IsCharacter;
    if Hit(Wpa2RE, line) {
      assert IsWpa2Line(line);
      var i, j := |WPA2_HEAD|, |line| - |WPA2_TAIL|;
      var x := line[i..j];
      assert line[..i] == WPA2_HEAD;
      assert line == line[..i] + x + line[j..];
      assert IsCharacter(x) && line == WPA2_HEAD + x + WPA2_TAIL;
    }
    forall x | IsCharacter(x) && line == "IE: IEEE 802" + x + "11i/WPA2 Version 1"
      ensures Hit(Wpa2RE, line)
    {
      AnyCharacterHits(x);
    }
  }

  // The other four patterns.
  lemma LineIff(line: string)
    ensures Hit(CellRE, line) <==> "Cell" <= line
    ensures Hit(EssidRE, line) <==> "ESSID" <= line
    ensures Hit(EncKeyOptRE, line) <==> line == "Encryption key:on" || line == "Encryption key:off"
    ensures Hit(AuthSuitesRE, line) <==> "Authentication Suites " <= line
  {
  }

  // UTF-8, for what it takes more than one byte to write.
  predicate IsCodePoint(c: nat) {
    0x80 <= c < 0xd800 || 0xe000 <= c <= 0x10ffff
  }

  function Continuation(c: nat): char {
    (0x80 + c % 64) as char
  }

  function Utf8(c: nat): string
    requires IsCodePoint(c)
  {
    if c < 0x800 then [(0xc0 + c / 64) as char, Continuation(c)]
    else if c < 0x10000 then [(0xe0 + c / 64 / 64) as char, Continuation(c / 64), Continuation(c)]
    else [(0xf0 + c / 64 / 64 / 64) as char, Continuation(c / 64 / 64), Continuation(c / 64), Continuation(c)]
  }

  lemma Utf8IsCharacter(c: nat)
    requires IsCodePoint(c)
    ensures IsCharacter(Utf8(c))
  {
  }

  lemma LastDigit(a: int, b: int)
    requires 0 <= b < 64
    ensures (a * 64 + b) / 64 == a && (a * 64 + b) % 64 == b
  {
  }

  function Low(c: char): int {
    c as int - 0x80
  }

  lemma ContinuationOf(a: nat, c: char)
    requires Continues(c)
    ensures a * 64 + Low(c) >= 0 && (a * 64 + Low(c)) / 64 == a && Continuation(a * 64 + Low(c)) == c
  {
    LastDigit(a, Low(c));
  }

  lemma CharacterIsUtf8(x: string) returns (c: nat)
    requires IsCharacter(x) && |x| > 1
    ensures IsCodePoint(c) && Utf8(c) == x
  {
    hide Continuation;
    if |x| == 2 {
      var a := x[0] as int - 0xc0;
      ContinuationOf(a, x[1]);
      c := a * 64 + Low(x[1]);
    } else if |x| == 3 {
      var a := x[0] as int - 0xe0;
      var b := a * 64 + Low(x[1]);
      ContinuationOf(a, x[1]);
      ContinuationOf(b, x[2]);
      c := b * 64 + Low(x[2]);
    } else {
      var a := x[0] as int - 0xf0;
      var b := a * 64 + Low(x[1]);
      var d := b * 64 + Low(x[2]);
      ContinuationOf(a, x[1]);
      ContinuationOf(b, x[2]);
      ContinuationOf(d, x[3]);
      c := d * 64 + Low(x[3]);
    }
  }

  // What the dot stands for is one byte or the encoding of a code point.
  lemma CharacterIff(x: string)
    ensures IsCharacter(x)
        <==> if |x| == 1 then x != "\n" else exists c: nat :: IsCodePoint(c) && x == Utf8(c)
  {
    if |x| > 1 && IsCharacter(x) {
      var c := CharacterIsUtf8(x);
    }
    forall c: nat | IsCodePoint(c) && x == Utf8(c)
      ensures IsCharacter(x)
    {
      Utf8IsCharacter(c);
    }
  }

  // ---- Scanning one line ------------------------------------------------

  // White space before a line does not change what is found on it.
  lemma {:induction false} FindAllSpace(re: Pattern, o: string, p: nat, x: nat)
    requires p <= |o| && p <= x <= SpaceEnd(o, p)
    requires !Hit(re, LineAt(o, p))
    ensures SpaceEnd(o, x) == SpaceEnd(o, p)
    ensures FindAll(re, o, p) == FindAll(re, o, x)
    decreases x - p
  {
    if p < x {
      assert LineAt(o, p + 1) == LineAt(o, p);
      FindAllSpace(re, o, p + 1, x);
    }
  }

  // Inside a line, at x, no match can start.
  lemma {:induction false} FindAllInsideLine(re: Pattern, o: string, x: nat)
    requires 0 < x <= |o| && o[x - 1] != '\n'
    ensures FindAll(re, o, x) == FindAll(re, o, LineEnd(o, x))
    ensures LineEnd(o, x) < |o| ==> FindAll(re, o, x) == FindAll(re, o, LineEnd(o, x) + 1)
    decreases |o| - x
  {
    hide IsWpa2Line;
    if x < |o| && o[x] != '\n' {
      FindAllInsideLine(re, o, x + 1);
    }
  }

  lemma LineEndFrom(o: string, p: nat, x: nat)
    requires p <= x <= |o| && x <= LineEnd(o, p)
    ensures LineEnd(o, x) == LineEnd(o, p)
    ensures p < x ==> o[x - 1] != '\n'
    decreases x - p
  {
    if p + 1 < x {
      LineEndFrom(o, p + 1, x);
    }
  }

  // From any place on a line, the scan gets to the line after it.
  lemma FindAllRestOfLine(re: Pattern, o: string, p: nat, x: nat)
    requires p <= |o| && SpaceEnd(o, p) < x <= LineEnd(o, SpaceEnd(o, p))
    ensures FindAll(re, o, x) == FindAll(re, o, Next(o, p))
  {
    hide SpaceEnd, FindAll;
    LineEndFrom(o, SpaceEnd(o, p), x);
    FindAllInsideLine(re, o, x);
  }

  // One significant line of the scan.
  lemma FindAllStep(re: Pattern, o: string, p: nat)
    requires LineStart(o, p)
    ensures FindAll(re, o, p)
         == (if Matches(re, o, p) then [Match(p, MatchEnd(re, o, p))] else []) + FindAll(re, o, Next(o, p))
  {
    hide IsWpa2Line;
    var w := SpaceEnd(o, p);
    if Matches(re, o, p) {
      FindAllRestOfLine(re, o, p, MatchEnd(re, o, p));
    } else {
      FindAllSpace(re, o, p, w);
      if w < |o| {
        FindAllRestOfLine(re, o, p, w + 1);
      }
    }
  }

  // ---- All matches ------------------------------------------------------

  // What a match m in o says about lines, the lines of o from some place on,
  // when i is its rank among the matches from there on.
  predicate Describes(re: Pattern, o: string, lines: seq<string>, m: Match, i: nat) {
    && i < |Hits(re, lines)|
    && LineStart(o, m.start)
    && LinesFrom(o, m.start) == FromHit(re, lines, i)
    && Matches(re, o, m.start)
    && m.end == MatchEnd(re, o, m.start)
  }

  predicate DescribesAll(re: Pattern, o: string, lines: seq<string>, ms: seq<Match>) {
    && |ms| == |Hits(re, lines)|
    && forall i :: 0 <= i < |ms| ==> Describes(re, o, lines, ms[i], i)
  }

  // A description survives a line put in front.
  lemma DescribesLater(re: Pattern, o: string, lines: seq<string>, m: Match, i: nat)
    requires lines != []
    requires Describes(re, o, lines[1..], m, i)
    ensures Describes(re, o, lines, m, if Hit(re, lines[0]) then i + 1 else i)
  {
    var j := if Hit(re, lines[0]) then i + 1 else i;
    assert j < |Hits(re, lines)|;
    assert FromHit(re, lines, j) == FromHit(re, lines[1..], i);
  }

  lemma DescribesAllLater(re: Pattern, o: string, lines: seq<string>, first: seq<Match>, later: seq<Match>)
    requires lines != []
    requires DescribesAll(re, o, lines[1..], later)
    requires |first| == if Hit(re, lines[0]) then 1 else 0
    requires first != [] ==> Describes(re, o, lines, first[0], 0)
    ensures DescribesAll(re, o, lines, first + later)
  {
    hide Hit, Describes;
    var ms := first + later;
    forall i | 0 <= i < |ms|
      ensures Describes(re, o, lines, ms[i], i)
    {
      if i >= |first| {
        var m := later[i - |first|];
        assert Describes(re, o, lines[1..], m, i - |first|);
        DescribesLater(re, o, lines, m, i - |first|);
      }
    }
  }

  // The byte-level scan finds exactly the lines the pattern hits: match i
  // starts at the beginning of a line from which the significant lines of the
  // text are those from hit i on, and it covers what the pattern matches there.
  lemma {:induction false} FindAllDescribes(re: Pattern, o: string, p: nat)
    requires LineStart(o, p)
    ensures DescribesAll(re, o, LinesFrom(o, p), FindAll(re, o, p))
    decreases |o| - p
  {
    var q := Next(o, p);
    FindAllStep(re, o, p);
    if BlankFrom(o, p) {
      assert LineAt(o, p) == "" && q == |o|;
    } else {
      if LineStart(o, q) {
        FindAllDescribes(re, o, q);
      }
      var lines := LinesFrom(o, p);
      assert lines[0] == LineAt(o, p) && lines[1..] == LinesFrom(o, q);
      var first := if Matches(re, o, p) then [Match(p, MatchEnd(re, o, p))] else [];
      DescribesAllLater(re, o, lines, first, FindAll(re, o, q));
    }
  }
}
