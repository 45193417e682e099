/** The event stream of the terminal and readKey (pkg/menu/menu.go). A stream is
    a finite sequence: what has arrived so far. Where the program would wait for
    more, it is reported as waiting. */
module Events {
  import opened Wrappers

  datatype EventType = KeyboardEvent | MouseEvent | ResizeEvent | PayloadEvent

  // The menus look at the first byte of a key's ID.
  type KeyId = id: string | id != "" witness "a"

  datatype Event = Event(kind: EventType, id: KeyId)

  predicate IsKey(e: Event) {
    e.kind.KeyboardEvent? || e.kind.MouseEvent?
  }

  // What the switches over key IDs tell apart. Wheel and arrow keys always
  // share a case. Special is any other ID that starts with '<'.
  datatype Key =
    | CtrlD | Escape | Enter | Backspace | Space
    | Up | Down | Left | Right | PageUp | PageDown | Home | End
    | Special | Char(id: KeyId)

  function Decode(id: KeyId): Key {
    if id[0] != '<' then Char(id)
    else if id == "<C-d>" then CtrlD
    else if id == "<Escape>" then Escape
    else if id == "<Enter>" then Enter
    else if id == "<Backspace>" then Backspace
    else if id == "<Space>" then Space
    else if id == "<Up>" || id == "<MouseWheelUp>" then Up
    else if id == "<Down>" || id == "<MouseWheelDown>" then Down
    else if id == "<Left>" then Left
    else if id == "<Right>" then Right
    else if id == "<PageUp>" then PageUp
    else if id == "<PageDown>" then PageDown
    else if id == "<Home>" then Home
    else if id == "<End>" then End
    else Special
  }

  // The keys in a stream of events.
  function Keys(events: seq<Event>): seq<Key> {
    if events == [] then []
    else if IsKey(events[0]) then [Decode(events[0].id)] + Keys(events[1..])
    else Keys(events[1..])
  }

  // readKey: skips what is not a key. None when the stream is exhausted.
  method ReadKey(events: seq<Event>) returns (k: Option<Key>, rest: seq<Event>)
    ensures k.None? ==> Keys(events) == [] && rest == []
    ensures k.Some? ==> Keys(events) == [k.value] + Keys(rest) && |rest| < |events|
  {
    rest := events;
    while rest != []
      invariant |rest| <= |events| && Keys(rest) == Keys(events)
      decreases |rest|
    {
      var e := rest[0];
      rest := rest[1..];
      if IsKey(e) {
        return Some(Decode(e.id)), rest;
      }
    }
    k := None;
  }

  // What a key does to a line of text that is being typed.
  function Edit(text: string, k: Key): string {
    match k
    case Backspace => if text == "" then "" else text[..|text| - 1]
    case Space => text + " "
    case Char(id) => text + id
    case _ => text
  }

  // Go's int is 64 bits wide.
  const MAX_INT := 0x7fff_ffff_ffff_ffff

  predicate IsDigit(c: char) {
    '0' <= c <= '9'
  }

  predicate AllDigits(s: string) {
    s == "" || (IsDigit(s[0]) && AllDigits(s[1..]))
  }

  function Value(digits: string, acc: nat): nat
    requires AllDigits(digits)
  {
    if digits == "" then acc else Value(digits[1..], 10 * acc + (digits[0] - '0') as nat)
  }

  // strconv.Atoi: an optional sign and decimal digits, within 64 bits.
  function Atoi(s: string): Option<int> {
    var digits := if s != "" && (s[0] == '-' || s[0] == '+') then s[1..] else s;
    if digits == "" || !AllDigits(digits) then None
    else
      var value: int := if s[0] == '-' then -(Value(digits, 0) as int) else Value(digits, 0);
      if -MAX_INT - 1 <= value <= MAX_INT then Some(value) else None
  }

  // %d of fmt, for what is not negative.
  function Decimal(n: nat): (s: string)
    ensures s != "" && IsDigit(s[0])
  {
    var last := ['0' + (n % 10) as char];
    if n < 10 then last else Decimal(n / 10) + last
  }

  lemma {:induction false} ValueConcat(a: string, c: char, acc: nat)
    requires AllDigits(a) && IsDigit(c)
    ensures AllDigits(a + [c])
    ensures Value(a + [c], acc) == 10 * Value(a, acc) + (c - '0') as nat
    decreases |a|
  {
    if a == "" {
      assert (a + [c])[1..] == "";
    } else {
      assert (a + [c])[1..] == a[1..] + [c];
      ValueConcat(a[1..], c, 10 * acc + (a[0] - '0') as nat);
    }
  }

  lemma {:induction false} ValueOfDecimal(n: nat)
    ensures AllDigits(Decimal(n)) && Value(Decimal(n), 0) == n
  {
    var c := '0' + (n % 10) as char;
    if n < 10 {
      assert Decimal(n)[1..] == "";
    } else {
      ValueOfDecimal(n / 10);
      ValueConcat(Decimal(n / 10), c, 0);
    }
  }

  // What is printed for a number is read as that number.
  lemma AtoiOfDecimal(n: nat)
    requires n <= MAX_INT
    ensures Atoi(Decimal(n)) == Some(n)
  {
    ValueOfDecimal(n);
  }

  // The keys that type a text, byte by byte.
  function Typing(text: string): seq<Key> {
    if text == "" then [] else [Char([text[0]])] + Typing(text[1..])
  }

  // The text in the field after some keys, if every Enter among them empties it.
  function TextAfter(text: string, keys: seq<Key>): string
    decreases |keys|
  {
    if keys == [] then text
    else TextAfter(if keys[0].Enter? then "" else Edit(text, keys[0]), keys[1..])
  }

  // The text after some edits.
  function Replay(text: string, edits: seq<Key>): string
    decreases |edits|
  {
    if edits == [] then text else Replay(Edit(text, edits[0]), edits[1..])
  }

  predicate NoEnter(keys: seq<Key>) {
    forall i :: 0 <= i < |keys| ==> !keys[i].Enter?
  }

  // It is what the edits since the last Enter make of the empty text.
  lemma {:induction false} TextSinceEnter(text: string, keys: seq<Key>, from: nat)
    requires from <= |keys| && NoEnter(keys[from..])
    requires from > 0 ==> keys[from - 1].Enter?
    ensures TextAfter(text, keys) == Replay(if from == 0 then text else "", keys[from..])
    decreases |keys|
  {
    if keys != [] {
      var rest := keys[1..];
      var next := if keys[0].Enter? then "" else Edit(text, keys[0]);
      if from == 0 {
        assert keys[0..] == keys;
        assert rest[0..] == rest;
        TextSinceEnter(next, rest, 0);
      } else {
        assert rest[from - 1..] == keys[from..];
        TextSinceEnter(next, rest, from - 1);
      }
    }
  }

  lemma TextAfterPrefix(text: string, keys: seq<Key>, i: nat)
    requires keys != [] && i < |keys|
    ensures TextAfter(text, keys[..i + 1])
         == TextAfter(if keys[0].Enter? then "" else Edit(text, keys[0]), keys[1..][..i])
  {
    assert keys[..i + 1][1..] == keys[1..][..i];
  }

  lemma NothingTyped(text: string)
    ensures TextAfter(text, []) == text
  {
  }

  // ---- What keys are ----------------------------------------------------

  // The IDs with a meaning of their own; of the others, those that start with
  // '<' are ignored and the rest are typed.
  lemma KeyIds(id: KeyId)
    ensures Decode(id) == CtrlD <==> id == "<C-d>"
    ensures Decode(id) == Escape <==> id == "<Escape>"
    ensures Decode(id) == Enter <==> id == "<Enter>"
    ensures Decode(id) == Backspace <==> id == "<Backspace>"
    ensures Decode(id) == Space <==> id == "<Space>"
    ensures Decode(id) == Up <==> id == "<Up>" || id == "<MouseWheelUp>"
    ensures Decode(id) == Down <==> id == "<Down>" || id == "<MouseWheelDown>"
    ensures Decode(id) == Left <==> id == "<Left>"
    ensures Decode(id) == Right <==> id == "<Right>"
    ensures Decode(id) == PageUp <==> id == "<PageUp>"
    ensures Decode(id) == PageDown <==> id == "<PageDown>"
    ensures Decode(id) == Home <==> id == "<Home>"
    ensures Decode(id) == End <==> id == "<End>"
    ensures Decode(id).Char? <==> !("<" <= id)
    ensures !("<" <= id) ==> Decode(id) == Char(id)
  {
  }

  // Keyboard and mouse events count, others do not, wherever they stand.
  lemma {:induction false} KeysConcat(a: seq<Event>, b: seq<Event>)
    ensures Keys(a + b) == Keys(a) + Keys(b)
  {
    if a == [] {
      assert a + b == b;
    } else {
      assert (a + b)[1..] == a[1..] + b;
      KeysConcat(a[1..], b);
    }
  }

  lemma KeysOfOne(e: Event)
    ensures Keys([e]) == if e.kind in {KeyboardEvent, MouseEvent} then [Decode(e.id)] else []
  {
    assert [e][1..] == [];
  }

  // Backspace takes one byte back and does nothing where there is none; Space
  // types a blank; keys without a text of their own change nothing.
  lemma EditLaws(text: string, c: char, id: KeyId, k: Key)
    ensures Edit(text + [c], Backspace) == text && Edit("", Backspace) == ""
    ensures Edit(text, Char(id)) == text + id
    ensures Edit(text, Space) == text + " "
    ensures !k.Backspace? && !k.Space? && !k.Char? ==> Edit(text, k) == text
  {
    assert (text + [c])[..|text|] == text;
  }

  // ---- Numbers ----------------------------------------------------------

  // Decimal digits, the last one last.
  lemma DecimalDigits(n: nat, d: nat)
    requires d < 10
    ensures Decimal(d) == ["0123456789"[d]]
    ensures n > 0 ==> Decimal(10 * n + d) == Decimal(n) + ["0123456789"[d]]
  {
    var digits := "0123456789";
    assert digits[d] == '0' + d as char;
  }

  lemma AtoiDigits(n: nat)
    requires n <= MAX_INT
    ensures Atoi("-" + Decimal(n)) == Some(-(n as int)) && Atoi("+" + Decimal(n)) == Some(n)
  {
    ValueOfDecimal(n);
    assert ("-" + Decimal(n))[1..] == Decimal(n) && ("+" + Decimal(n))[1..] == Decimal(n);
  }

  lemma AtoiTooBig(n: nat)
    ensures Atoi(Decimal(n)).None? <==> n >= 0x8000_0000_0000_0000
  {
    ValueOfDecimal(n);
  }

  lemma {:induction false} AllDigitsIff(s: string)
    ensures AllDigits(s) <==> forall i :: 0 <= i < |s| ==> s[i] in "0123456789"
  {
    if s != "" {
      var rest := s[1..];
      AllDigitsIff(rest);
      DigitIff(s[0]);
      assert s == [s[0]] + rest;
      assert (forall i :: 0 <= i < |s| ==> s[i] in "0123456789")
        <==> s[0] in "0123456789" && forall i :: 0 <= i < |rest| ==> rest[i] in "0123456789";
    }
  }

  lemma DigitIff(c: char)
    ensures IsDigit(c) <==> c in "0123456789"
  {
    var digits := "0123456789";
    if IsDigit(c) {
      assert digits[c as int - '0' as int] == c;
    }
  }

  // Only digits behind an optional sign are a number, and at least one.
  lemma AtoiIsNumber(s: string)
    ensures Atoi(s).Some? ==>
              var digits := if "-" <= s || "+" <= s then s[1..] else s;
              digits != "" && forall i :: 0 <= i < |digits| ==> digits[i] in "0123456789"
  {
    var digits := if "-" <= s || "+" <= s then s[1..] else s;
    AllDigitsIff(digits);
  }

  // Zeros in front of the digits of a number do not change it.
  lemma AtoiLeadingZero(digits: string)
    requires AllDigits(digits) && digits != ""
    ensures Atoi("0" + digits) == Atoi(digits)
  {
    assert ("0" + digits)[1..] == digits;
    assert AllDigits("0" + digits) && Value("0" + digits, 0) == Value(digits, 0);
    assert IsDigit(digits[0]);
  }
}
