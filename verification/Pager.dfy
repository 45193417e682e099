/** DisplayResult and PromptConfirmation (pkg/menu/menu.go): text wrapped at 70
    columns, a window of 20 lines that is paged, a yes-or-no question. */
module Pager {
  import opened Wrappers
  import opened Events
  import opened Widgets

  const RESULT_HEIGHT := 20
  const RESULT_WIDTH := 70

  // ---- Wrapping ---------------------------------------------------------

  // A message cut into pieces of the width of the window.
  function Wrap(m: string): (chunks: seq<string>)
    ensures chunks != []
    decreases |m|
  {
    if |m| > RESULT_WIDTH then [m[..RESULT_WIDTH]] + Wrap(m[RESULT_WIDTH..]) else [m]
  }

  function WrapAll(message: seq<string>): (text: seq<string>)
    ensures |text| >= |message|
  {
    if message == [] then []
    else
      var last := |message| - 1;
      WrapAll(message[..last]) + Wrap(message[last])
  }

  function Concat(chunks: seq<string>): string {
    if chunks == [] then "" else chunks[0] + Concat(chunks[1..])
  }

  // Chunks on a line each.
  function InLines(chunks: seq<string>): string {
    if chunks == [] then "" else chunks[0] + "\n" + InLines(chunks[1..])
  }

  // Pieces of a wrapped message: all full but the last, which is no longer
  // than the others and empty only if it is alone.
  predicate Chunks(chunks: seq<string>) {
    && chunks != []
    && (forall i :: 0 <= i < |chunks| - 1 ==> |chunks[i]| == 70)
    && |chunks[|chunks| - 1]| <= 70
    && (1 < |chunks| ==> chunks[|chunks| - 1] != "")
  }

  // Wrapping loses nothing.
  lemma {:induction false} WrapIsChunks(m: string)
    ensures Chunks(Wrap(m)) && Concat(Wrap(m)) == m
    decreases |m|
  {
    if |m| > RESULT_WIDTH {
      var rest := Wrap(m[RESULT_WIDTH..]);
      WrapIsChunks(m[RESULT_WIDTH..]);
      assert Wrap(m)[1..] == rest;
      assert m == m[..RESULT_WIDTH] + m[RESULT_WIDTH..];
      if |rest| == 1 {
        assert Concat(rest) == rest[0] + "";
      }
    } else {
      assert Concat([m]) == m + "";
    }
  }

  lemma {:induction false} ConcatLength(chunks: seq<string>)
    requires Chunks(chunks)
    ensures RESULT_WIDTH * (|chunks| - 1) <= |Concat(chunks)| <= RESULT_WIDTH * |chunks|
    ensures 1 < |chunks| ==> RESULT_WIDTH * (|chunks| - 1) < |Concat(chunks)|
  {
    if |chunks| == 1 {
      assert Concat(chunks) == chunks[0] + Concat([]);
    } else {
      ConcatLength(chunks[1..]);
      if |chunks| == 2 {
        assert Concat(chunks[1..]) == chunks[1] + Concat([]);
      }
    }
  }

  // There is no other way to cut a message like that.
  lemma {:induction false} WrapIsUnique(m: string, chunks: seq<string>)
    requires Chunks(chunks) && Concat(chunks) == m
    ensures chunks == Wrap(m)
    decreases |m|
  {
    ConcatLength(chunks);
    if |chunks| == 1 {
      assert Concat(chunks) == chunks[0] + Concat([]);
      assert chunks[0] == m;
    } else {
      assert m == chunks[0] + Concat(chunks[1..]);
      assert m[..RESULT_WIDTH] == chunks[0] && m[RESULT_WIDTH..] == Concat(chunks[1..]);
      WrapIsUnique(m[RESULT_WIDTH..], chunks[1..]);
      assert chunks == [chunks[0]] + chunks[1..];
    }
  }

  // The loop of DisplayResult.
  method SplitLines(message: seq<string>) returns (text: seq<string>)
    ensures text == WrapAll(message)
  {
    text := [];
    for i := 0 to |message|
      invariant text == WrapAll(message[..i])
    {
      var m := message[i];
      while |m| > RESULT_WIDTH
        invariant text + Wrap(m) == WrapAll(message[..i]) + Wrap(message[i])
      {
        assert text + Wrap(m) == text + [m[..RESULT_WIDTH]] + Wrap(m[RESULT_WIDTH..]);
        text := text + [m[0..RESULT_WIDTH]];
        m := m[RESULT_WIDTH..];
      }
      text := text + [m];
      assert message[..i + 1][..i] == message[..i];
    }
    assert message[..|message|] == message;
  }

  // The messages are wrapped one by one, in order.
  lemma {:induction false} WrapAllConcat(a: seq<string>, b: seq<string>)
    ensures WrapAll(a + b) == WrapAll(a) + WrapAll(b)
    decreases |b|
  {
    hide Wrap;
    if b == [] {
      assert a + b == a;
    } else {
      var n := |b| - 1;
      WrapAllConcat(a, b[..n]);
      WrapAllSnoc(a + b[..n], b[n]);
      WrapAllSnoc(b[..n], b[n]);
      assert a + b == a + b[..n] + [b[n]] && b == b[..n] + [b[n]];
    }
  }

  lemma WrapAllSnoc(a: seq<string>, m: string)
    ensures WrapAll(a + [m]) == WrapAll(a) + Wrap(m)
  {
    assert (a + [m])[..|a|] == a;
  }

  lemma WrapAllOne(m: string)
    ensures WrapAll([m]) == Wrap(m)
  {
    assert [m][..0] == [];
  }

  // A question is shown in full lines of 70 bytes, then the rest.
  lemma QuestionText(question: string)
    ensures |question| > 70 ==>
              InLines(Wrap(question)) == question[..70] + "\n" + InLines(Wrap(question[70..]))
    ensures |question| <= 70 ==> InLines(Wrap(question)) == question + "\n"
  {
    if |question| > 70 {
      assert Wrap(question)[1..] == Wrap(question[70..]);
    } else {
      assert [question][1..] == [];
    }
  }

  // The loop of PromptConfirmation, of another shape, cuts a message in the
  // same pieces.
  method SplitQuestion(question: string) returns (text: string)
    ensures text == InLines(Wrap(question))
  {
    text := "";
    var message := question;
    while true
      invariant text + InLines(Wrap(message)) == InLines(Wrap(question))
      decreases |message|
    {
      var end := Min(|message|, RESULT_WIDTH);
      assert |message| > RESULT_WIDTH ==>
        InLines(Wrap(message)) == message[..end] + "\n" + InLines(Wrap(message)[1..]);
      text := text + message[..end] + "\n";
      if |message| > RESULT_WIDTH {
        message := message[RESULT_WIDTH..];
      } else {
        assert InLines([message]) == message + "\n" + "";
        break;
      }
    }
  }

  // ---- Paging -----------------------------------------------------------

  datatype View = View(first: int, last: int)

  datatype Outcome = Waiting | Left(text: string, error: Option<Error>)

  predicate Fits(n: nat, v: View) {
    0 <= v.first <= v.last <= n && v.last - v.first == Min(20, n)
  }

  // The first window.
  function Top(text: seq<string>): (v: View)
    ensures Fits(|text|, v)
  {
    View(0, Min(RESULT_HEIGHT, |text|))
  }

  // Scrolling; None for the keys that leave.
  function Scroll(n: nat, v: View, k: Key): (next: Option<View>)
    ensures Fits(n, v) && next.Some? ==> Fits(n, next.value)
  {
    match k
    case Up =>
      var first := Max(0, v.first - 1);
      Some(View(first, Min(first + RESULT_HEIGHT, n)))
    case Down =>
      var last := Min(v.last + 1, n);
      Some(View(Max(0, last - RESULT_HEIGHT), last))
    case Left | PageUp =>
      var first := Max(0, v.first - RESULT_HEIGHT);
      Some(View(first, Min(first + RESULT_HEIGHT, n)))
    case Right | PageDown =>
      var last := Min(v.last + RESULT_HEIGHT, n);
      Some(View(Max(0, last - RESULT_HEIGHT), last))
    case _ => None
  }

  function Join(lines: seq<string>): string {
    if lines == [] then "" else if |lines| == 1 then lines[0] else lines[0] + "\n" + Join(lines[1..])
  }

  function DisplayText(text: seq<string>, v: View): string
    requires Fits(|text|, v)
  {
    Join(text[v.first..v.last]) +
    (if |text| <= RESULT_HEIGHT then ""
     else if v.last < |text| then "\n\n(More)"
     else "\n\n(End of message)")
  }

  function Run(text: seq<string>, v: View, keys: seq<Key>): Outcome
    requires Fits(|text|, v)
    decreases |keys|
  {
    if keys == [] then Waiting
    else
      match Scroll(|text|, v, keys[0])
      case Some(next) => Run(text, next, keys[1..])
      case None =>
        Outcome.Left(DisplayText(text, v),
                     if keys[0].CtrlD? then Some(ExitRequest) else if keys[0].Escape? then Some(BackRequest) else None)
  }

  method DisplayResult(message: seq<string>, events: seq<Event>) returns (outcome: Outcome)
    requires message != []  // its first line goes to the menus channel
    ensures outcome == Run(WrapAll(message), Top(WrapAll(message)), Keys(events))
  {
    hide Keys, Join, WrapAll;
    var text := SplitLines(message);
    var msgLength := |text|;
    var first, last := 0, Min(RESULT_HEIGHT, msgLength);
    var rest := events;
    while true
      invariant Fits(|text|, View(first, last))
      invariant Run(text, Top(text), Keys(events)) == Run(text, View(first, last), Keys(rest))
      decreases |rest|
    {
      var displayText := Join(text[first..last]);
      if msgLength > RESULT_HEIGHT {
        if last < msgLength {
          displayText := displayText + "\n\n(More)";
        } else if last == msgLength {
          displayText := displayText + "\n\n(End of message)";
        }
      }
      assert displayText + "" == displayText;
      var key;
      key, rest := ReadKey(rest);
      if key == None {
        return Waiting;
      }
      match key.value {
        case Up =>
          first := Max(0, first - 1);
          last := Min(first + RESULT_HEIGHT, msgLength);
        case Down =>
          last := Min(last + 1, msgLength);
          first := Max(0, last - RESULT_HEIGHT);
        case Left | PageUp =>
          first := Max(0, first - RESULT_HEIGHT);
          last := Min(first + RESULT_HEIGHT, msgLength);
        case Right | PageDown =>
          last := Min(last + RESULT_HEIGHT, msgLength);
          first := Max(0, last - RESULT_HEIGHT);
        case CtrlD =>
          return Outcome.Left(displayText, Some(ExitRequest));
        case Escape =>
          return Outcome.Left(displayText, Some(BackRequest));
        case _ =>
          return Outcome.Left(displayText, None);
      }
    }
  }

  // Lines are shown one below the other, in order.
  lemma {:induction false} JoinConcat(a: seq<string>, b: seq<string>)
    requires a != [] && b != []
    ensures Join(a + b) == Join(a) + "\n" + Join(b)
  {
    if |a| == 1 {
      assert (a + b)[1..] == b;
    } else {
      assert (a + b)[1..] == a[1..] + b;
      JoinConcat(a[1..], b);
    }
  }

  // The window after some keys that scroll.
  function After(n: nat, v: View, keys: seq<Key>): View
    decreases |keys|
  {
    if keys == [] || Scroll(n, v, keys[0]).None? then v else After(n, Scroll(n, v, keys[0]).value, keys[1..])
  }

  lemma {:induction false} AfterFits(n: nat, v: View, keys: seq<Key>)
    requires Fits(n, v)
    ensures Fits(n, After(n, v, keys))
    decreases |keys|
  {
    if keys != [] && Scroll(n, v, keys[0]).Some? {
      AfterFits(n, Scroll(n, v, keys[0]).value, keys[1..]);
    }
  }

  // How far each key scrolls; any other leaves.
  lemma HowFar(n: nat, v: View, k: Key)
    requires Fits(n, v)
    ensures Scroll(n, v, k).Some? <==> k in {Key.Up, Key.Down, Key.Left, Key.Right, Key.PageUp, Key.PageDown}
    ensures k == Up ==> Scroll(n, v, k).value.first == if v.first > 0 then v.first - 1 else 0
    ensures k in {Key.Left, Key.PageUp} ==> Scroll(n, v, k).value.first == if v.first > 20 then v.first - 20 else 0
    ensures k == Down ==> Scroll(n, v, k).value.last == if v.last < n then v.last + 1 else n
    ensures k in {Key.Right, Key.PageDown} ==> Scroll(n, v, k).value.last == if v.last + 20 < n then v.last + 20 else n
  {
  }

  // What is shown when a key leaves: the lines of the window reached, 20 or
  // all there are, and for more than 20 whether the end is among them.
  lemma {:induction false} ShownWhenLeft(text: seq<string>, v: View, keys: seq<Key>, k: Key, more: seq<Key>)
    requires Fits(|text|, v) && Scroll(|text|, v, k).None?
    requires forall i :: 0 <= i < |keys| ==> Scrolls(keys[i])
    ensures var w := After(|text|, v, keys);
            && Fits(|text|, w)
            && Run(text, v, keys + [k] + more)
               == Outcome.Left(Join(text[w.first..w.last])
                               + (if |text| <= 20 then ""
                                  else if w.last < |text| then "\n\n(More)"
                                  else "\n\n(End of message)"),
                               match k
                               case CtrlD => Some(ExitRequest)
                               case Escape => Some(BackRequest)
                               case _ => None)
    decreases |keys|
  {
    AfterFits(|text|, v, keys);
    var all := keys + [k] + more;
    if keys == [] {
      assert all[0] == k;
    } else {
      var next := Scroll(|text|, v, keys[0]).value;
      assert all[0] == keys[0] && all[1..] == keys[1..] + [k] + more;
      assert Scroll(|text|, next, k).None?;
      ShownWhenLeft(text, next, keys[1..], k, more);
    }
  }

  predicate Scrolls(k: Key) {
    k.Up? || k.Down? || k.Left? || k.Right? || k.PageUp? || k.PageDown?
  }

  // Some key leaves the display.
  predicate Leaves(keys: seq<Key>) {
    keys != [] && (!Scrolls(keys[0]) || Leaves(keys[1..]))
  }

  // Whether the display is left does not depend on what is displayed.
  lemma {:induction false} LeftIffLeaves(text: seq<string>, v: View, keys: seq<Key>)
    requires Fits(|text|, v)
    ensures Run(text, v, keys).Left? <==> Leaves(keys)
    decreases |keys|
  {
    if keys != [] {
      var next := Scroll(|text|, v, keys[0]);
      assert next.Some? <==> Scrolls(keys[0]);
      if next.Some? {
        LeftIffLeaves(text, next.value, keys[1..]);
      }
    }
  }

  function Pages(v: View, n: nat, times: nat): View
    requires Fits(n, v)
    ensures Fits(n, Pages(v, n, times))
  {
    if times == 0 then v else Scroll(n, Pages(v, n, times - 1), PageDown).value
  }

  // Paging on skips no line: the next page starts at or before the line the
  // last one ended with, and shows at least as much.
  lemma PageDownSkipsNothing(n: nat, v: View)
    requires Fits(n, v)
    ensures var next := Scroll(n, v, PageDown).value;
            v.first <= next.first <= v.last <= next.last && (next.last == v.last <==> v.last == n)
    ensures var back := Scroll(n, v, PageUp).value;
            back.first <= v.first <= back.last
  {
  }

  lemma {:induction false} PagesReach(n: nat, times: nat)
    ensures Pages(View(0, Min(RESULT_HEIGHT, n)), n, times).last == Min(RESULT_HEIGHT * (times + 1), n)
  {
    if times > 0 {
      PagesReach(n, times - 1);
    }
  }

  // From the top of a long text, the end is reached with ceil((n - 20) / 20)
  // pages and with no fewer.
  lemma PagesToTheEnd(n: nat, times: nat)
    requires n > 20
    ensures Pages(View(0, 20), n, times).last == n
        <==> times >= (n - 20 + 19) / 20
  {
    PagesReach(n, times);
  }

  // ---- PromptConfirmation -----------------------------------------------

  datatype Confirmation = Undecided | Answered(accept: bool) | Declined(error: Error)

  // The question on a stream of keys; entry is the text in the field.
  function Confirm(entry: string, keys: seq<Key>): Confirmation
    decreases |keys|
  {
    if keys == [] then Undecided
    else
      match keys[0]
      case Escape => Declined(BackRequest)
      case CtrlD => Declined(ExitRequest)
      case Enter =>
        if entry == "0" then Answered(true)
        else if entry == "1" then Answered(false)
        else Confirm(entry, keys[1..])
      case Char(id) => Confirm(if id == "0" || id == "1" then id else entry, keys[1..])
      case Backspace => Confirm("", keys[1..])
      case _ => Confirm(entry, keys[1..])
  }

  function Ask(events: seq<Event>): Confirmation {
    Confirm("", Keys(events))
  }

  method PromptConfirmation(message: string, events: seq<Event>) returns (r: Confirmation, msg: string)
    ensures r == Ask(events)
    ensures msg == InLines(Wrap(message)) + "\n[0] Yes\n[1] No\n"
  {
    msg := SplitQuestion(message);
    msg := msg + "\n[0] Yes\n[1] No\n";
    var entry := "";
    var rest := events;
    while true
      invariant Ask(events) == Confirm(entry, Keys(rest))
      decreases |rest|
    {
      var key;
      key, rest := ReadKey(rest);
      if key == None {
        return Undecided, msg;
      }
      match key.value {
        case Escape =>
          return Declined(BackRequest), msg;
        case CtrlD =>
          return Declined(ExitRequest), msg;
        case Enter =>
          if entry == "0" {
            return Answered(true), msg;
          } else if entry == "1" {
            return Answered(false), msg;
          }
        case Char(id) =>
          if id == "0" || id == "1" {
            entry := id;
          }
        case Backspace =>
          entry := "";
        case _ =>
      }
    }
  }

  // The last of 0, 1 and Backspace among the keys; Backspace leaves "".
  function LastMark(keys: seq<Key>): string {
    if keys == [] then ""
    else
      match keys[|keys| - 1]
      case Backspace => ""
      case Char(id) => if id == "0" || id == "1" then id else LastMark(keys[..|keys| - 1])
      case _ => LastMark(keys[..|keys| - 1])
  }

  // The Enter at i is the first that finds a mark, and nothing left before.
  predicate Decides(keys: seq<Key>, i: nat) {
    && i < |keys| && keys[i] == Enter && LastMark(keys[..i]) != ""
    && forall j :: 0 <= j < i ==>
         !keys[j].CtrlD? && !keys[j].Escape? && (keys[j].Enter? ==> LastMark(keys[..j]) == "")
  }

  // The field holds the last mark.
  lemma {:induction false} ConfirmFrom(keys: seq<Key>, i: nat)
    requires i <= |keys|
    requires forall j :: 0 <= j < i ==>
               !keys[j].CtrlD? && !keys[j].Escape? && (keys[j].Enter? ==> LastMark(keys[..j]) == "")
    ensures Confirm("", keys) == Confirm(LastMark(keys[..i]), keys[i..])
  {
    if i == 0 {
      assert keys[0..] == keys;
    } else {
      ConfirmFrom(keys, i - 1);
      assert keys[..i][..i - 1] == keys[..i - 1];
      assert keys[i - 1..][1..] == keys[i..];
    }
  }

  lemma {:induction false} AnswerDecides(keys: seq<Key>, i: nat)
    requires i <= |keys|
    requires forall j :: 0 <= j < i ==>
               !keys[j].CtrlD? && !keys[j].Escape? && (keys[j].Enter? ==> LastMark(keys[..j]) == "")
    requires Confirm(LastMark(keys[..i]), keys[i..]).Answered?
    ensures exists k: nat :: Decides(keys, k)
    decreases |keys| - i
  {
    if Decides(keys, i) {
    } else {
      assert keys[i..][1..] == keys[i + 1..];
      assert keys[..i + 1][..i] == keys[..i];
      AnswerDecides(keys, i + 1);
    }
  }

  lemma {:induction false} LastMarkValues(keys: seq<Key>)
    ensures LastMark(keys) in {"", "0", "1"}
  {
    if keys != [] {
      LastMarkValues(keys[..|keys| - 1]);
    }
  }

  // The answer is yes exactly when the last mark before the deciding Enter is
  // 0, and no exactly when it is 1.
  lemma AnswerIsLastMark(keys: seq<Key>, accept: bool)
    ensures Confirm("", keys) == Answered(accept)
        <==> exists i: nat :: Decides(keys, i) && LastMark(keys[..i]) == if accept then "0" else "1"
  {
    forall i: nat | Decides(keys, i)
      ensures Confirm("", keys) == Answered(LastMark(keys[..i]) == "0")
    {
      ConfirmFrom(keys, i);
      LastMarkValues(keys[..i]);
    }
    if Confirm("", keys).Answered? {
      assert keys[0..] == keys && keys[..0] == [];
      AnswerDecides(keys, 0);
      var i: nat :| Decides(keys, i);
      LastMarkValues(keys[..i]);
    }
  }

  // None of the first i keys ends the question.
  predicate Stays(keys: seq<Key>, i: nat)
    requires i <= |keys|
  {
    forall j :: 0 <= j < i ==>
      !keys[j].CtrlD? && !keys[j].Escape? && (keys[j].Enter? ==> LastMark(keys[..j]) == "")
  }

  // Something ends it, or everything stays.
  lemma {:induction false} QuestionEnds(keys: seq<Key>, from: nat) returns (i: nat)
    requires from <= |keys| && Stays(keys, from)
    ensures from <= i <= |keys| && Stays(keys, i)
    ensures i < |keys| ==> keys[i].CtrlD? || keys[i].Escape? || (keys[i].Enter? && LastMark(keys[..i]) != "")
    decreases |keys| - from
  {
    i := from;
    if from < |keys| && !keys[i].CtrlD? && !keys[i].Escape? && (keys[i].Enter? ==> LastMark(keys[..i]) == "") {
      i := QuestionEnds(keys, from + 1);
    }
  }

  lemma StaysThen(keys: seq<Key>, i: nat)
    requires i < |keys| && Stays(keys, i)
    requires keys[i].CtrlD? || keys[i].Escape? || (keys[i].Enter? && LastMark(keys[..i]) != "")
    ensures Confirm("", keys)
         == if keys[i].CtrlD? then Declined(ExitRequest) else if keys[i].Escape? then Declined(BackRequest)
            else Answered(LastMark(keys[..i]) == "0")
  {
    ConfirmFrom(keys, i);
    LastMarkValues(keys[..i]);
    assert keys[i..][0] == keys[i];
  }

  // The question is declined exactly by the first key that ends it: Ctrl-d
  // exits, Escape goes back.
  lemma DeclinedIff(keys: seq<Key>, error: Error)
    ensures Confirm("", keys) == Declined(error)
        <==> exists i: nat :: i < |keys| && Stays(keys, i) &&
               ((keys[i].CtrlD? && error == ExitRequest) || (keys[i].Escape? && error == BackRequest))
  {
    hide LastMark;
    var i := QuestionEnds(keys, 0);
    if i < |keys| {
      StaysThen(keys, i);
    } else {
      ConfirmFrom(keys, i);
      assert keys[i..] == [];
    }
    forall j: nat | j < |keys| && Stays(keys, j) && (keys[j].CtrlD? || keys[j].Escape?)
      ensures Confirm("", keys) == Declined(if keys[j].CtrlD? then ExitRequest else BackRequest)
    {
      StaysThen(keys, j);
    }
  }
}
