/** What holds of the menu on every key stream. */
module MenuRuns {
  import opened Wrappers
  import opened Events
  import opened Menu
  import opened Widgets

  // ---- The answer depends on the typed text alone -----------------------

  // Keys that scroll or do nothing.
  predicate Ignored(k: Key) {
    k.Up? || k.Down? || k.Left? || k.Right? || k.PageUp? || k.PageDown? || k.Home? || k.End? || k.Special?
  }

  function TextKeys(keys: seq<Key>): seq<Key> {
    if keys == [] then []
    else if Ignored(keys[0]) then TextKeys(keys[1..])
    else [keys[0]] + TextKeys(keys[1..])
  }

  // The entry a submitted text stands for, if it can be chosen.
  function Pick(n: nat, customWarning: seq<string>, text: string): Option<nat> {
    match Atoi(text)
    case None => None
    case Some(c) => if 0 <= c < n && Allowed(customWarning, c) then Some(c) else None
  }

  // The menu without its window.
  function Answer(n: nat, customWarning: seq<string>, text: string, keys: seq<Key>): Outcome
    decreases |keys|
  {
    if keys == [] then Waiting
    else
      match keys[0]
      case CtrlD => Failed(ExitRequest)
      case Escape => Failed(BackRequest)
      case Enter =>
        (match Pick(n, customWarning, text)
         case Some(c) => Chosen(c)
         case None => Answer(n, customWarning, "", keys[1..]))
      case k => Answer(n, customWarning, Edit(text, k), keys[1..])
  }

  // Scrolling never changes what the menu answers: the outcome is that of the
  // windowless menu on the text keys alone.
  lemma {:induction false} OutcomeIsAnswer(n: nat, customWarning: seq<string>, st: State, keys: seq<Key>)
    requires InWindow(n, st)
    ensures Run(n, customWarning, st, keys).outcome == Answer(n, customWarning, st.text, TextKeys(keys))
    decreases |keys|
  {
    if keys != [] {
      var r := Step(n, customWarning, st, keys[0]);
      if r.Continue? {
        OutcomeIsAnswer(n, customWarning, r.state, keys[1..]);
      }
    }
  }

  // Two streams of events with the same text keys are answered alike, from
  // any two windows: events that are not keys, and ignored keys, can be
  // deleted or added anywhere.
  lemma IgnoredEventsDoNotMatter(n: nat, customWarning: seq<string>, st1: State, st2: State,
                                 events1: seq<Event>, events2: seq<Event>)
    requires InWindow(n, st1) && InWindow(n, st2) && st1.text == st2.text
    requires TextKeys(Keys(events1)) == TextKeys(Keys(events2))
    ensures Run(n, customWarning, st1, Keys(events1)).outcome == Run(n, customWarning, st2, Keys(events2)).outcome
  {
    OutcomeIsAnswer(n, customWarning, st1, Keys(events1));
    OutcomeIsAnswer(n, customWarning, st2, Keys(events2));
  }

  // ---- Which key ends the menu ------------------------------------------

  // The text is the index of an entry that can be chosen.
  predicate Selects(n: nat, customWarning: seq<string>, text: string, c: nat) {
    Atoi(text) == Some(c) && c < n && (c < |customWarning| ==> customWarning[c] == "")
  }

  // None of the first i keys ends the menu.
  predicate Stays(n: nat, customWarning: seq<string>, text: string, keys: seq<Key>, i: nat)
    requires i <= |keys|
  {
    forall j :: 0 <= j < i ==>
      !keys[j].CtrlD? && !keys[j].Escape? &&
      (keys[j].Enter? ==> Pick(n, customWarning, TextAfter(text, keys[..j])).None?)
  }

  function NextText(text: string, k: Key): string {
    if k.Enter? then "" else Edit(text, k)
  }

  lemma StaysLater(n: nat, customWarning: seq<string>, text: string, keys: seq<Key>, i: nat)
    requires keys != [] && i < |keys|
    ensures Stays(n, customWarning, text, keys, i + 1)
        <==> && !keys[0].CtrlD? && !keys[0].Escape? && (keys[0].Enter? ==> Pick(n, customWarning, text).None?)
             && Stays(n, customWarning, NextText(text, keys[0]), keys[1..], i)
  {
    hide TextAfter, Pick;
    var rest, next := keys[1..], NextText(text, keys[0]);
    NothingTyped(text);
    assert keys[..0] == [];
    forall j: nat | j < i
      ensures rest[j] == keys[j + 1] && TextAfter(text, keys[..j + 1]) == TextAfter(next, rest[..j])
    {
      TextAfterPrefix(text, keys, j);
    }
    if Stays(n, customWarning, next, rest, i) {
      forall j | 1 <= j < i + 1
        ensures !keys[j].CtrlD? && !keys[j].Escape?
        ensures keys[j].Enter? ==> Pick(n, customWarning, TextAfter(text, keys[..j])).None?
      {
        assert keys[j] == rest[j - 1];
      }
    }
    if Stays(n, customWarning, text, keys, i + 1) {
      forall j | 0 <= j < i
        ensures !rest[j].CtrlD? && !rest[j].Escape?
        ensures rest[j].Enter? ==> Pick(n, customWarning, TextAfter(next, rest[..j])).None?
      {
        assert rest[j] == keys[j + 1];
      }
    }
  }

  // Keys that do not end the menu only make text.
  lemma {:induction false} AnswerBehind(n: nat, customWarning: seq<string>, text: string, keys: seq<Key>, i: nat)
    requires i <= |keys| && Stays(n, customWarning, text, keys, i)
    ensures Answer(n, customWarning, text, keys)
         == Answer(n, customWarning, TextAfter(text, keys[..i]), keys[i..])
    decreases i
  {
    hide TextAfter, Stays, Pick;
    if i == 0 {
      assert keys[..0] == [] && keys[0..] == keys;
      NothingTyped(text);
    } else {
      StaysLater(n, customWarning, text, keys, i - 1);
      AnswerBehind(n, customWarning, NextText(text, keys[0]), keys[1..], i - 1);
      TextAfterPrefix(text, keys, i - 1);
      assert keys[1..][i - 1..] == keys[i..];
    }
  }

  // The menu stays to the end of the keys or is ended by one of them.
  lemma {:induction false} MenuEnds(n: nat, customWarning: seq<string>, text: string, keys: seq<Key>) returns (i: nat)
    ensures i <= |keys| && Stays(n, customWarning, text, keys, i)
    ensures i < |keys| ==>
              keys[i].CtrlD? || keys[i].Escape? ||
              (keys[i].Enter? && Pick(n, customWarning, TextAfter(text, keys[..i])).Some?)
    decreases |keys|
  {
    hide TextAfter, Stays, Pick;
    i := 0;
    StaysAtFirst(n, customWarning, text, keys);
    if keys != [] {
      assert keys[..0] == [];
      NothingTyped(text);
      var k := keys[0];
      if !k.CtrlD? && !k.Escape? && (k.Enter? ==> Pick(n, customWarning, text).None?) {
        i := MenuEnds(n, customWarning, NextText(text, k), keys[1..]);
        if i < |keys| - 1 {
          TextAfterPrefix(text, keys, i);
        }
        StaysNext(n, customWarning, text, keys, i);
        i := i + 1;
      }
    }
  }

  lemma StaysAtFirst(n: nat, customWarning: seq<string>, text: string, keys: seq<Key>)
    ensures Stays(n, customWarning, text, keys, 0)
  {
  }

  lemma StaysNext(n: nat, customWarning: seq<string>, text: string, keys: seq<Key>, i: nat)
    requires keys != [] && i <= |keys[1..]| && Stays(n, customWarning, NextText(text, keys[0]), keys[1..], i)
    requires !keys[0].CtrlD? && !keys[0].Escape? && (keys[0].Enter? ==> Pick(n, customWarning, text).None?)
    ensures Stays(n, customWarning, text, keys, i + 1)
  {
    StaysLater(n, customWarning, text, keys, i);
  }

  // The key at i ends the menu, with this outcome: Ctrl-d exits, Escape goes
  // back, Enter chooses the entry whose index the text is.
  predicate EndsAt(n: nat, customWarning: seq<string>, text: string, keys: seq<Key>, i: nat, outcome: Outcome) {
    && i < |keys| && Stays(n, customWarning, text, keys, i)
    && match outcome
       case Waiting => false
       case Failed(error) =>
         (keys[i].CtrlD? && error == ExitRequest) || (keys[i].Escape? && error == BackRequest)
       case Chosen(c) => keys[i].Enter? && Selects(n, customWarning, TextAfter(text, keys[..i]), c)
  }

  lemma EndsAtIs(n: nat, customWarning: seq<string>, text: string, keys: seq<Key>, i: nat)
    requires i < |keys| && Stays(n, customWarning, text, keys, i)
    requires keys[i].CtrlD? || keys[i].Escape? ||
             (keys[i].Enter? && Pick(n, customWarning, TextAfter(text, keys[..i])).Some?)
    ensures EndsAt(n, customWarning, text, keys, i, Answer(n, customWarning, text, keys))
  {
    hide TextAfter, Stays;
    AnswerBehind(n, customWarning, text, keys, i);
    assert keys[i..][0] == keys[i];
  }

  lemma EndIsAnswer(n: nat, customWarning: seq<string>, text: string, keys: seq<Key>, i: nat, outcome: Outcome)
    requires EndsAt(n, customWarning, text, keys, i, outcome)
    ensures Answer(n, customWarning, text, keys) == outcome
  {
    hide TextAfter, Stays;
    AnswerBehind(n, customWarning, text, keys, i);
    assert keys[i..][0] == keys[i];
  }

  // What a menu answers, exactly: the first key that ends it decides, and
  // without one it is still waiting.
  lemma AnswerIs(n: nat, customWarning: seq<string>, text: string, keys: seq<Key>, outcome: Outcome)
    ensures Answer(n, customWarning, text, keys) == outcome
        <==> if outcome == Waiting then Stays(n, customWarning, text, keys, |keys|)
             else exists i: nat :: EndsAt(n, customWarning, text, keys, i, outcome)
  {
    hide TextAfter, Stays, EndsAt;
    var i := MenuEnds(n, customWarning, text, keys);
    if i < |keys| {
      EndsAtIs(n, customWarning, text, keys, i);
      NotWaiting(n, customWarning, text, keys, i);
    } else {
      AnswerBehind(n, customWarning, text, keys, i);
      assert keys[i..] == [];
    }
    forall j: nat | EndsAt(n, customWarning, text, keys, j, outcome)
      ensures Answer(n, customWarning, text, keys) == outcome
    {
      EndIsAnswer(n, customWarning, text, keys, j, outcome);
    }
  }

  lemma NotWaiting(n: nat, customWarning: seq<string>, text: string, keys: seq<Key>, i: nat)
    requires EndsAt(n, customWarning, text, keys, i, Answer(n, customWarning, text, keys))
    ensures Answer(n, customWarning, text, keys) != Waiting && !Stays(n, customWarning, text, keys, |keys|)
  {
  }

  // ---- Choosing ---------------------------------------------------------

  // No key stream chooses an entry out of range or with a warning of its own.
  lemma {:induction false} ChosenIsAllowed(n: nat, customWarning: seq<string>, text: string, keys: seq<Key>)
    requires Answer(n, customWarning, text, keys).Chosen?
    ensures var c := Answer(n, customWarning, text, keys).index;
            c < n && Allowed(customWarning, c)
    decreases |keys|
  {
    var k := keys[0];
    if k.Enter? {
      if Pick(n, customWarning, text).None? {
        ChosenIsAllowed(n, customWarning, "", keys[1..]);
      }
    } else if !k.CtrlD? && !k.Escape? {
      ChosenIsAllowed(n, customWarning, Edit(text, k), keys[1..]);
    }
  }

  lemma {:induction false} TypingExtends(n: nat, customWarning: seq<string>, text: string, typed: string,
                                         keys: seq<Key>)
    requires AllDigits(typed)
    ensures Answer(n, customWarning, text, Typing(typed) + keys) == Answer(n, customWarning, text + typed, keys)
    decreases |typed|
  {
    if typed == "" {
      assert Typing(typed) + keys == keys && text + typed == text;
    } else {
      TypingCons(typed, keys);
      AnswerOfDigit(n, customWarning, text, typed[0], Typing(typed[1..]) + keys);
      TypingExtends(n, customWarning, text + [typed[0]], typed[1..], keys);
      assert text + [typed[0]] + typed[1..] == text + typed;
    }
  }

  lemma TypingCons(typed: string, keys: seq<Key>)
    requires AllDigits(typed) && typed != ""
    ensures Typing(typed) + keys == [Char([typed[0]])] + (Typing(typed[1..]) + keys)
  {
  }

  lemma AnswerOfDigit(n: nat, customWarning: seq<string>, text: string, digit: char, keys: seq<Key>)
    ensures Answer(n, customWarning, text, [Char([digit])] + keys) == Answer(n, customWarning, text + [digit], keys)
  {
    assert ([Char([digit])] + keys)[1..] == keys;
  }

  // From any window with an empty field, typing the number printed in front
  // of entry i and Enter chooses it, whether or not the window shows it.
  lemma TypedIndexIsChosen(n: nat, customWarning: seq<string>, st: State, i: nat, more: seq<Key>)
    requires InWindow(n, st) && st.text == "" && n <= MAX_INT
    requires i < n && Allowed(customWarning, i)
    ensures Run(n, customWarning, st, Typing(Decimal(i)) + [Enter] + more).outcome == Chosen(i)
  {
    var keys := Typing(Decimal(i)) + [Enter] + more;
    OutcomeIsAnswer(n, customWarning, st, keys);
    ValueOfDecimal(i);
    TextKeysOfTyping(Decimal(i), [Enter] + more);
    assert keys == Typing(Decimal(i)) + ([Enter] + more);
    TypingExtends(n, customWarning, "", Decimal(i), [Enter] + TextKeys(more));
    assert TextKeys([Enter] + more) == [Enter] + TextKeys(more);
    AtoiOfDecimal(i);
    assert "" + Decimal(i) == Decimal(i);
  }

  lemma {:induction false} TextKeysOfTyping(typed: string, keys: seq<Key>)
    requires AllDigits(typed)
    ensures TextKeys(Typing(typed) + keys) == Typing(typed) + TextKeys(keys)
    decreases |typed|
  {
    if typed == "" {
      assert Typing(typed) + keys == keys;
    } else {
      assert Typing(typed) + keys == [Char([typed[0]])] + (Typing(typed[1..]) + keys);
      TextKeysOfTyping(typed[1..], keys);
    }
  }

  // ---- The window -------------------------------------------------------

  function Repeat(k: Key, times: nat): (keys: seq<Key>)
    ensures |keys| == times
  {
    seq(times, i => k)
  }

  // The same state with the window at first.
  function At(n: nat, st: State, first: nat): (r: State)
    requires first < n
    ensures InWindow(n, r)
  {
    st.(first := first, last := Min(first + PAGE, n))
  }

  lemma {:induction false} DownMoves(n: nat, customWarning: seq<string>, st: State, first: nat, times: nat,
                                     more: seq<Key>)
    requires first + times + PAGE <= n
    ensures Run(n, customWarning, At(n, st, first), Repeat(Down, times) + more)
         == Run(n, customWarning, At(n, st, first + times), more)
    decreases times
  {
    var keys := Repeat(Down, times) + more;
    if times == 0 {
      assert keys == more;
    } else {
      assert keys[0] == Down && keys[1..] == Repeat(Down, times - 1) + more;
      assert Step(n, customWarning, At(n, st, first), Down) == Continue(At(n, st, first + 1));
      DownMoves(n, customWarning, st, first + 1, times - 1, more);
    }
  }

  lemma {:induction false} UpMoves(n: nat, customWarning: seq<string>, st: State, first: nat, times: nat,
                                   more: seq<Key>)
    requires times <= first < n
    ensures Run(n, customWarning, At(n, st, first), Repeat(Up, times) + more)
         == Run(n, customWarning, At(n, st, first - times), more)
    decreases times
  {
    var keys := Repeat(Up, times) + more;
    if times == 0 {
      assert keys == more;
    } else {
      assert keys[0] == Up && keys[1..] == Repeat(Up, times - 1) + more;
      assert Step(n, customWarning, At(n, st, first), Up) == Continue(At(n, st, first - 1));
      UpMoves(n, customWarning, st, first - 1, times - 1, more);
    }
  }

  // Keys that bring the window to f: a page on and line by line back, or line
  // by line on and then a page.
  function KeysTo(f: nat): seq<Key> {
    if f == 0 then []
    else if f < PAGE then [Right] + Repeat(Up, PAGE - f)
    else Repeat(Down, f - PAGE) + [Right]
  }

  lemma KeysToArrive(n: nat, customWarning: seq<string>, text: string, warning: string, f: nat)
    requires PAGE < n && f < n
    ensures Run(n, customWarning, Start(n, text, warning), KeysTo(f))
         == Done(State(f, Min(f + PAGE, n), text, warning), Waiting)
  {
    var st := Start(n, text, warning);
    assert st == At(n, st, 0);
    if f == 0 {
    } else if f < PAGE {
      assert Step(n, customWarning, st, Right) == Continue(At(n, st, PAGE));
      assert KeysTo(f)[1..] == Repeat(Up, PAGE - f) + [];
      UpMoves(n, customWarning, st, PAGE, PAGE - f, []);
    } else {
      DownMoves(n, customWarning, st, 0, f - PAGE, [Right]);
      assert Step(n, customWarning, At(n, st, f - PAGE), Right) == Continue(At(n, st, f));
      assert [Right][1..] == [];
    }
  }

  // The window is at first after some keys.
  ghost predicate Reaches(n: nat, customWarning: seq<string>, text: string, warning: string, first: int)
    requires n > 0
  {
    exists keys :: Run(n, customWarning, Start(n, text, warning), keys).state.first == first
  }

  // The places the window can get to: all of 0..n-1 when there is more than
  // one page, else only 0.
  lemma ReachableWindows(n: nat, customWarning: seq<string>, text: string, warning: string, first: int)
    requires n > 0
    ensures Reaches(n, customWarning, text, warning, first)
        <==> if n <= 10 then first == 0 else 0 <= first < n
  {
    if n <= PAGE {
      forall keys
        ensures Run(n, customWarning, Start(n, text, warning), keys).state.first == 0
      {
        OnePage(n, customWarning, Start(n, text, warning), keys);
      }
      assert Run(n, customWarning, Start(n, text, warning), []).state.first == 0;
    } else if 0 <= first < n {
      KeysToArrive(n, customWarning, text, warning, first);
    }
  }

  lemma {:induction false} OnePage(n: nat, customWarning: seq<string>, st: State, keys: seq<Key>)
    requires InWindow(n, st) && n <= PAGE && st.first == 0
    ensures Run(n, customWarning, st, keys).state.first == 0
    decreases |keys|
  {
    if keys != [] {
      var r := Step(n, customWarning, st, keys[0]);
      if r.Continue? {
        OnePage(n, customWarning, r.state, keys[1..]);
      }
    }
  }

  // Right shows the labels that follow, none skipped or shown again, and Left
  // takes it back.
  lemma RightThenLeft(labels: seq<string>, customWarning: seq<string>, st: State)
    requires var n := |labels|; InWindow(n, st) && st.first + 10 < n
    ensures var n := |labels|;
            var next := Step(n, customWarning, st, Right).state;
            labels[st.first..next.last] == labels[st.first..st.last] + labels[next.first..next.last] &&
            next.first == st.first + 10 &&
            Step(n, customWarning, next, Left).state == st
  {
  }

  // Down then Up is no change, except where the last label shows already.
  lemma DownThenUp(n: nat, customWarning: seq<string>, st: State)
    requires InWindow(n, st)
    ensures var down := Step(n, customWarning, st, Down).state;
            Step(n, customWarning, down, Up).state == st <==> st.last < n || (n <= 10 && st.first == 0)
  {
  }

  // Down moves the window back, not on, exactly when it stands on a short
  // last page.
  lemma DownMovesBack(n: nat, customWarning: seq<string>, st: State)
    requires InWindow(n, st)
    ensures Step(n, customWarning, st, Down).state.first < st.first <==> 0 < st.first && n < st.first + 10
  {
  }

  // How far each scrolling key moves the window, which always shows ten labels
  // or all up to the last.
  lemma HowFar(n: nat, customWarning: seq<string>, st: State)
    requires InWindow(n, st)
    ensures st.last == if st.first + 10 <= n then st.first + 10 else n
    ensures var left := Step(n, customWarning, st, Left).state;
            left.first == if st.first >= 10 then st.first - 10 else 0
    ensures var right := Step(n, customWarning, st, Right).state;
            right.first == if st.first + 10 < n then st.first + 10 else st.first
    ensures var up := Step(n, customWarning, st, Up).state;
            up.first == if st.first > 0 then st.first - 1 else 0
    ensures var down := Step(n, customWarning, st, Down).state;
            n >= 10 ==> down.last == (if st.last < n then st.last + 1 else n) && down.first == down.last - 10
  {
  }

  // Scrolling leaves the text alone, typing the window.
  lemma ScrollOrType(n: nat, customWarning: seq<string>, st: State, k: Key)
    requires InWindow(n, st) && !k.CtrlD? && !k.Escape? && !k.Enter?
    ensures Step(n, customWarning, st, k).Continue?
    ensures var next := Step(n, customWarning, st, k).state;
            && next.warning == st.warning
            && next.text == Edit(st.text, k)
            && (k.Backspace? || k.Space? || k.Char? || k.PageUp? || k.PageDown? || k.Special? ==>
                  next.first == st.first && next.last == st.last)
  {
  }

  // An Enter that chooses nothing empties the field and warns.
  lemma RejectedEnter(n: nat, customWarning: seq<string>, st: State)
    requires InWindow(n, st)
    ensures var r := Step(n, customWarning, st, Enter);
            && r.state.first == st.first && r.state.text == ""
            && (r.Continue? ==>
                  r.state.warning ==
                    match Atoi(st.text)
                    case None => "Please enter a valid entry number."
                    case Some(c) => if 0 <= c < n then customWarning[c] else "Please enter a valid entry number.")
  {
  }

  // Home and End show the first and the last page from anywhere.
  lemma HomeAndEnd(labels: seq<string>, customWarning: seq<string>, st: State)
    requires InWindow(|labels|, st)
    ensures var n := |labels|;
            var home, end := Step(n, customWarning, st, Home).state, Step(n, customWarning, st, End).state;
            home == Start(n, st.text, st.warning) &&
            labels[end.first..end.last] == labels[Max(0, n - 10)..]
  {
  }

  // ---- PromptMenuEntry --------------------------------------------------

  datatype Prompted<+T> = Picked(entry: T) | Refused(error: Error) | Blocked

  // The entry a user picks.
  function Prompt<T>(entries: seq<T>, customWarning: seq<string>, events: seq<Event>): (r: Prompted<T>)
  {
    if entries == [] then Refused(NO_ENTRY)
    else
      match Answer(|entries|, customWarning, "", TextKeys(Keys(events)))
      case Waiting => Blocked
      case Failed(error) => Refused(error)
      case Chosen(c) =>
        ChosenIsAllowed(|entries|, customWarning, "", TextKeys(Keys(events)));
        Picked(entries[c])
  }

  // The rows are the numbered labels of ten entries from first on, or of as
  // many as there are.
  ghost predicate Shows<T>(rows: seq<string>, entries: seq<T>, labelOf: T -> string, first: nat) {
    && first <= |entries| && (entries != [] ==> first < |entries|)
    && |rows| == Min(10, |entries| - first)
    && forall j :: 0 <= j < |rows| ==> rows[j] == "[" + Decimal(first + j) + "] " + labelOf(entries[first + j])
  }

  method PromptMenuEntry<T>(entries: seq<T>, labelOf: T -> string, events: seq<Event>, customWarning: seq<string>)
      returns (r: Prompted<T>, menu: ListWidget)
    ensures r == Prompt(entries, customWarning, events)
    ensures fresh(menu)
    ensures exists first: nat :: Shows(menu.Rows, entries, labelOf, first)
  {
    var listData: seq<string> := [];
    for i := 0 to |entries|
      invariant |listData| == i
      invariant forall j :: 0 <= j < i ==> listData[j] == "[" + Decimal(j) + "] " + labelOf(entries[j])
    {
      listData := listData + ["[" + Decimal(i) + "] " + labelOf(entries[i])];
    }
    menu := new ListWidget();
    var input := new Paragraph("");
    var warning := new Paragraph(HINT);
    var outcome := ParsingMenuOption(listData, menu, input, warning, events, customWarning);
    if |entries| > 0 {
      ghost var start := Start(|entries|, "", HINT);
      OutcomeIsAnswer(|entries|, customWarning, start, Keys(events));
      assert Shows(menu.Rows, entries, labelOf, Run(|entries|, customWarning, start, Keys(events)).state.first);
    } else {
      assert Shows(menu.Rows, entries, labelOf, 0);
    }
    match outcome {
      case Waiting => r := Blocked;
      case Failed(error) => r := Refused(error);
      case Chosen(chooseIndex) =>
        ChosenIsAllowed(|entries|, customWarning, "", TextKeys(Keys(events)));
        r := Picked(entries[chooseIndex]);
    }
  }

  // What is picked is the entry at the index the menu with its window chooses.
  lemma PickedIsChosen<T>(entries: seq<T>, customWarning: seq<string>, events: seq<Event>, warning: string, e: T)
    requires entries != []
    ensures var outcome := Run(|entries|, customWarning, Start(|entries|, "", warning), Keys(events)).outcome;
            (outcome.Chosen? ==> outcome.index < |entries|) &&
            (Prompt(entries, customWarning, events) == Picked(e) <==> outcome.Chosen? && e == entries[outcome.index])
  {
    OutcomeIsAnswer(|entries|, customWarning, Start(|entries|, "", warning), Keys(events));
    if Answer(|entries|, customWarning, "", TextKeys(Keys(events))).Chosen? {
      ChosenIsAllowed(|entries|, customWarning, "", TextKeys(Keys(events)));
    }
  }

  // Typing the number in front of an entry and Enter picks that entry.
  lemma TypedIsPicked<T>(entries: seq<T>, customWarning: seq<string>, events: seq<Event>, i: nat, more: seq<Key>)
    requires |entries| <= MAX_INT && i < |entries| && (i < |customWarning| ==> customWarning[i] == "")
    requires Keys(events) == Typing(Decimal(i)) + [Enter] + more
    ensures Prompt(entries, customWarning, events) == Picked(entries[i])
  {
    TypedIndexIsChosen(|entries|, customWarning, Start(|entries|, "", ""), i, more);
    PickedIsChosen(entries, customWarning, events, "", entries[i]);
  }

  // Ctrl-d exits and Escape goes back, whatever stands behind.
  lemma PromptStops<T>(entries: seq<T>, customWarning: seq<string>, events: seq<Event>, more: seq<Key>)
    requires entries != []
    ensures Keys(events) == [CtrlD] + more ==> Prompt(entries, customWarning, events) == Refused(ExitRequest)
    ensures Keys(events) == [Escape] + more ==> Prompt(entries, customWarning, events) == Refused(BackRequest)
  {
    var keys := Keys(events);
    if keys != [] && (keys[0].CtrlD? || keys[0].Escape?) {
      assert TextKeys(keys)[0] == keys[0];
    }
  }

  // A prompt ends with one of the entries, with the wish to go back or to
  // exit, or, without entries, with an error.
  lemma PromptOutcomes<T>(entries: seq<T>, customWarning: seq<string>, events: seq<Event>)
    ensures match Prompt(entries, customWarning, events)
            case Picked(entry) => entry in entries
            case Refused(error) => if entries == [] then error == NO_ENTRY else error in {BackRequest, ExitRequest}
            case Blocked => entries != []
  {
    var keys := TextKeys(Keys(events));
    AnswerErrors(|entries|, customWarning, "", keys);
    if entries != [] && Answer(|entries|, customWarning, "", keys).Chosen? {
      ChosenIsAllowed(|entries|, customWarning, "", keys);
      assert entries[Answer(|entries|, customWarning, "", keys).index] in entries;
    }
  }

  lemma {:induction false} AnswerErrors(n: nat, customWarning: seq<string>, text: string, keys: seq<Key>)
    ensures var r := Answer(n, customWarning, text, keys);
            r.Failed? ==> r.error in {BackRequest, ExitRequest}
    decreases |keys|
  {
    if keys != [] {
      match keys[0]
      case CtrlD =>
      case Escape =>
      case Enter => AnswerErrors(n, customWarning, "", keys[1..]);
      case k => AnswerErrors(n, customWarning, Edit(text, k), keys[1..]);
    }
  }
}
