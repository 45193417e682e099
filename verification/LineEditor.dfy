/** processInput (pkg/menu/menu.go): a line editor whose box is wid columns wide
    and shows the end of the full text. The code never says so, but it needs
    wid >= 4: see NarrowBoxes. */
module LineEditor {
  import opened Wrappers
  import opened Events
  import opened Widgets

  // The result of validCheck: the accepted form of the input, or a warning.
  datatype Verdict = Verdict(input: string, warning: string, ok: bool)

  type ValidCheck = string -> Verdict

  const AlwaysValid: ValidCheck := input => Verdict(input, "", true)

  datatype Outcome = Waiting | Accepted(input: string, warning: string) | Stopped(error: Error) | Crashed

  datatype Box = Box(fullText: string, shown: string, warning: string)

  // What input.Text is set to after an edit; None is a slice out of range.
  function Tail(text: string, wid: int): Option<string> {
    var start := Max(0, |text| - wid + 3);
    if start <= |text| then Some(text[start..]) else None
  }

  function Show(box: Box, text: string, wid: int): Option<Box> {
    match Tail(text, wid)
    case None => None
    case Some(shown) => Some(box.(fullText := text, shown := shown))
  }

  // An editing key. None is a crash.
  function Press(wid: int, box: Box, k: Key): Option<Box> {
    match k
    case Backspace =>
      if |box.shown| == 0 then Some(box)
      else if box.fullText == "" then None
      else Show(box, box.fullText[..|box.fullText| - 1], wid)
    case Space => Show(box, box.fullText + " ", wid)
    case Char(id) => Show(box, box.fullText + id, wid)
    case _ => Some(box)
  }

  // The editor on a stream of keys, with the contents of the box at the end.
  function Run(isValid: ValidCheck, wid: int, box: Box, keys: seq<Key>): (Outcome, Box)
    decreases |keys|
  {
    if keys == [] then (Waiting, box)
    else
      match keys[0]
      case CtrlD => (Stopped(ExitRequest), box)
      case Escape => (Stopped(BackRequest), box)
      case Enter =>
        var verdict := isValid(box.fullText);
        if verdict.ok then (Accepted(verdict.input, box.warning), box)
        else Run(isValid, wid, Box("", "", verdict.warning), keys[1..])
      case k =>
        match Press(wid, box, k)
        case None => (Crashed, box)
        case Some(next) => Run(isValid, wid, next, keys[1..])
  }

  const EMPTY := Box("", "", HINT)

  method ProcessInput(isValid: ValidCheck, wid: int, events: seq<Event>)
      returns (outcome: Outcome, input: Paragraph, warning: Paragraph)
    ensures outcome == Run(isValid, wid, EMPTY, Keys(events)).0
    ensures fresh(input) && fresh(warning)
    ensures var end := Run(isValid, wid, EMPTY, Keys(events)).1;
            input.Text == end.shown && warning.Text == end.warning
    ensures Keys(events) == [] ==> input.Text == "" && warning.Text == "<Esc> to go back, <Ctrl+d> to exit"
  {
    input := new Paragraph("");
    warning := new Paragraph(HINT);
    var fullText := "";
    var rest := events;
    while true
      invariant fresh(input) && fresh(warning) && input != warning
      invariant Run(isValid, wid, EMPTY, Keys(events))
             == Run(isValid, wid, Box(fullText, input.Text, warning.Text), Keys(rest))
      decreases |rest|
    {
      ghost var box := Box(fullText, input.Text, warning.Text);
      var key;
      key, rest := ReadKey(rest);
      if key == None {
        return Waiting, input, warning;
      }
      ghost var more := Keys(rest);
      assert ([key.value] + more)[1..] == more;
      match key.value {
        case CtrlD =>
          return Stopped(ExitRequest), input, warning;
        case Escape =>
          return Stopped(BackRequest), input, warning;
        case Enter =>
          var verdict := isValid(fullText);
          if verdict.ok {
            return Accepted(verdict.input, warning.Text), input, warning;
          }
          fullText := "";
          input.Text := "";
          warning.Text := verdict.warning;
        case Backspace =>
          if |input.Text| > 0 {
            if |fullText| == 0 {
              return Crashed, input, warning;
            }
            var text := fullText[..|fullText| - 1];
            var start := Max(0, |text| - wid + 3);
            if start > |text| {
              return Crashed, input, warning;
            }
            fullText := text;
            input.Text := fullText[start..];
          }
        case Space =>
          var start := Max(0, |fullText + " "| - wid + 3);
          if start > |fullText + " "| {
            return Crashed, input, warning;
          }
          fullText := fullText + " ";
          input.Text := fullText[start..];
        case Char(k) =>
          var start := Max(0, |fullText + k| - wid + 3);
          if start > |fullText + k| {
            return Crashed, input, warning;
          }
          fullText := fullText + k;
          input.Text := fullText[start..];
        case _ =>
      }
    }
  }

  // ---- Properties -------------------------------------------------------

  // The box shows the end of the text, as much of it as there is room for.
  predicate Faithful(wid: int, box: Box) {
    && |box.shown| == Min(|box.fullText|, wid - 3)
    && box.shown == box.fullText[|box.fullText| - |box.shown|..]
  }

  // The editor without a box.
  function Typed(isValid: ValidCheck, text: string, warning: string, keys: seq<Key>): Outcome
    decreases |keys|
  {
    if keys == [] then Waiting
    else
      match keys[0]
      case CtrlD => Stopped(ExitRequest)
      case Escape => Stopped(BackRequest)
      case Enter =>
        var verdict := isValid(text);
        if verdict.ok then Accepted(verdict.input, warning) else Typed(isValid, "", verdict.warning, keys[1..])
      case k => Typed(isValid, Edit(text, k), warning, keys[1..])
  }

  lemma ShowIsFaithful(wid: int, box: Box, text: string)
    requires 4 <= wid
    ensures Show(box, text, wid).Some?
    ensures var next := Show(box, text, wid).value;
            Faithful(wid, next) && next.fullText == text && next.warning == box.warning
  {
    var start := Max(0, |text| - wid + 3);
    assert |text[start..]| == |text| - start == Min(|text|, wid - 3);
  }

  // An edit shows the edited text, or changes nothing where nothing is left.
  lemma PressShows(wid: int, box: Box, k: Key)
    requires 4 <= wid && Faithful(wid, box)
    ensures || (Press(wid, box, k) == Some(box) && Edit(box.fullText, k) == box.fullText)
            || Press(wid, box, k) == Show(box, Edit(box.fullText, k), wid)
  {
    if k.Backspace? {
      assert |box.shown| == 0 <==> |box.fullText| == 0;
    }
  }

  lemma PressKeepsFaithful(wid: int, box: Box, k: Key)
    requires 4 <= wid && Faithful(wid, box)
    ensures Press(wid, box, k).Some?
    ensures Faithful(wid, Press(wid, box, k).value)
    ensures Press(wid, box, k).value.fullText == Edit(box.fullText, k)
    ensures Press(wid, box, k).value.warning == box.warning
  {
    hide Press, Show, Edit, Faithful;
    PressShows(wid, box, k);
    ShowIsFaithful(wid, box, Edit(box.fullText, k));
  }

  // In a box of at least four columns every edit is shown faithfully, nothing
  // is sliced out of range, and the outcome is that of the text alone.
  lemma {:induction false} WideBoxes(isValid: ValidCheck, wid: int, box: Box, keys: seq<Key>)
    requires 4 <= wid && Faithful(wid, box)
    ensures Faithful(wid, Run(isValid, wid, box, keys).1)
    ensures Run(isValid, wid, box, keys).0 == Typed(isValid, box.fullText, box.warning, keys)
    decreases |keys|
  {
    if keys != [] {
      var k := keys[0];
      if k.Enter? {
        if !isValid(box.fullText).ok {
          WideBoxes(isValid, wid, Box("", "", isValid(box.fullText).warning), keys[1..]);
        }
      } else if !k.CtrlD? && !k.Escape? {
        PressKeepsFaithful(wid, box, k);
        WideBoxes(isValid, wid, Press(wid, box, k).value, keys[1..]);
      }
    }
  }

  // The box makes no difference to what is accepted.
  predicate WorksOn(wid: int, keys: seq<Key>) {
    Run(AlwaysValid, wid, EMPTY, keys).0 == Typed(AlwaysValid, "", HINT, keys)
  }

  ghost predicate Works(wid: int) {
    forall keys :: WorksOn(wid, keys)
  }

  const A_BACKSPACE: seq<Key> := [Char("a"), Backspace, Enter]

  lemma TypedABackspace()
    ensures Typed(AlwaysValid, "", HINT, A_BACKSPACE) == Accepted("", HINT)
  {
    assert "" + "a" == "a" && "a"[..0] == "";
    assert A_BACKSPACE[1..] == [Backspace, Enter] && A_BACKSPACE[1..][1..] == [Enter];
    assert Typed(AlwaysValid, "", HINT, A_BACKSPACE) == Typed(AlwaysValid, "a", HINT, [Backspace, Enter]);
    assert Typed(AlwaysValid, "a", HINT, [Backspace, Enter]) == Typed(AlwaysValid, "", HINT, [Enter]);
  }

  // With three columns Backspace finds an empty box and erases nothing; with
  // fewer, the first character is a slice out of range.
  lemma RunABackspace(wid: int)
    requires wid < 4
    ensures Run(AlwaysValid, wid, EMPTY, A_BACKSPACE).0 == if wid == 3 then Accepted("a", HINT) else Crashed
  {
    assert "" + "a" == "a";
    assert A_BACKSPACE[1..] == [Backspace, Enter] && A_BACKSPACE[1..][1..] == [Enter];
    if wid == 3 {
      var one := Box("a", "", HINT);
      assert "a"[1..] == "";
      assert Press(wid, EMPTY, Char("a")) == Some(one);
      assert Run(AlwaysValid, wid, EMPTY, A_BACKSPACE) == Run(AlwaysValid, wid, one, [Backspace, Enter]);
      assert Run(AlwaysValid, wid, one, [Backspace, Enter]) == Run(AlwaysValid, wid, one, [Enter]);
    } else {
      assert Press(wid, EMPTY, Char("a")) == None;
    }
  }

  lemma WideWorks(wid: int)
    requires 4 <= wid
    ensures Works(wid)
  {
    hide Run, Typed, WorksOn;
    forall keys
      ensures WorksOn(wid, keys)
    {
      WideWorksOn(wid, keys);
    }
  }

  lemma WideWorksOn(wid: int, keys: seq<Key>)
    requires 4 <= wid
    ensures WorksOn(wid, keys)
  {
    hide Run, Typed;
    WideBoxes(AlwaysValid, wid, EMPTY, keys);
  }

  lemma NarrowFails(wid: int)
    requires wid < 4
    ensures !WorksOn(wid, A_BACKSPACE)
  {
    hide Run, Typed;
    TypedABackspace();
    RunABackspace(wid);
  }

  // The exact condition on the width.
  lemma NarrowBoxes(wid: int)
    ensures Works(wid) <==> 4 <= wid
  {
    hide WorksOn;
    if 4 <= wid {
      WideWorks(wid);
    } else {
      NarrowFails(wid);
    }
  }

  // ---- Which key ends the editor ----------------------------------------

  // None of the first i keys ends the editor: every Enter among them is
  // rejected.
  predicate Stays(isValid: ValidCheck, text: string, keys: seq<Key>, i: nat)
    requires i <= |keys|
  {
    forall j :: 0 <= j < i ==>
      !keys[j].CtrlD? && !keys[j].Escape? && (keys[j].Enter? ==> !isValid(TextAfter(text, keys[..j])).ok)
  }

  // The warning after some keys, if every Enter among them is rejected.
  function WarningAfter(isValid: ValidCheck, text: string, warning: string, keys: seq<Key>): string
    decreases |keys|
  {
    if keys == [] then warning
    else if keys[0].Enter? then WarningAfter(isValid, "", isValid(text).warning, keys[1..])
    else WarningAfter(isValid, Edit(text, keys[0]), warning, keys[1..])
  }

  // It is that of the last Enter.
  lemma {:induction false} WarningOfEnter(isValid: ValidCheck, text: string, warning: string, keys: seq<Key>, from: nat)
    requires from <= |keys| && NoEnter(keys[from..])
    requires from > 0 ==> keys[from - 1].Enter?
    ensures WarningAfter(isValid, text, warning, keys)
         == if from == 0 then warning else isValid(TextAfter(text, keys[..from - 1])).warning
    decreases |keys|
  {
    hide TextAfter;
    if keys != [] {
      var rest := keys[1..];
      var next := if keys[0].Enter? then "" else Edit(text, keys[0]);
      var warned := if keys[0].Enter? then isValid(text).warning else warning;
      if from == 0 {
        assert keys[0..] == keys && rest[0..] == rest;
        WarningOfEnter(isValid, next, warned, rest, 0);
      } else {
        assert rest[from - 1..] == keys[from..];
        WarningOfEnter(isValid, next, warned, rest, from - 1);
        if from == 1 {
          assert keys[..0] == [];
          NothingTyped(text);
        } else {
          TextAfterPrefix(text, keys, from - 2);
        }
      }
    }
  }

  function NextText(text: string, k: Key): string {
    if k.Enter? then "" else Edit(text, k)
  }

  lemma StaysLater(isValid: ValidCheck, text: string, keys: seq<Key>, i: nat)
    requires keys != [] && i < |keys|
    ensures Stays(isValid, text, keys, i + 1)
        <==> && !keys[0].CtrlD? && !keys[0].Escape? && (keys[0].Enter? ==> !isValid(text).ok)
             && Stays(isValid, NextText(text, keys[0]), keys[1..], i)
  {
    hide TextAfter;
    var rest, next := keys[1..], NextText(text, keys[0]);
    NothingTyped(text);
    assert keys[..0] == [];
    forall j: nat | j < i
      ensures rest[j] == keys[j + 1] && TextAfter(text, keys[..j + 1]) == TextAfter(next, rest[..j])
    {
      TextAfterPrefix(text, keys, j);
    }
    if Stays(isValid, next, rest, i) {
      forall j | 1 <= j < i + 1
        ensures !keys[j].CtrlD? && !keys[j].Escape? && (keys[j].Enter? ==> !isValid(TextAfter(text, keys[..j])).ok)
      {
        assert keys[j] == rest[j - 1];
      }
    }
    if Stays(isValid, text, keys, i + 1) {
      forall j | 0 <= j < i
        ensures !rest[j].CtrlD? && !rest[j].Escape? && (rest[j].Enter? ==> !isValid(TextAfter(next, rest[..j])).ok)
      {
        assert rest[j] == keys[j + 1];
      }
    }
  }

  // Keys that do not end the editor only make text and warning.
  lemma {:induction false} TypedBehind(isValid: ValidCheck, text: string, warning: string, keys: seq<Key>, i: nat)
    requires i <= |keys| && Stays(isValid, text, keys, i)
    ensures Typed(isValid, text, warning, keys)
         == Typed(isValid, TextAfter(text, keys[..i]), WarningAfter(isValid, text, warning, keys[..i]), keys[i..])
    decreases i
  {
    hide TextAfter, Stays;
    if i == 0 {
      assert keys[..0] == [] && keys[0..] == keys;
      NothingTyped(text);
    } else {
      StaysLater(isValid, text, keys, i - 1);
      var warned := if keys[0].Enter? then isValid(text).warning else warning;
      TypedBehind(isValid, NextText(text, keys[0]), warned, keys[1..], i - 1);
      TextAfterPrefix(text, keys, i - 1);
      assert keys[1..][i - 1..] == keys[i..];
      assert keys[..i][1..] == keys[1..][..i - 1];
    }
  }

  lemma {:induction false} EditorEnds(isValid: ValidCheck, text: string, keys: seq<Key>) returns (i: nat)
    ensures i <= |keys| && Stays(isValid, text, keys, i)
    ensures i < |keys| ==>
              keys[i].CtrlD? || keys[i].Escape? || (keys[i].Enter? && isValid(TextAfter(text, keys[..i])).ok)
    decreases |keys|
  {
    hide TextAfter, Stays;
    i := 0;
    StaysAtFirst(isValid, text, keys);
    if keys != [] {
      assert keys[..0] == [];
      NothingTyped(text);
      var k := keys[0];
      if !k.CtrlD? && !k.Escape? && (k.Enter? ==> !isValid(text).ok) {
        i := EditorEnds(isValid, NextText(text, k), keys[1..]);
        StaysLater(isValid, text, keys, i);
        if i < |keys| - 1 {
          TextAfterPrefix(text, keys, i);
        }
        i := i + 1;
      }
    }
  }

  lemma StaysAtFirst(isValid: ValidCheck, text: string, keys: seq<Key>)
    ensures Stays(isValid, text, keys, 0)
  {
  }

  // The key at i ends the editor, with this outcome: Ctrl-d exits, Escape goes
  // back, Enter accepts what isValid makes of the text.
  predicate EndsAt(isValid: ValidCheck, text: string, warning: string, keys: seq<Key>, i: nat, outcome: Outcome) {
    && i < |keys| && Stays(isValid, text, keys, i)
    && match outcome
       case Stopped(error) =>
         (keys[i].CtrlD? && error == ExitRequest) || (keys[i].Escape? && error == BackRequest)
       case Accepted(input, warned) =>
         && keys[i].Enter? && warned == WarningAfter(isValid, text, warning, keys[..i])
         && var verdict := isValid(TextAfter(text, keys[..i]));
            verdict.ok && input == verdict.input
       case _ => false
  }

  lemma EndsAtIs(isValid: ValidCheck, text: string, warning: string, keys: seq<Key>, i: nat)
    requires i < |keys| && Stays(isValid, text, keys, i)
    requires keys[i].CtrlD? || keys[i].Escape? || (keys[i].Enter? && isValid(TextAfter(text, keys[..i])).ok)
    ensures EndsAt(isValid, text, warning, keys, i, Typed(isValid, text, warning, keys))
  {
    hide TextAfter, Stays, WarningAfter;
    TypedBehind(isValid, text, warning, keys, i);
    assert keys[i..][0] == keys[i];
  }

  lemma EndIsOutcome(isValid: ValidCheck, text: string, warning: string, keys: seq<Key>, i: nat, outcome: Outcome)
    requires EndsAt(isValid, text, warning, keys, i, outcome)
    ensures Typed(isValid, text, warning, keys) == outcome && outcome != Waiting && !Stays(isValid, text, keys, |keys|)
  {
    hide TextAfter, WarningAfter;
    TypedBehind(isValid, text, warning, keys, i);
    assert keys[i..][0] == keys[i];
  }

  // What the editor comes to, exactly: the first key that ends it decides, and
  // without one it is still waiting.
  lemma TypedIs(isValid: ValidCheck, text: string, warning: string, keys: seq<Key>, outcome: Outcome)
    ensures Typed(isValid, text, warning, keys) == outcome
        <==> if outcome == Waiting then Stays(isValid, text, keys, |keys|)
             else exists i: nat :: EndsAt(isValid, text, warning, keys, i, outcome)
  {
    hide TextAfter, Stays, WarningAfter, EndsAt;
    var i := EditorEnds(isValid, text, keys);
    if i < |keys| {
      EndsAtIs(isValid, text, warning, keys, i);
      EndIsOutcome(isValid, text, warning, keys, i, Typed(isValid, text, warning, keys));
    } else {
      TypedBehind(isValid, text, warning, keys, i);
      assert keys[i..] == [];
    }
    forall j: nat | EndsAt(isValid, text, warning, keys, j, outcome)
      ensures Typed(isValid, text, warning, keys) == outcome
    {
      EndIsOutcome(isValid, text, warning, keys, j, outcome);
    }
  }

  // The Enter at i is the first whose text is valid, and nothing left before.
  predicate Accepts(isValid: ValidCheck, text: string, keys: seq<Key>, i: nat) {
    && i < |keys| && Stays(isValid, text, keys, i)
    && keys[i].Enter? && isValid(TextAfter(text, keys[..i])).ok
  }

  // An input is accepted exactly when it is what isValid makes of the text at
  // the first Enter at which that is valid.
  lemma AcceptedText(isValid: ValidCheck, text: string, warning: string, keys: seq<Key>, r: Outcome, input: string)
    requires r == Typed(isValid, text, warning, keys)
    ensures r.Accepted? && r.input == input
        <==> exists i: nat :: Accepts(isValid, text, keys, i) && isValid(TextAfter(text, keys[..i])).input == input
  {
    hide TextAfter, Stays, WarningAfter;
    if r.Accepted? {
      TypedIs(isValid, text, warning, keys, r);
      var i: nat :| EndsAt(isValid, text, warning, keys, i, r);
      assert Accepts(isValid, text, keys, i);
    }
    forall i: nat | Accepts(isValid, text, keys, i) && isValid(TextAfter(text, keys[..i])).input == input
      ensures r.Accepted? && r.input == input
    {
      EndsAtIs(isValid, text, warning, keys, i);
    }
  }

  // What is typed where nothing is checked is what is accepted.
  lemma {:induction false} TypedIsAccepted(before: string, text: string, more: seq<Key>)
    ensures Typed(AlwaysValid, before, HINT, Typing(text) + [Enter] + more)
         == Accepted(before + text, "<Esc> to go back, <Ctrl+d> to exit")
    decreases |text|
  {
    var keys := Typing(text) + [Enter] + more;
    if text == "" {
      assert keys == [Enter] + more;
      assert before + text == before;
    } else {
      assert keys[0] == Char([text[0]]) && keys[1..] == Typing(text[1..]) + [Enter] + more;
      TypedIsAccepted(before + [text[0]], text[1..], more);
      assert before + [text[0]] + text[1..] == before + text;
    }
  }

  // PromptTextInput: the editor 80 columns wide.
  const INPUT_WIDTH := 80

  function TextInput(isValid: ValidCheck, events: seq<Event>): Outcome {
    Typed(isValid, "", HINT, Keys(events))
  }

  method PromptTextInput(isValid: ValidCheck, events: seq<Event>) returns (outcome: Outcome)
    ensures outcome == TextInput(isValid, events)
    ensures !outcome.Crashed?
  {
    var input, warning;
    outcome, input, warning := ProcessInput(isValid, INPUT_WIDTH, events);
    WideBoxes(isValid, INPUT_WIDTH, EMPTY, Keys(events));
    TypedNeverCrashes(isValid, "", HINT, Keys(events));
  }

  lemma {:induction false} TypedNeverCrashes(isValid: ValidCheck, text: string, warning: string, keys: seq<Key>)
    ensures !Typed(isValid, text, warning, keys).Crashed?
    decreases |keys|
  {
    if keys != [] {
      var k := keys[0];
      if k.Enter? {
        TypedNeverCrashes(isValid, "", isValid(text).warning, keys[1..]);
      } else if !k.CtrlD? && !k.Escape? {
        TypedNeverCrashes(isValid, Edit(text, k), warning, keys[1..]);
      }
    }
  }

  lemma {:induction false} TypedStops(isValid: ValidCheck, text: string, warning: string, keys: seq<Key>)
    ensures var r := Typed(isValid, text, warning, keys);
            r.Stopped? ==> r.error in {BackRequest, ExitRequest}
    decreases |keys|
  {
    if keys != [] {
      var k := keys[0];
      if k.Enter? {
        TypedStops(isValid, "", isValid(text).warning, keys[1..]);
      } else if !k.CtrlD? && !k.Escape? {
        TypedStops(isValid, Edit(text, k), warning, keys[1..]);
      }
    }
  }
}
