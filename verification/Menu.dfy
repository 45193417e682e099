/** parsingMenuOption and PromptMenuEntry (pkg/menu/menu.go): a window of ten
    labels that is scrolled, and a text field an index is typed into. */
module Menu {
  import opened Wrappers
  import opened Events
  import opened Widgets

  const PAGE := 10

  const INVALID_ENTRY := "Please enter a valid entry number."
  const NO_ENTRY := Other("No Entry in the menu")

  datatype Outcome = Waiting | Chosen(index: nat) | Failed(error: Error)

  // The window shows labels[first..last].
  datatype State = State(first: int, last: int, text: string, warning: string)

  predicate InWindow(n: nat, st: State) {
    0 <= st.first < n && st.last == Min(st.first + PAGE, n)
  }

  datatype StepResult = Continue(state: State) | Done(state: State, outcome: Outcome)

  function Start(n: nat, text: string, warning: string): (st: State)
    ensures n > 0 ==> InWindow(n, st)
  {
    State(0, Min(PAGE, n), text, warning)
  }

  // Entries with a warning of their own cannot be chosen.
  predicate Allowed(customWarning: seq<string>, c: nat) {
    |customWarning| > c ==> customWarning[c] == ""
  }

  function Submit(n: nat, customWarning: seq<string>, st: State): StepResult {
    var cleared := st.(text := "");
    match Atoi(st.text)
    case None => Continue(cleared.(warning := INVALID_ENTRY))
    case Some(c) =>
      if !(0 <= c < n) then Continue(cleared.(warning := INVALID_ENTRY))
      else if |customWarning| > c && customWarning[c] != "" then Continue(cleared.(warning := customWarning[c]))
      else Done(cleared, Chosen(c))
  }

  // The effect of one key.
  function Step(n: nat, customWarning: seq<string>, st: State, k: Key): (r: StepResult)
    requires InWindow(n, st)
    ensures InWindow(n, r.state)
  {
    match k
    case CtrlD => Done(st, Failed(ExitRequest))
    case Escape => Done(st, Failed(BackRequest))
    case Enter => Submit(n, customWarning, st)
    case Left =>
      var first := Max(0, st.first - PAGE);
      Continue(st.(first := first, last := Min(first + PAGE, n)))
    case Right =>
      if st.first + PAGE >= n then Continue(st)
      else Continue(st.(first := st.first + PAGE, last := Min(st.first + PAGE + PAGE, n)))
    case Up =>
      var first := Max(0, st.first - 1);
      Continue(st.(first := first, last := Min(first + PAGE, n)))
    case Down =>
      var last := Min(st.last + 1, n);
      Continue(st.(first := Max(0, last - PAGE), last := last))
    case Home => Continue(st.(first := 0, last := Min(PAGE, n)))
    case End => Continue(st.(first := Max(0, n - PAGE), last := n))
    case _ => Continue(st.(text := Edit(st.text, k)))
  }

  // The menu on a stream of keys: where it gets to and what it answers.
  function Run(n: nat, customWarning: seq<string>, st: State, keys: seq<Key>): (r: StepResult)
    requires InWindow(n, st)
    ensures r.Done? && InWindow(n, r.state)
    decreases |keys|
  {
    if keys == [] then Done(st, Waiting)
    else
      match Step(n, customWarning, st, keys[0])
      case Continue(next) => Run(n, customWarning, next, keys[1..])
      case Done(end, outcome) => Done(end, outcome)
  }

  method ParsingMenuOption(labels: seq<string>, menu: ListWidget, input: Paragraph, warning: Paragraph,
                           events: seq<Event>, customWarning: seq<string>)
      returns (outcome: Outcome)
    requires input != warning
    modifies menu, input, warning
    ensures labels == [] ==> outcome == Failed(NO_ENTRY) && unchanged(menu, input, warning)
    ensures labels != [] ==>
      var r := Run(|labels|, customWarning, Start(|labels|, old(input.Text), old(warning.Text)), Keys(events));
      && outcome == r.outcome
      && menu.Rows == labels[r.state.first..r.state.last]
      && input.Text == r.state.text
      && warning.Text == r.state.warning
  {
    if |labels| == 0 {
      return Failed(NO_ENTRY);
    }
    var rest := events;
    var n := |labels|;
    var first, last := 0, Min(PAGE, n);
    menu.Rows := labels[first..last];
    ghost var start := Start(n, input.Text, warning.Text);
    ghost var st := start;
    while true
      invariant InWindow(n, st) && st == State(first, last, input.Text, warning.Text)
      invariant menu.Rows == labels[first..last]
      invariant Run(n, customWarning, start, Keys(events)) == Run(n, customWarning, st, Keys(rest))
      decreases |rest|
    {
      var key;
      key, rest := ReadKey(rest);
      if key == None {
        return Waiting;
      }
      ghost var after := Step(n, customWarning, st, key.value);
      assert Run(n, customWarning, st, [key.value] + Keys(rest))
          == if after.Done? then after else Run(n, customWarning, after.state, Keys(rest));
      st := after.state;
      match key.value {
        case CtrlD =>
          return Failed(ExitRequest);
        case Escape =>
          return Failed(BackRequest);
        case Enter =>
          var choose := input.Text;
          input.Text := "";
          var c := Atoi(choose);
          if c != None && c.value >= 0 && c.value < n {
            if |customWarning| > c.value && customWarning[c.value] != "" {
              warning.Text := customWarning[c.value];
              continue;
            }
            return Chosen(c.value);
          }
          warning.Text := INVALID_ENTRY;
        case Backspace =>
          if |input.Text| > 0 {
            input.Text := input.Text[..|input.Text| - 1];
          }
        case Left =>
          first := Max(0, first - PAGE);
          last := Min(first + PAGE, n);
          menu.Rows := labels[first..last];
        case Right =>
          if first + PAGE >= n {
            continue;
          }
          first := first + PAGE;
          last := Min(first + PAGE, n);
          menu.Rows := labels[first..last];
        case Up =>
          first := Max(0, first - 1);
          last := Min(first + PAGE, n);
          menu.Rows := labels[first..last];
        case Down =>
          last := Min(last + 1, n);
          first := Max(0, last - PAGE);
          menu.Rows := labels[first..last];
        case Home =>
          first := 0;
          last := Min(first + PAGE, n);
          menu.Rows := labels[first..last];
        case End =>
          last := n;
          first := Max(0, last - PAGE);
          menu.Rows := labels[first..last];
        case Space =>
          input.Text := input.Text + " ";
        case Char(id) =>
          input.Text := input.Text + id;
        case PageUp =>  // only the log box scrolls
        case PageDown =>
        case Special =>
      }
    }
  }
}
