/** Progress (pkg/menu/menu.go): animate and Close, two goroutines that share a
    paragraph and meet on two unbuffered channels. A run is any interleaving of
    their atomic steps; a send and its receive are one step of both. */
module ProgressBar {
  import opened Wrappers

  // Where animate is: at the select, asleep, with the text read, with the
  // dotted text written, with it rendered, sending the ack, returned.
  datatype Animate = AtSelect | Asleep | HasRead | HasWritten | HasRendered | SendingAck | Returned

  // Where Close is: not called, sending on sigTerm, waiting for the ack, about
  // to clear the screen, done.
  datatype Close = NotCalled | SendingTerm | AwaitingAck | Clearing | Closed

  datatype Drawn = Frame(text: string) | Cleared

  datatype State = State(
    text: string,          // paragraph.Text
    saved: string,         // pText
    counter: nat,
    animate: Animate,
    close: Close,
    screen: seq<Drawn>)    // everything drawn so far

  datatype Action =
    | CallClose
    | Terminate   // sigTerm: Close sends, animate receives
    | Default     // the default branch of the select
    | Read | Write | Render | Restore
    | Acknowledge // ackTerm: animate sends, Close receives
    | ClearScreen

  function Dots(counter: nat): string {
    seq(counter % 4, i => '.')
  }

  // NewProgress renders the text and starts animate.
  function New(text: string): State {
    State(text, text, 0, AtSelect, NotCalled, [Frame(text)])
  }

  predicate Enabled(s: State, a: Action) {
    match a
    case CallClose => s.close.NotCalled?
    case Terminate => s.animate.AtSelect? && s.close.SendingTerm?
    case Default => s.animate.AtSelect? && !s.close.SendingTerm?  // only when nobody is sending
    case Read => s.animate.Asleep?
    case Write => s.animate.HasRead?
    case Render => s.animate.HasWritten?
    case Restore => s.animate.HasRendered?
    case Acknowledge => s.animate.SendingAck? && s.close.AwaitingAck?
    case ClearScreen => s.close.Clearing?
  }

  function Step(s: State, a: Action): State
    requires Enabled(s, a)
  {
    match a
    case CallClose => s.(close := SendingTerm)
    case Terminate => s.(animate := SendingAck, close := AwaitingAck)
    case Default => s.(animate := Asleep)
    case Read => s.(animate := HasRead, saved := s.text)
    case Write => s.(animate := HasWritten, text := s.saved + Dots(s.counter))
    case Render => s.(animate := HasRendered, screen := s.screen + [Frame(s.text)])
    case Restore => s.(animate := AtSelect, text := s.saved, counter := s.counter + 1)
    case Acknowledge => s.(animate := Returned, close := Clearing)
    case ClearScreen => s.(close := Closed, screen := s.screen + [Cleared])
  }

  // The state after some actions; None if one of them was not possible.
  function Exec(s: State, actions: seq<Action>): Option<State>
    decreases |actions|
  {
    if actions == [] then Some(s)
    else if !Enabled(s, actions[0]) then None
    else Exec(Step(s, actions[0]), actions[1..])
  }

  // ---- The invariant of every interleaving ------------------------------

  // The frames of an animation: the text, then the text with 0, 1, 2, 3, 0...
  // dots.
  function Frames(text: string, ticks: nat): seq<Drawn> {
    if ticks == 0 then [Frame(text)] else Frames(text, ticks - 1) + [Frame(text + Dots(ticks - 1))]
  }

  // Ticks whose frame is on the screen.
  function Ticks(s: State): nat {
    if s.animate.HasRendered? then s.counter + 1 else s.counter
  }

  predicate Inv(text: string, s: State) {
    && (s.animate.HasWritten? || s.animate.HasRendered? ==>
          s.saved == text && s.text == text + Dots(s.counter))
    && (s.animate.HasRead? ==> s.saved == text)
    && (!s.animate.HasWritten? && !s.animate.HasRendered? ==> s.text == text)
    && (s.animate.SendingAck? <==> s.close.AwaitingAck?)
    && (s.animate.Returned? <==> s.close.Clearing? || s.close.Closed?)
    && s.screen == Frames(text, Ticks(s)) + (if s.close.Closed? then [Cleared] else [])
  }

  lemma StepKeepsInv(text: string, s: State, a: Action)
    requires Inv(text, s) && Enabled(s, a)
    ensures Inv(text, Step(s, a))
  {
    var next := Step(s, a);
    if a.Render? {
      assert Frames(text, Ticks(next)) == Frames(text, Ticks(s)) + [Frame(s.text)];
    }
  }

  lemma {:induction false} RunKeepsInv(text: string, s: State, actions: seq<Action>)
    requires Inv(text, s) && Exec(s, actions).Some?
    ensures Inv(text, Exec(s, actions).value)
    decreases |actions|
  {
    if actions != [] {
      StepKeepsInv(text, s, actions[0]);
      RunKeepsInv(text, Step(s, actions[0]), actions[1..]);
    }
  }

  ghost predicate Reachable(text: string, s: State) {
    exists actions :: Exec(New(text), actions) == Some(s)
  }

  lemma ReachableInv(text: string, s: State)
    requires Reachable(text, s)
    ensures Inv(text, s)
  {
    var actions :| Exec(New(text), actions) == Some(s);
    assert Inv(text, New(text));
    RunKeepsInv(text, New(text), actions);
  }

  lemma {:induction false} FramesAre(text: string, ticks: nat)
    ensures |Frames(text, ticks)| == ticks + 1 && Frames(text, ticks)[0] == Frame(text)
    ensures forall k :: 0 <= k < ticks ==> Frames(text, ticks)[k + 1] == Frame(text + "..."[..k % 4])
  {
    if ticks > 0 {
      FramesAre(text, ticks - 1);
      assert Dots(ticks - 1) == "..."[..(ticks - 1) % 4];
    }
  }

  // Dots never accumulate: between ticks the text is the original one, and
  // what was drawn is the text and then, tick by tick, the text with 0, 1, 2, 3
  // and again 0 dots, up to the clearing of the screen.
  lemma DotsNeverAccumulate(text: string, s: State)
    requires Reachable(text, s)
    ensures s.animate in {AtSelect, Asleep, SendingAck, Returned} ==> s.text == text
    ensures |s.screen| == 1 + Ticks(s) + (if s.close.Closed? then 1 else 0)
    ensures s.screen[0] == Frame(text)
    ensures forall k :: 0 <= k < Ticks(s) ==> s.screen[k + 1] == Frame(text + "..."[..k % 4])
    ensures s.close.Closed? ==> s.screen[|s.screen| - 1] == Cleared
  {
    ReachableInv(text, s);
    FramesAre(text, Ticks(s));
  }

  // ---- Nothing is drawn after the ack -----------------------------------

  predicate Acknowledged(s: State) {
    s.close.Clearing? || s.close.Closed?
  }

  // From the ack on, animate takes no step and the screen is only cleared.
  lemma {:induction false} QuietAfterAck(text: string, s: State, actions: seq<Action>)
    requires Inv(text, s) && Acknowledged(s) && Exec(s, actions).Some?
    ensures var end := Exec(s, actions).value;
            Acknowledged(end) && end.animate == s.animate == Returned && end.text == text &&
            end.screen == s.screen + (if end.close == s.close then [] else [Cleared])
    decreases |actions|
  {
    if actions != [] {
      StepKeepsInv(text, s, actions[0]);
      QuietAfterAck(text, Step(s, actions[0]), actions[1..]);
    }
  }

  lemma NothingDrawnAfterClose(text: string, s: State, actions: seq<Action>)
    requires Reachable(text, s) && Acknowledged(s) && Exec(s, actions).Some?
    ensures var end := Exec(s, actions).value;
            end.animate == Returned && end.text == text &&
            end.screen == s.screen + (if end.close == s.close then [] else [Cleared])
    ensures s.close.Closed? ==> actions == []
  {
    ReachableInv(text, s);
    QuietAfterAck(text, s, actions);
  }

  // ---- No deadlock, and Close ends --------------------------------------

  // The step that is always possible until both are done.
  function NextAction(s: State): Action {
    match s.animate
    case AtSelect => if s.close.SendingTerm? then Terminate else Default
    case Asleep => Read
    case HasRead => Write
    case HasWritten => Render
    case HasRendered => Restore
    case SendingAck => Acknowledge
    case Returned => ClearScreen
  }

  lemma NeverDeadlocked(text: string, s: State)
    requires Reachable(text, s)
    ensures s.close.Closed? || Enabled(s, NextAction(s))
  {
    ReachableInv(text, s);
  }

  // Steps left once Close has been called.
  function Remaining(s: State): nat {
    if s.close.Closed? then 0
    else
      match s.animate
      case Returned => 1
      case SendingAck => 2
      case AtSelect => 3
      case HasRendered => 4
      case HasWritten => 5
      case HasRead => 6
      case Asleep => 7
  }

  lemma {:induction false} CloseCountsDown(text: string, s: State, actions: seq<Action>)
    requires Inv(text, s) && !s.close.NotCalled? && Exec(s, actions).Some?
    ensures !Exec(s, actions).value.close.NotCalled?
    ensures Remaining(Exec(s, actions).value) == Remaining(s) - |actions|
    ensures Ticks(Exec(s, actions).value) <= Ticks(s) + (if Remaining(s) >= 5 then 1 else 0)
    decreases |actions|
  {
    if actions != [] {
      StepKeepsInv(text, s, actions[0]);
      CloseCountsDown(text, Step(s, actions[0]), actions[1..]);
    }
  }

  // Once Close has been called, whatever the interleaving: every step brings
  // it nearer to its end, at most seven are left, at most the frame of the
  // tick in progress is still drawn, and when no step is left it has ended.
  lemma CloseEnds(text: string, s: State, actions: seq<Action>)
    requires Reachable(text, s) && s.close.SendingTerm? && Exec(s, actions).Some?
    ensures |actions| <= 7
    ensures Ticks(Exec(s, actions).value) <= Ticks(s) + 1
    ensures s.animate.AtSelect? ==> Ticks(Exec(s, actions).value) == Ticks(s)
    ensures (forall a :: !Enabled(Exec(s, actions).value, a)) ==> Exec(s, actions).value.close.Closed?
  {
    ReachableInv(text, s);
    CloseCountsDown(text, s, actions);
    RunKeepsInv(text, s, actions);
    var end := Exec(s, actions).value;
    if !end.close.Closed? {
      assert Enabled(end, NextAction(end));
    }
    TicksGrow(text, s, actions);
  }

  lemma {:induction false} TicksGrow(text: string, s: State, actions: seq<Action>)
    requires Exec(s, actions).Some?
    ensures Ticks(Exec(s, actions).value) >= Ticks(s)
    decreases |actions|
  {
    if actions != [] {
      TicksGrow(text, Step(s, actions[0]), actions[1..]);
    }
  }
}
