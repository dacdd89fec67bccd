/**
 * Entering and leaving the viewer's fullscreen mode. Each bounded wait for a
 * control takes one answer from the environment's queue (`Viewer.Poll`);
 * the clicks themselves have no effect the crawler observes.
 */
module Fullscreen {
  import opened Viewer

  /** The three ways out of fullscreen, in the order they are tried. */
  datatype Strategy = CloseButton | ToggleButton | EscapeKey

  /**
   * How `exit_fullscreen` ends: True after one of the strategies, False, or
   * an exception that escapes it (a non-timeout error while the toggle
   * button is tried happens inside a `TimeoutException` handler, which no
   * `except` of that function catches).
   */
  datatype ExitOutcome = Exited(via: Strategy) | NotExited | Raised

  /** A strategy is a wait for its control and a wait for the expand button to reappear; the first wait that is not Ready decides. */
  function Attempt(ui: seq<Wait>): (r: (Wait, seq<Wait>))
    ensures |r.1| <= |ui|
  {
    var (a, rest) := Poll(ui);
    if a != Ready then (a, rest) else Poll(rest)
  }

  /** A strategy works when both its waits are answered Ready, and fails with an error when the first answer that is not Ready is one. */
  lemma AttemptAnswers(ui: seq<Wait>)
    ensures var r := Attempt(ui);
      && (r.0 == Ready <==> |ui| >= 2 && ui[0] == Ready && ui[1] == Ready)
      && (r.0 == Ready ==> r.1 == ui[2..])
      && (r.0 == Error <==> |ui| >= 1 && (ui[0] == Error || (ui[0] == Ready && |ui| >= 2 && ui[1] == Error)))
  {
  }

  /**
   * `enter_fullscreen_mode`: wait for the expand button, click it, wait for
   * the toggle button, click it, wait for the close button. Any failed wait
   * ends the attempt with False.
   */
  function EnterOutcome(ui: seq<Wait>): (r: (bool, seq<Wait>))
    ensures |r.1| <= |ui|
  {
    var (a, rest) := Attempt(ui);
    if a != Ready then (false, rest)
    else
      var (b, rest') := Poll(rest);
      (b == Ready, rest')
  }

  /** Fullscreen is entered exactly when all three waits are answered Ready, which takes those three answers. */
  lemma EnterAnswers(ui: seq<Wait>)
    ensures var r := EnterOutcome(ui);
      && (r.0 <==> |ui| >= 3 && ui[0] == Ready && ui[1] == Ready && ui[2] == Ready)
      && (r.0 ==> r.1 == ui[3..])
  {
    AttemptAnswers(ui);
  }

  /** `exit_fullscreen`: the close button, on timeout the toggle button, on timeout the ESC key. */
  function ExitChain(ui: seq<Wait>): (r: (ExitOutcome, seq<Wait>))
    ensures |r.1| <= |ui|
  {
    var (a, u1) := Attempt(ui);
    match a
    case Ready => (Exited(CloseButton), u1)
    case Error => (NotExited, u1)
    case Timeout =>
      var (b, u2) := Attempt(u1);
      match b
      case Ready => (Exited(ToggleButton), u2)
      case Error => (Raised, u2)
      case Timeout =>
        var (e, u3) := Poll(u2);
        (if e == Ready then Exited(EscapeKey) else NotExited, u3)
  }

  /**
   * The fallbacks are tried strictly in order, each only after the one before
   * it timed out: a non-timeout error of the close step ends the chain with
   * False at once, the toggle step decides only after the close step timed
   * out, ESC only after both timed out, and the exception escapes only from
   * the toggle step. A success of the toggle step or of ESC gives True, a
   * failed ESC gives False.
   */
  lemma ExitOrder(ui: seq<Wait>)
    ensures Attempt(ui).0 == Ready <==> ExitChain(ui).0 == Exited(CloseButton)
    ensures Attempt(ui).0 == Error ==> ExitChain(ui) == (NotExited, Attempt(ui).1)
    ensures ExitChain(ui).0 in {Exited(ToggleButton), Raised} ==>
      Attempt(ui).0 == Timeout && Attempt(Attempt(ui).1).0 != Timeout
    ensures ExitChain(ui).0 == Exited(EscapeKey) ==>
      Attempt(ui).0 == Timeout && Attempt(Attempt(ui).1).0 == Timeout && Poll(Attempt(Attempt(ui).1).1).0 == Ready
    ensures ExitChain(ui).0 == Raised <==> Attempt(ui).0 == Timeout && Attempt(Attempt(ui).1).0 == Error
    ensures ExitChain(ui).0 == Exited(ToggleButton) <==>
      Attempt(ui).0 == Timeout && Attempt(Attempt(ui).1).0 == Ready
    ensures ExitChain(ui).0 == Exited(EscapeKey) <==>
      Attempt(ui).0 == Timeout && Attempt(Attempt(ui).1).0 == Timeout && Poll(Attempt(Attempt(ui).1).1).0 == Ready
    ensures Attempt(ui).0 == Timeout && Attempt(Attempt(ui).1).0 == Timeout && Poll(Attempt(Attempt(ui).1).1).0 != Ready ==>
      ExitChain(ui).0 == NotExited
  {
  }

  /** The outcomes for given answers: a close step that times out and a toggle step that succeeds exit fullscreen, and so on. */
  lemma ExitAnswers()
    ensures ExitChain([Ready, Ready]) == (Exited(CloseButton), [])
    ensures ExitChain([Timeout, Ready, Ready]) == (Exited(ToggleButton), [])
    ensures ExitChain([Ready, Timeout, Ready, Ready]) == (Exited(ToggleButton), [])
    ensures ExitChain([Error, Ready, Ready]) == (NotExited, [Ready, Ready])
    ensures ExitChain([Ready, Error, Ready, Ready]) == (NotExited, [Ready, Ready])
    ensures ExitChain([Timeout, Timeout, Ready]) == (Exited(EscapeKey), [])
    ensures ExitChain([Timeout, Timeout, Timeout]) == (NotExited, [])
    ensures ExitChain([Timeout, Timeout, Error]) == (NotExited, [])
    ensures ExitChain([Timeout, Error, Ready]) == (Raised, [Ready])
    ensures ExitChain([]) == (NotExited, [])
  {
    assert [Ready, Timeout, Ready, Ready][2..] == [Ready, Ready];
    assert [Ready, Error, Ready, Ready][2..] == [Ready, Ready];
  }

  /** `t` is what is left of `ui` once some answers are taken from its front. */
  predicate Rest(t: seq<Wait>, ui: seq<Wait>) {
    |t| <= |ui| && t == ui[|ui| - |t|..]
  }

  lemma RestTrans(a: seq<Wait>, b: seq<Wait>, c: seq<Wait>)
    requires Rest(a, b) && Rest(b, c)
    ensures Rest(a, c)
  {
    forall i | 0 <= i < |a|
      ensures a[i] == c[|c| - |a| + i]
    {
      assert a[i] == b[|b| - |a| + i];
    }
  }

  lemma PollRest(ui: seq<Wait>)
    ensures Rest(Poll(ui).1, ui)
  {
  }

  lemma AttemptRest(ui: seq<Wait>)
    ensures Rest(Attempt(ui).1, ui)
  {
    PollRest(ui);
    PollRest(Poll(ui).1);
    if Poll(ui).0 == Ready {
      RestTrans(Attempt(ui).1, Poll(ui).1, ui);
    }
  }

  /** Entering fullscreen only ever takes answers from the front of the queue. */
  lemma EnterTakesFront(ui: seq<Wait>)
    ensures Rest(EnterOutcome(ui).1, ui)
  {
    var u1 := Attempt(ui).1;
    AttemptRest(ui);
    PollRest(u1);
    RestTrans(Poll(u1).1, u1, ui);
  }

  /** Leaving fullscreen only ever takes answers from the front of the queue. */
  lemma ExitTakesFront(ui: seq<Wait>)
    ensures Rest(ExitChain(ui).1, ui)
  {
    var (a, u1) := Attempt(ui);
    AttemptRest(ui);
    if a == Timeout {
      var (b, u2) := Attempt(u1);
      AttemptRest(u1);
      RestTrans(u2, u1, ui);
      if b == Timeout {
        PollRest(u2);
        RestTrans(Poll(u2).1, u2, ui);
      }
    }
  }

  /** `enter_fullscreen_mode` against the browser. */
  method EnterFullscreen(b: Browser) returns (entered: bool)
    requires b.Valid()
    modifies b
    ensures b.Valid() && (entered, b.ui) == EnterOutcome(old(b.ui))
    ensures b.at == old(b.at) && b.requested == old(b.requested)
  {
    var expand := b.Await();
    if expand != Ready {
      return false;
    }
    var toggle := b.Await();
    if toggle != Ready {
      return false;
    }
    var close := b.Await();
    entered := close == Ready;
  }

  /** One exit strategy against the browser: wait for its control, then for the expand button. */
  method TryStrategy(b: Browser) returns (outcome: Wait)
    requires b.Valid()
    modifies b
    ensures b.Valid() && (outcome, b.ui) == Attempt(old(b.ui))
    ensures b.at == old(b.at) && b.requested == old(b.requested)
  {
    outcome := b.Await();
    if outcome == Ready {
      outcome := b.Await();
    }
  }

  /** `exit_fullscreen` against the browser. */
  method ExitFullscreen(b: Browser) returns (outcome: ExitOutcome)
    requires b.Valid()
    modifies b
    ensures b.Valid() && (outcome, b.ui) == ExitChain(old(b.ui))
    ensures b.at == old(b.at) && b.requested == old(b.requested)
  {
    var close := TryStrategy(b);
    if close == Ready {
      return Exited(CloseButton);
    } else if close == Error {
      return NotExited;
    }
    var toggle := TryStrategy(b);
    if toggle == Ready {
      return Exited(ToggleButton);
    } else if toggle == Error {
      return Raised;
    }
    var escape := b.Await();
    outcome := if escape == Ready then Exited(EscapeKey) else NotExited;
  }
}
