/**
  Question boxes. A timed question is a dialog with "Yes" and "No" buttons and a
  one-second timer that counts `timeout` down and then answers "Yes" by itself;
  an untimed question is a plain message box that waits for a button.
 */
module MessageBox {
  import opened Wrappers

  datatype Button = Yes | No

  /** What reaches an open dialog: a timer tick or a click on one of its buttons. */
  datatype DialogEvent = TimerTick | PressYes | PressNo

  /** The countdown every timed question of the application uses. */
  const DefaultTimeout: int := 10

  /** The state of a timed question: seconds left, whether the timer runs, and the answer once it is done. */
  datatype Countdown = Countdown(timeout: int, timerActive: bool, result: Option<Button>)

  /** One timer tick: count down while time is left, otherwise stop the timer and answer "Yes". */
  function Tick(c: Countdown): (d: Countdown)
    ensures c.timeout > 0 ==> d == c.(timeout := c.timeout - 1)
    ensures c.timeout <= 0 ==> d.result == Some(Yes) && !d.timerActive && d.timeout == c.timeout
  {
    if c.timeout > 0 then c.(timeout := c.timeout - 1)
    else c.(timerActive := false, result := Some(Yes))
  }

  /** The "Yes" button: stop the timer and answer "Yes". */
  function Accepted(c: Countdown): (d: Countdown)
    ensures d.result == Some(Yes) && !d.timerActive && d.timeout == c.timeout
  {
    c.(timerActive := false, result := Some(Yes))
  }

  /** The "No" button: stop the timer and answer "No". */
  function Rejected(c: Countdown): (d: Countdown)
    ensures d.result == Some(No) && !d.timerActive && d.timeout == c.timeout
  {
    c.(timerActive := false, result := Some(No))
  }

  /** The state right after construction: the timer is started and the constructor ticks once itself. */
  function Opened(timeout: int): Countdown {
    Tick(Countdown(timeout, true, None))
  }

  /** An event reaching the dialog; once answered the dialog is closed and ignores everything. */
  function Deliver(c: Countdown, e: DialogEvent): Countdown {
    if c.result.Some? then c
    else
      match e
      case TimerTick => if c.timerActive then Tick(c) else c
      case PressYes => Accepted(c)
      case PressNo => Rejected(c)
  }

  /** The state after a series of events. */
  function Feed(c: Countdown, events: seq<DialogEvent>): Countdown
    decreases |events|
  {
    if events == [] then c else Feed(Deliver(c, events[0]), events[1..])
  }

  /** `n` timer ticks. */
  function Ticks(n: nat): (ts: seq<DialogEvent>)
    ensures |ts| == n && forall k | 0 <= k < n :: ts[k] == TimerTick
  {
    if n == 0 then [] else [TimerTick] + Ticks(n - 1)
  }

  /**
    The answer `exec` gives for a dialog in state `c`. An open dialog runs on the
    events, and once they are used up its timer ends it on "Yes". A dialog that
    has already answered is shown again with its timer stopped, so only a button
    answers it, and closing it counts as "No".
   */
  function AnswerFrom(c: Countdown, events: seq<DialogEvent>): Button {
    if c.result.Some? then FirstPress(events) else Feed(c, events).result.GetOr(Yes)
  }

  /** The answer of a plain message box: the first button clicked; closing it without one counts as "No". */
  function FirstPress(events: seq<DialogEvent>): Button {
    if events == [] then No
    else
      match events[0]
      case PressYes => Yes
      case PressNo => No
      case TimerTick => FirstPress(events[1..])
  }

  /** An open dialog is done exactly when its timer has stopped. */
  predicate Consistent(c: Countdown) {
    c.timerActive <==> c.result.None?
  }

  class TimedQuestionDialog {
    var timeout: int
    var timerActive: bool
    var result: Option<Button>

    function State(): Countdown
      reads this
    {
      Countdown(timeout, timerActive, result)
    }

    ghost predicate Valid()
      reads this
    {
      Consistent(State())
    }

    /** Starts the one-second timer and shows the first countdown step. */
    constructor (timeout: int)
      ensures State() == Opened(timeout) && Valid()
    {
      this.timeout := timeout;
      timerActive := true;
      result := None;
      new;
      UpdateCountdown();
    }

    /** A tick of the running timer. */
    method UpdateCountdown()
      requires Valid() && timerActive
      modifies this
      ensures Valid()
      ensures State() == Tick(old(State()))
    {
      if timeout > 0 {
        timeout := timeout - 1;
      } else {
        timerActive := false;
        result := Some(Yes);
      }
    }

    /** The "Yes" button. */
    method Accept()
      modifies this
      ensures Valid()
      ensures State() == Accepted(old(State()))
    {
      timerActive := false;
      result := Some(Yes);
    }

    /** The "No" button. */
    method Reject()
      modifies this
      ensures Valid()
      ensures State() == Rejected(old(State()))
    {
      timerActive := false;
      result := Some(No);
    }

    /**
      Runs the dialog on the user's events; once they are used up the timer keeps
      ticking until it answers. A dialog that already answered is shown again and
      waits for a button.
     */
    method Exec(events: seq<DialogEvent>) returns (answer: Button)
      requires Valid()
      modifies this
      ensures answer == AnswerFrom(old(State()), events)
    {
      if result.Some? {
        answer := FirstPress(events);
        if answer == Yes {
          Accept();
        } else {
          Reject();
        }
        return;
      }
      var k := 0;
      while k < |events| && result.None?
        invariant k <= |events| && Valid()
        invariant Feed(old(State()), events) == Feed(State(), events[k..])
      {
        assert events[k..][1..] == events[k + 1..];
        match events[k] {
          case TimerTick => UpdateCountdown();
          case PressYes => Accept();
          case PressNo => Reject();
        }
        k := k + 1;
      }
      if result.None? {
        assert events[k..] == [];
        assert Feed(old(State()), events).result.None?;
        while result.None?
          invariant Valid()
          decreases timeout, timerActive
        {
          UpdateCountdown();
        }
        return Yes;
      }
      FeedDone(State(), events[k..]);
      return result.value;
    }
  }

  /** A dialog that has answered keeps its answer whatever comes next. */
  lemma {:induction false} FeedDone(c: Countdown, events: seq<DialogEvent>)
    requires c.result.Some?
    ensures Feed(c, events) == c
    decreases |events|
  {
    if events != [] {
      FeedDone(c, events[1..]);
    }
  }

  /** The answer of `question`: a timed dialog when `timed`, a plain message box otherwise. */
  function QuestionAnswer(timed: bool, timeout: int, events: seq<DialogEvent>): Button {
    if timed then AnswerFrom(Opened(timeout), events) else FirstPress(events)
  }

  /** Asks a question and returns the button that answered it. */
  method Question(timed: bool, timeout: int, events: seq<DialogEvent>) returns (answer: Button)
    ensures answer == QuestionAnswer(timed, timeout, events)
  {
    if timed {
      var dialog := new TimedQuestionDialog(timeout);
      answer := dialog.Exec(events);
    } else {
      answer := FirstPress(events);
    }
  }

  /** With `T` seconds, the dialog is still open after fewer than `T` timer ticks, counting down from `T - 1`. */
  lemma {:induction false} CountdownOpen(t: int, k: nat)
    requires k < t
    ensures Feed(Opened(t), Ticks(k)) == Countdown(t - 1 - k, true, None)
  {
    if k > 0 {
      CountdownOpen(t, k - 1);
      FeedSnoc(Opened(t), Ticks(k - 1), TimerTick);
      TicksSnoc(k - 1);
    }
  }

  /** With `T >= 1` seconds, the `T`-th timer tick answers "Yes" and stops the timer. */
  lemma CountdownExpires(t: int)
    requires t >= 1
    ensures Feed(Opened(t), Ticks(t)) == Countdown(0, false, Some(Yes))
  {
    CountdownOpen(t, t - 1);
    FeedSnoc(Opened(t), Ticks(t - 1), TimerTick);
    TicksSnoc(t - 1);
  }

  /**
    With no time at all the constructor's own tick already answers "Yes"; `exec`
    then shows the dialog again with its timer stopped, and the first button
    pressed answers.
   */
  lemma NoTimeWaitsForButton(t: int, events: seq<DialogEvent>)
    requires t <= 0
    ensures Opened(t).result == Some(Yes) && !Opened(t).timerActive
    ensures QuestionAnswer(true, t, events) == FirstPress(events)
  {
  }

  /** "No" clicked before the time runs out answers "No", whatever follows. */
  lemma PressNoInTime(t: int, k: nat, rest: seq<DialogEvent>)
    requires k < t
    ensures QuestionAnswer(true, t, Ticks(k) + [PressNo] + rest) == No
  {
    CountdownOpen(t, k);
    FeedAppend(Opened(t), Ticks(k), [PressNo] + rest);
    assert (Ticks(k) + [PressNo] + rest) == Ticks(k) + ([PressNo] + rest);
    var c := Feed(Opened(t), Ticks(k));
    assert ([PressNo] + rest)[1..] == rest;
    FeedDone(Rejected(c), rest);
  }

  /** Feeding two series of events one after the other. */
  lemma {:induction false} FeedAppend(c: Countdown, a: seq<DialogEvent>, b: seq<DialogEvent>)
    ensures Feed(c, a + b) == Feed(Feed(c, a), b)
    decreases |a|
  {
    if a != [] {
      assert a + b != [];
      assert (a + b)[0] == a[0];
      assert (a + b)[1..] == a[1..] + b;
      FeedAppend(Deliver(c, a[0]), a[1..], b);
    } else {
      assert a + b == b;
    }
  }

  /** Feeding one more event at the end. */
  lemma FeedSnoc(c: Countdown, a: seq<DialogEvent>, e: DialogEvent)
    ensures Feed(c, a + [e]) == Deliver(Feed(c, a), e)
  {
    FeedAppend(c, a, [e]);
    assert [e][1..] == [];
  }

  /** `n + 1` ticks are `n` ticks and one more. */
  lemma TicksSnoc(n: nat)
    ensures Ticks(n + 1) == Ticks(n) + [TimerTick]
  {
  }
}
