/** The rate-limited easter-egg dispatcher of the gesture-recognition
    component and the auto-closing notification it shows.

    Time is an explicit integer clock in milliseconds. A pending timer is a
    flag plus the time it is due: the cooldown flag has one pending clearing
    timer while it is set, and the notification has one pending closing timer
    while it is shown. Every event first lets the timers that are due fire
    (the cooldown's before the notification's: both are 5000 ms long and the
    cooldown's is set first), then takes effect. */
module EasterEgg {

  const CooldownMs: nat := 5000
  const NotificationMs: nat := 5000

  /** The cooldown ref with its clearing time, and the notification flag with its closing time. */
  datatype EggState = EggState(cooldown: bool, cooldownClearAt: int, show: bool, closeAt: int)

  const Quiet := EggState(false, 0, false, 0)

  /** What can happen to the component: a frame that raised the easter-egg
      event, a re-render of the component (any published gesture or finger
      vector, any state change), or only the passing of time. */
  datatype EggEvent = Matched(at: int) | Rerendered(at: int) | ClockAt(at: int)

  function At(e: EggEvent): int
  {
    match e
    case Matched(t) => t
    case Rerendered(t) => t
    case ClockAt(t) => t
  }

  /** The timers due by `now` fire. */
  function Advance(s: EggState, now: int): (r: EggState)
    ensures r.cooldown ==> s.cooldown && now < s.cooldownClearAt
    ensures r.show ==> s.show && now < s.closeAt
  {
    var s1 := if s.cooldown && s.cooldownClearAt <= now then s.(cooldown := false) else s;
    if s1.show && s1.closeAt <= now then s1.(show := false) else s1
  }

  /** `handleEasterEgg`: ignored while the cooldown is set; otherwise set the
      cooldown (cleared 5000 ms later) and show the notification. Showing a
      notification that is not yet shown starts its closing timer; showing one
      already shown changes nothing about it. Also reports whether it fired. */
  function Handle(s: EggState, now: int): (EggState, bool)
  {
    if s.cooldown then (s, false)
    else (s.(cooldown := true, cooldownClearAt := now + CooldownMs,
             show := true, closeAt := if s.show then s.closeAt else now + NotificationMs), true)
  }

  /** One event, with a closing timer that only showing the notification starts. */
  function Step(s: EggState, e: EggEvent): (EggState, bool)
  {
    var s1 := Advance(s, At(e));
    match e
    case Matched(t) => Handle(s1, t)
    case _ => (s1, false)
  }

  /** The state after a sequence of events, and how many notifications they raised. */
  function Run(s: EggState, events: seq<EggEvent>): (EggState, nat)
    decreases |events|
  {
    if events == [] then (s, 0)
    else
      var (s1, fired) := Step(s, events[0]);
      var (s2, n) := Run(s1, events[1..]);
      (s2, n + if fired then 1 else 0)
  }

  /** A firing sets the cooldown until 5000 ms later and shows the notification. */
  lemma HandleFires(s: EggState, now: int)
    requires !s.cooldown
    ensures Handle(s, now).1
    ensures Handle(s, now).0.cooldown && Handle(s, now).0.cooldownClearAt == now + CooldownMs
    ensures Handle(s, now).0.show
  {
  }

  /** While the cooldown is set, handling changes nothing. */
  lemma HandleDuringCooldown(s: EggState, now: int)
    requires s.cooldown
    ensures Handle(s, now) == (s, false)
  {
  }

  /** Rate limit: once fired at `t`, no event before `t + 5000` raises a second
      notification, however many frames match. */
  lemma {:induction false} NoSecondNotificationWithinCooldown(s: EggState, events: seq<EggEvent>)
    requires s.cooldown
    requires forall i :: 0 <= i < |events| ==> At(events[i]) < s.cooldownClearAt
    ensures Run(s, events).1 == 0
    ensures Run(s, events).0.cooldown && Run(s, events).0.cooldownClearAt == s.cooldownClearAt
    decreases |events|
  {
    if events != [] {
      var (s1, fired) := Step(s, events[0]);
      assert s1.cooldown && s1.cooldownClearAt == s.cooldownClearAt && !fired;
      assert forall i :: 0 <= i < |events[1..]| ==> At(events[1..][i]) < s1.cooldownClearAt by {
        forall i | 0 <= i < |events[1..]| ensures At(events[1..][i]) < s1.cooldownClearAt {
          assert events[1..][i] == events[i + 1];
        }
      }
      NoSecondNotificationWithinCooldown(s1, events[1..]);
    }
  }

  /** A matching frame once the cooldown has run out raises the notification again. */
  lemma FiresAgainAfterCooldown(s: EggState, t: int)
    requires s.cooldown && t >= s.cooldownClearAt
    ensures Step(s, Matched(t)).1
    ensures Step(s, Matched(t)).0.show
  {
  }

  /** The cooldown belongs to the dispatcher: it clears at its own time whether
      or not the notification is still shown or was closed early. */
  lemma CooldownIndependentOfNotification(s: EggState, now: int)
    requires s.cooldown && s.cooldownClearAt <= now
    ensures !Advance(s, now).cooldown
    ensures !Advance(s.(show := !s.show), now).cooldown
  {
  }

  /** The notification stays up until, and closes exactly at, its closing time
      (5000 ms after it was shown), whatever happens in between. */
  lemma {:induction false} NotificationClosesOnTime(s: EggState, events: seq<EggEvent>)
    requires s.show
    requires forall i :: 0 <= i < |events| ==> At(events[i]) < s.closeAt
    ensures Run(s, events).0.show && Run(s, events).0.closeAt == s.closeAt
    ensures !Advance(Run(s, events).0, s.closeAt).show
    decreases |events|
  {
    if events != [] {
      var (s1, fired) := Step(s, events[0]);
      assert s1.show && s1.closeAt == s.closeAt;
      assert forall i :: 0 <= i < |events[1..]| ==> At(events[1..][i]) < s1.closeAt by {
        forall i | 0 <= i < |events[1..]| ensures At(events[1..][i]) < s1.closeAt {
          assert events[1..][i] == events[i + 1];
        }
      }
      NotificationClosesOnTime(s1, events[1..]);
    }
  }

  // ---------------------------------------------------------------------------
  // The notification as written: `onClose` is a new arrow on every render of
  // the component, so the notification's effect is cleaned up and re-run on
  // every re-render, cancelling the closing timer and starting a fresh one.

  /** One event as written: a re-render while the notification is shown
      restarts its 5000 ms closing timer. */
  function StepAsWritten(s: EggState, e: EggEvent): (EggState, bool)
  {
    var s1 := Advance(s, At(e));
    match e
    case Matched(t) => Handle(s1, t)
    case Rerendered(t) => (if s1.show then s1.(closeAt := t + NotificationMs) else s1, false)
    case ClockAt(_) => (s1, false)
  }

  function RunAsWritten(s: EggState, events: seq<EggEvent>): (EggState, nat)
    decreases |events|
  {
    if events == [] then (s, 0)
    else
      var (s1, fired) := StepAsWritten(s, events[0]);
      var (s2, n) := RunAsWritten(s1, events[1..]);
      (s2, n + if fired then 1 else 0)
  }

  /** As written, the notification shown at 0 ms is still up at 5000 ms when
      the component re-rendered at 4000 ms (a hand still in view does this
      every frame); the corrected timer has closed it by then. */
  lemma NotificationOutlivesDeadlineAsWritten()
    ensures RunAsWritten(Quiet, [Matched(0), Rerendered(4000), ClockAt(5000)]).0.show
    ensures !Run(Quiet, [Matched(0), Rerendered(4000), ClockAt(5000)]).0.show
  {
    var s1 := StepAsWritten(Quiet, Matched(0)).0;
    assert s1 == EggState(true, 5000, true, 5000);
    var s2 := StepAsWritten(s1, Rerendered(4000)).0;
    assert s2 == EggState(true, 5000, true, 9000);
    assert StepAsWritten(s2, ClockAt(5000)).0 == EggState(false, 5000, true, 9000);
    assert [Matched(0), Rerendered(4000), ClockAt(5000)][1..] == [Rerendered(4000), ClockAt(5000)];
    assert [Rerendered(4000), ClockAt(5000)][1..] == [ClockAt(5000)];
    var c1 := Step(Quiet, Matched(0)).0;
    assert c1 == EggState(true, 5000, true, 5000);
    assert Step(c1, Rerendered(4000)).0 == c1;
  }

  // ---------------------------------------------------------------------------
  // The imperative dispatcher

  /** The cooldown ref and the notification flag of the component, with their pending timers. */
  class Dispatcher {
    var cooldown: bool
    var cooldownClearAt: int
    var showNotification: bool
    var closeAt: int

    function State(): EggState
      reads this
    {
      EggState(cooldown, cooldownClearAt, showNotification, closeAt)
    }

    constructor ()
      ensures State() == Quiet
    {
      cooldown, cooldownClearAt := false, 0;
      showNotification, closeAt := false, 0;
    }

    /** The clock reaches `now`: the due timers fire. */
    method AdvanceClock(now: int)
      modifies this
      ensures State() == Advance(old(State()), now)
    {
      if cooldown && cooldownClearAt <= now {
        cooldown := false;
      }
      if showNotification && closeAt <= now {
        showNotification := false;
      }
    }

    /** `handleEasterEgg` at time `now` (after the clock has reached `now`). */
    method HandleEasterEgg(now: int) returns (fired: bool)
      modifies this
      ensures (State(), fired) == Handle(old(State()), now)
    {
      if cooldown {
        return false;
      }
      cooldown := true;
      cooldownClearAt := now + CooldownMs;
      if !showNotification {
        closeAt := now + NotificationMs;
      }
      showNotification := true;
      fired := true;
    }

    /** One event as it reaches the component. */
    method OnEvent(e: EggEvent) returns (fired: bool)
      modifies this
      ensures (State(), fired) == Step(old(State()), e)
    {
      AdvanceClock(At(e));
      fired := false;
      if e.Matched? {
        fired := HandleEasterEgg(e.at);
      }
    }
  }
}
