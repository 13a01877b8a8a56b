/** The demo selector of the product showcase: two demos, at most one of
    them active and mounted, a dock button per demo that toggles it, and a
    loading flag per demo raised for the 500 ms an activation takes.

    An activation has two halves: the click raises the loading flag and
    starts the 500 ms wait; the end of the wait makes the demo active and
    lowers the flag. Every wait is 500 ms, so waits end in the order they
    began: `pending` lists the demos whose wait is running, oldest first. */
module Showcase {
  import opened Wrappers

  datatype Demo = Gesture | Video

  const ActivationDelayMs: nat := 500

  /** The selector's state: `activeDemo`, the two loading flags, and the running waits. */
  datatype ShowcaseState = ShowcaseState(active: Option<Demo>, gestureLoading: bool, videoLoading: bool, pending: seq<Demo>)

  const Start := ShowcaseState(None, false, false, [])

  function Loading(s: ShowcaseState, d: Demo): bool
  {
    match d
    case Gesture => s.gestureLoading
    case Video => s.videoLoading
  }

  function WithLoading(s: ShowcaseState, d: Demo, b: bool): (r: ShowcaseState)
    ensures Loading(r, d) == b
    ensures forall e :: e != d ==> Loading(r, e) == Loading(s, e)
    ensures r.active == s.active && r.pending == s.pending
  {
    match d
    case Gesture => s.(gestureLoading := b)
    case Video => s.(videoLoading := b)
  }

  /** A demo's flag is up exactly while its wait runs, a demo has at most one
      wait running, and a demo whose wait runs is not the active one. */
  predicate Valid(s: ShowcaseState)
  {
    && (forall d :: Loading(s, d) <==> d in s.pending)
    && (forall i, j :: 0 <= i < j < |s.pending| ==> s.pending[i] != s.pending[j])
    && (forall d :: d in s.pending ==> s.active != Some(d))
  }

  /** `handleDemoChange`, up to its wait: a demo other than the active one
      raises its flag and starts its wait; null or the active demo deactivates
      at once. */
  function DemoChangeStep(s: ShowcaseState, demo: Option<Demo>): ShowcaseState
  {
    if demo.Some? && demo != s.active then
      WithLoading(s, demo.value, true).(pending := s.pending + [demo.value])
    else s.(active := None)
  }

  /** The oldest wait ends: its demo becomes active and its flag goes down. */
  function CompleteStep(s: ShowcaseState): ShowcaseState
    requires s.pending != []
  {
    WithLoading(s, s.pending[0], false).(active := Some(s.pending[0]), pending := s.pending[1..])
  }

  /** A dock button: disabled while its demo loads; otherwise null when its
      demo is active and the demo itself when it is not. */
  function DockClickStep(s: ShowcaseState, d: Demo): ShowcaseState
  {
    if Loading(s, d) then s
    else DemoChangeStep(s, if s.active == Some(d) then None else Some(d))
  }

  lemma StartValid()
    ensures Valid(Start)
  {
  }

  /** A dock click keeps the selector's invariant. */
  lemma {:induction false} DockClickPreservesValid(s: ShowcaseState, d: Demo)
    requires Valid(s)
    ensures Valid(DockClickStep(s, d))
  {
    if !Loading(s, d) && s.active != Some(d) {
      var r := DockClickStep(s, d);
      assert r.pending == s.pending + [d];
      assert d !in s.pending;
      forall i, j | 0 <= i < j < |r.pending| ensures r.pending[i] != r.pending[j] {
        if j == |s.pending| {
          assert r.pending[i] == s.pending[i];
          assert r.pending[i] in s.pending;
        } else {
          assert r.pending[i] == s.pending[i] && r.pending[j] == s.pending[j];
        }
      }
      forall e ensures Loading(r, e) <==> e in r.pending {
        assert e in r.pending <==> e in s.pending || e == d;
      }
    }
  }

  /** The end of a wait keeps the invariant. */
  lemma {:induction false} CompletePreservesValid(s: ShowcaseState)
    requires Valid(s) && s.pending != []
    ensures Valid(CompleteStep(s))
  {
    var d, r := s.pending[0], CompleteStep(s);
    assert s.pending == [d] + r.pending;
    forall j | 0 <= j < |r.pending| ensures r.pending[j] != d {
      assert r.pending[j] == s.pending[j + 1];
    }
    forall e ensures Loading(r, e) <==> e in r.pending {
      assert e in s.pending <==> e == d || e in r.pending;
    }
  }

  /** Choosing a demo other than the active one makes it active once its wait
      ends (if it is the oldest wait), with its flag up only during the wait
      and the other demo's flag untouched throughout. */
  lemma ActivationTakesItsWait(s: ShowcaseState, d: Demo)
    requires Valid(s) && s.pending == [] && s.active != Some(d)
    ensures var mid := DockClickStep(s, d);
      && Loading(mid, d) && mid.active == s.active && mid.pending == [d]
      && (forall e :: e != d ==> Loading(mid, e) == Loading(s, e))
      && CompleteStep(mid).active == Some(d) && !Loading(CompleteStep(mid), d)
      && (forall e :: e != d ==> Loading(CompleteStep(mid), e) == Loading(s, e))
      && CompleteStep(mid).pending == []
  {
    assert !Loading(s, d);
  }

  /** Null, or the active demo, deactivates at once and touches no flag. */
  lemma DeactivateAtOnce(s: ShowcaseState, demo: Option<Demo>)
    requires demo.None? || demo == s.active
    ensures DemoChangeStep(s, demo) == s.(active := None)
  {
  }

  /** Repeated clicks toggle: a click on the active demo deactivates it, and a
      click on an inactive, idle demo followed by its wait activates it. */
  lemma DockClickToggles(s: ShowcaseState, d: Demo)
    requires Valid(s)
    ensures s.active == Some(d) ==> DockClickStep(s, d).active == None
    ensures s.active != Some(d) && s.pending == [] ==> CompleteStep(DockClickStep(s, d)).active == Some(d)
    ensures s.active != Some(d) && s.pending == [] ==>
      DockClickStep(CompleteStep(DockClickStep(s, d)), d).active == None
  {
    if s.active == Some(d) {
      assert d !in s.pending;
    }
  }

  /** A dock button does nothing while its demo loads. */
  lemma DisabledWhileLoading(s: ShowcaseState, d: Demo)
    requires Loading(s, d)
    ensures DockClickStep(s, d) == s
  {
  }

  /** The demo children the showcase renders for an `activeDemo` (the
      placeholder when none). `AnimatePresence` may keep an exiting child
      mounted past this: see `Presence` below. */
  function Mounted(active: Option<Demo>): (m: seq<Demo>)
    ensures |m| <= 1
    ensures forall d :: d in m <==> active == Some(d)
  {
    match active
    case Some(d) => [d]
    case None => []
  }

  /** The `isActive` prop a demo component receives. */
  function IsActiveProp(active: Option<Demo>, d: Demo): bool
  {
    active == Some(d)
  }

  /** At most one demo child is rendered, the active one, and it is rendered
      with `isActive` set; with no active demo only the placeholder is. */
  lemma OneDemoMounted(active: Option<Demo>)
    ensures |Mounted(active)| <= 1
    ensures forall d :: d in Mounted(active) ==> IsActiveProp(active, d)
    ensures forall d :: IsActiveProp(active, d) ==> d in Mounted(active)
    ensures active.None? <==> Mounted(active) == []
  {
  }

  // ---------------------------------------------------------------------------
  // What `AnimatePresence mode="wait"` keeps mounted
  //
  // When the rendered child changes, the old child stays mounted while its
  // exit animation plays, with the props it was last rendered with; the new
  // child mounts only once the exit has ended. Each demo's exit lasts 500 ms;
  // the placeholder's uses the animation library's default duration, which is
  // a parameter here.

  const DemoExitMs: nat := 500

  /** The child mounted (`None` is the placeholder), when its exit ends while
      it is exiting, and the `isActive` it was last rendered with. */
  datatype Presence = Presence(shown: Option<Demo>, exitEndsAt: Option<int>, shownIsActive: bool)

  /** At mount no demo is active, so the placeholder shows. */
  const FirstPresence := Presence(None, None, false)

  function ExitMs(child: Option<Demo>, placeholderExitMs: nat): nat
  {
    if child.Some? then DemoExitMs else placeholderExitMs
  }

  /** The presence at `now`, with `active` the current `activeDemo`: an exit
      that has ended mounts the current child; a mounted child that is no
      longer the current one starts its exit and keeps its last props; any
      other child is re-rendered with the current props. */
  function PresenceStep(p: Presence, active: Option<Demo>, now: int, placeholderExitMs: nat): (r: Presence)
    ensures r.exitEndsAt.None? ==> r.shown == active && r.shownIsActive == active.Some?
    ensures p.exitEndsAt.Some? && now < p.exitEndsAt.value ==> r == p
  {
    var p1 := if p.exitEndsAt.Some? && p.exitEndsAt.value <= now then Presence(active, None, active.Some?) else p;
    if p1.exitEndsAt.Some? then p1
    else if p1.shown != active then p1.(exitEndsAt := Some(now + ExitMs(p1.shown, placeholderExitMs)))
    else p1.(shownIsActive := p1.shown.Some? && IsActiveProp(active, p1.shown.value))
  }

  /** A moment at which the presence is observed: a render, or only the clock. */
  datatype Moment = Moment(active: Option<Demo>, at: int)

  function PresenceRun(p: Presence, moments: seq<Moment>, placeholderExitMs: nat): Presence
    decreases |moments|
  {
    if moments == [] then p
    else PresenceRun(PresenceStep(p, moments[0].active, moments[0].at, placeholderExitMs), moments[1..], placeholderExitMs)
  }

  /** A mounted demo has always been rendered with `isActive` set. */
  predicate DemoMountedActive(p: Presence)
  {
    p.shown.Some? ==> p.shownIsActive
  }

  /** A mounted demo is never told it is inactive: through its exit it keeps
      `isActive` set, so deactivation reaches it only as its unmount. */
  lemma {:induction false} MountedDemoStaysActive(p: Presence, moments: seq<Moment>, placeholderExitMs: nat)
    requires DemoMountedActive(p)
    ensures DemoMountedActive(PresenceRun(p, moments, placeholderExitMs))
    decreases |moments|
  {
    if moments != [] {
      var p1 := PresenceStep(p, moments[0].active, moments[0].at, placeholderExitMs);
      assert DemoMountedActive(p1);
      MountedDemoStaysActive(p1, moments[1..], placeholderExitMs);
    }
  }

  /** Deactivating the mounted demo at `now` starts its 500 ms exit: it stays
      mounted, still with `isActive` set, and the placeholder waits. */
  lemma DeactivationStartsExit(d: Demo, now: int, placeholderExitMs: nat)
    ensures PresenceStep(Presence(Some(d), None, true), None, now, placeholderExitMs)
      == Presence(Some(d), Some(now + DemoExitMs), true)
  {
  }

  /** During an exit nothing else mounts, whatever `activeDemo` does; at the
      first moment at or after the end of the exit, the current child mounts. */
  lemma {:induction false} ExitHoldsUntilItEnds(p: Presence, moments: seq<Moment>, placeholderExitMs: nat, next: Moment)
    requires p.exitEndsAt.Some?
    requires forall i :: 0 <= i < |moments| ==> moments[i].at < p.exitEndsAt.value
    requires next.at >= p.exitEndsAt.value
    ensures PresenceRun(p, moments, placeholderExitMs) == p
    ensures PresenceStep(p, next.active, next.at, placeholderExitMs).shown == next.active
    decreases |moments|
  {
    if moments != [] {
      assert PresenceStep(p, moments[0].active, moments[0].at, placeholderExitMs) == p;
      assert forall i :: 0 <= i < |moments[1..]| ==> moments[1..][i].at < p.exitEndsAt.value by {
        forall i | 0 <= i < |moments[1..]| ensures moments[1..][i].at < p.exitEndsAt.value {
          assert moments[1..][i] == moments[i + 1];
        }
      }
      ExitHoldsUntilItEnds(p, moments[1..], placeholderExitMs, next);
    }
  }

  // ---------------------------------------------------------------------------
  // The imperative section

  class ProductShowcase {
    var activeDemo: Option<Demo>
    var gestureLoading: bool
    var videoLoading: bool
    var pending: seq<Demo>

    function State(): ShowcaseState
      reads this
    {
      ShowcaseState(activeDemo, gestureLoading, videoLoading, pending)
    }

    constructor ()
      ensures State() == Start
    {
      activeDemo, gestureLoading, videoLoading, pending := None, false, false, [];
    }

    /** `handleDemoChange` up to its wait. */
    method HandleDemoChange(demo: Option<Demo>)
      modifies this
      ensures State() == DemoChangeStep(old(State()), demo)
    {
      if demo.Some? && demo != activeDemo {
        match demo.value {
          case Gesture => gestureLoading := true;
          case Video => videoLoading := true;
        }
        pending := pending + [demo.value];
      } else {
        activeDemo := None;
      }
    }

    /** The end of the oldest running wait. */
    method CompleteTransition()
      requires pending != [] && Valid(State())
      modifies this
      ensures State() == CompleteStep(old(State()))
      ensures Valid(State())
    {
      var d := pending[0];
      activeDemo := Some(d);
      match d {
        case Gesture => gestureLoading := false;
        case Video => videoLoading := false;
      }
      pending := pending[1..];
      CompletePreservesValid(old(State()));
    }

    /** A dock button's `onClick`, which cannot fire while the button is disabled. */
    method DockClick(d: Demo)
      requires Valid(State())
      modifies this
      ensures State() == DockClickStep(old(State()), d)
      ensures Valid(State())
    {
      var loading := match d case Gesture => gestureLoading case Video => videoLoading;
      if loading {
        return;
      }
      HandleDemoChange(if activeDemo == Some(d) then None else Some(d));
      DockClickPreservesValid(old(State()), d);
    }
  }
}
