/** The video-control demo: the gestures that drive the video player (thumb
    up seeks forward, thumb down seeks backward, "I love you" toggles
    playback), the confidence threshold and the 2000 ms cooldown that gate
    them, the 3000 ms "last action" message, the player's clamped seeks and
    play/pause toggle, and the m:ss time formatter.

    Times of the player are whole seconds; the controller's clock is in
    milliseconds. The embedded player is reduced to the fields the controls
    read and write. */
module VideoControl {
  import opened Wrappers
  import opened GestureLabels
  import opened Recognizer

  /** The three player controls. */
  datatype VideoAction = Forward | Backward | PlayPause

  /** The labels the controller reacts to, which are the display labels of the
      recognizer's translation table. */
  const ForwardLabel := "Pulgar Arriba"
  const BackwardLabel := "Pulgar Abajo"
  const PlayPauseLabel := "Te Amo"

  /** The gesture switch of the controller effect: three labels, three actions,
      no action for any other label. */
  function ActionForLabel(gesture: string): Option<VideoAction>
  {
    if gesture == ForwardLabel then Some(Forward)
    else if gesture == BackwardLabel then Some(Backward)
    else if gesture == PlayPauseLabel then Some(PlayPause)
    else None
  }

  /** What the gesture panel shows for a label (`getActionForGesture`): the
      translation key of the control's caption and the colour of its line. */
  datatype ControlInfo = ControlInfo(actionKey: string, color: string)

  function ControlFor(gesture: string): Option<ControlInfo>
  {
    match gesture
    case "Pulgar Arriba" => Some(ControlInfo("productShowcase.demos.video.controls.0.action", "text-green-400"))
    case "Pulgar Abajo" => Some(ControlInfo("productShowcase.demos.video.controls.1.action", "text-red-400"))
    case "Te Amo" => Some(ControlInfo("productShowcase.demos.video.controls.2.action", "text-blue-400"))
    case _ => None
  }

  /** The index of an action among the demo's listed controls (0 forward, 1 backward, 2 play/pause). */
  function ControlIndex(a: VideoAction): (i: nat)
    ensures i < 3
  {
    match a
    case Forward => 0
    case Backward => 1
    case PlayPause => 2
  }

  /** The panel and the controller agree: the panel describes a control for
      exactly the labels that trigger one, and it is the control they trigger. */
  lemma PanelMatchesController(gesture: string)
    ensures ControlFor(gesture).Some? <==> ActionForLabel(gesture).Some?
    ensures ActionForLabel(gesture).Some? ==>
      ControlFor(gesture).value.actionKey ==
        "productShowcase.demos.video.controls." + [('0' as int + ControlIndex(ActionForLabel(gesture).value)) as char] + ".action"
  {
  }

  /** The three labels are distinct: two labels that trigger the same action are the same label. */
  lemma LabelsDistinct(g1: string, g2: string)
    ensures ActionForLabel(g1).Some? && ActionForLabel(g1) == ActionForLabel(g2) ==> g1 == g2
  {
  }

  /** Through the recognizer's translation: a category reaches each action
      exactly when it is the corresponding model category, or a category
      outside the table that already carries the label (the raw name is shown
      untranslated). No other model category drives the player. */
  lemma {:induction false} CategoryToAction(c: string)
    ensures ActionForLabel(TranslateLabel(c)) == Some(Forward) <==> c == "Thumb_Up" || c == ForwardLabel
    ensures ActionForLabel(TranslateLabel(c)) == Some(Backward) <==> c == "Thumb_Down" || c == BackwardLabel
    ensures ActionForLabel(TranslateLabel(c)) == Some(PlayPause) <==> c == "ILoveYou" || c == PlayPauseLabel
    ensures c in AvailableGestures && c !in {"Thumb_Up", "Thumb_Down", "ILoveYou"} ==> ActionForLabel(TranslateLabel(c)).None?
  {
    if c in GestureTranslations {
      assert c in {"None", "Closed_Fist", "Open_Palm", "Pointing_Up", "Thumb_Down", "Thumb_Up", "Victory", "ILoveYou"};
    } else {
      assert TranslateLabel(c) == c;
    }
  }

  // ---------------------------------------------------------------------------
  // Seeks and the play/pause toggle

  /** Seconds a seek moves. */
  const SeekStep: nat := 10

  /** `Math.min(currentTime + 10, duration)`. */
  function ForwardTarget(position: nat, duration: nat): nat
  {
    if position + SeekStep <= duration then position + SeekStep else duration
  }

  /** `Math.max(currentTime - 10, 0)`. */
  function BackwardTarget(position: nat): nat
  {
    if position >= SeekStep then position - SeekStep else 0
  }

  /** A forward seek never passes the end, and moves by 10 s unless that would;
      from a position inside the video it never moves backwards. */
  lemma ForwardTargetBounds(position: nat, duration: nat)
    ensures ForwardTarget(position, duration) <= duration
    ensures ForwardTarget(position, duration) <= position + SeekStep
    ensures ForwardTarget(position, duration) == position + SeekStep || ForwardTarget(position, duration) == duration
    ensures position <= duration ==> position <= ForwardTarget(position, duration)
  {
  }

  /** A backward seek never goes below 0 and moves by 10 s unless that would. */
  lemma BackwardTargetBounds(position: nat)
    ensures BackwardTarget(position) <= position
    ensures BackwardTarget(position) == position - SeekStep || BackwardTarget(position) == 0
    ensures position >= SeekStep ==> BackwardTarget(position) == position - SeekStep
  {
  }

  /** Away from both ends a forward seek and a backward seek undo each other. */
  lemma SeeksUndoEachOther(position: nat, duration: nat)
    ensures position + SeekStep <= duration ==> BackwardTarget(ForwardTarget(position, duration)) == position
    ensures SeekStep <= position <= duration ==> ForwardTarget(BackwardTarget(position), duration) == position
  {
  }

  /** The YouTube player state code for "playing". */
  const Playing: int := 1

  /** The call the toggle makes on the player. */
  datatype PlaybackCall = PauseVideo | PlayVideo

  /** `togglePlayPause`'s choice: pause a playing video, play one in any other state. */
  function ToggleCall(playerState: int): (c: PlaybackCall)
    ensures c == PauseVideo <==> playerState == Playing
  {
    if playerState == Playing then PauseVideo else PlayVideo
  }

  /** The embedded player as the controls see it: whether it exists, whether it
      reported ready, the duration it reported, its position and its state code. */
  class VideoPlayer {
    var hasPlayer: bool
    var ready: bool
    var duration: nat
    var position: nat
    var playerState: int

    constructor ()
      ensures !hasPlayer && !ready && duration == 0 && position == 0
    {
      hasPlayer, ready, duration, position, playerState := false, false, 0, 0, -1;
    }

    /** The player's ready event. */
    method OnReady(reportedDuration: nat)
      modifies this
      ensures hasPlayer && ready && duration == reportedDuration
      ensures position == old(position) && playerState == old(playerState)
    {
      hasPlayer, ready, duration := true, true, reportedDuration;
    }

    /** `seekForward`; `reported` is the action passed to `onVideoAction`. */
    method SeekForward() returns (reported: Option<VideoAction>)
      modifies this
      ensures !(old(hasPlayer) && old(ready)) ==> unchanged(this) && reported == None
      ensures old(hasPlayer) && old(ready) ==>
        position == ForwardTarget(old(position), duration) && reported == Some(Forward)
        && hasPlayer && ready && duration == old(duration) && playerState == old(playerState)
    {
      if !hasPlayer || !ready {
        return None;
      }
      position := ForwardTarget(position, duration);
      reported := Some(Forward);
    }

    /** `seekBackward`. */
    method SeekBackward() returns (reported: Option<VideoAction>)
      modifies this
      ensures !(old(hasPlayer) && old(ready)) ==> unchanged(this) && reported == None
      ensures old(hasPlayer) && old(ready) ==>
        position == BackwardTarget(old(position)) && reported == Some(Backward)
        && hasPlayer && ready && duration == old(duration) && playerState == old(playerState)
    {
      if !hasPlayer || !ready {
        return None;
      }
      position := BackwardTarget(position);
      reported := Some(Backward);
    }

    /** `togglePlayPause`: the call it makes on the player (the player's state
      afterwards is the player's business), and the action it reports. */
    method TogglePlayPause() returns (call: Option<PlaybackCall>, reported: Option<VideoAction>)
      ensures !(hasPlayer && ready) ==> call == None && reported == None
      ensures hasPlayer && ready ==> call == Some(ToggleCall(playerState)) && reported == Some(PlayPause)
    {
      if !hasPlayer || !ready {
        return None, None;
      }
      if playerState == Playing {
        call := Some(PauseVideo);
      } else {
        call := Some(PlayVideo);
      }
      reported := Some(PlayPause);
    }
  }

  // ---------------------------------------------------------------------------
  // The m:ss formatter

  predicate IsDigit(c: char)
  {
    '0' <= c <= '9'
  }

  predicate AllDigits(s: string)
  {
    forall i :: 0 <= i < |s| ==> IsDigit(s[i])
  }

  function DigitChar(d: nat): (c: char)
    requires d < 10
    ensures IsDigit(c)
  {
    ('0' as int + d) as char
  }

  function DigitValue(c: char): (d: nat)
    requires IsDigit(c)
    ensures d < 10
  {
    c as int - '0' as int
  }

  /** `n.toString()` for a whole number. */
  function NatToString(n: nat): (s: string)
    ensures |s| >= 1 && AllDigits(s)
    ensures n < 10 ==> |s| == 1
    ensures 10 <= n < 100 ==> |s| == 2
    decreases n
  {
    if n < 10 then [DigitChar(n)] else NatToString(n / 10) + [DigitChar(n % 10)]
  }

  /** The number a string of decimal digits denotes. */
  function DigitsValue(s: string): nat
    requires AllDigits(s)
    decreases |s|
  {
    if |s| == 0 then 0 else DigitsValue(s[..|s| - 1]) * 10 + DigitValue(s[|s| - 1])
  }

  /** `padStart(2, '0')`. */
  function PadStart2(s: string): (p: string)
    ensures |p| == if |s| >= 2 then |s| else 2
    ensures AllDigits(s) ==> AllDigits(p)
  {
    if |s| >= 2 then s else seq(2 - |s|, _ => '0') + s
  }

  /** `formatTime`: whole minutes, a colon, and the seconds within the minute on two digits. */
  function FormatTime(t: nat): (text: string)
  {
    NatToString(t / 60) + ":" + PadStart2(NatToString(t % 60))
  }

  /** Position of the first colon, or the length when there is none. */
  function ColonIndex(s: string): (i: nat)
    ensures i <= |s|
    ensures i < |s| ==> s[i] == ':'
    ensures forall j :: 0 <= j < i ==> s[j] != ':'
    decreases |s|
  {
    if |s| == 0 then 0 else if s[0] == ':' then 0 else ColonIndex(s[1..]) + 1
  }

  /** Reads an m:ss text back into seconds. */
  function ParseTime(text: string): Option<nat>
  {
    var i := ColonIndex(text);
    if i == |text| then None
    else if AllDigits(text[..i]) && AllDigits(text[i + 1..]) then Some(DigitsValue(text[..i]) * 60 + DigitsValue(text[i + 1..]))
    else None
  }

  lemma {:induction false} DigitsValueOfNatToString(n: nat)
    ensures DigitsValue(NatToString(n)) == n
    decreases n
  {
    if n >= 10 {
      var s := NatToString(n);
      assert s[..|s| - 1] == NatToString(n / 10);
      DigitsValueOfNatToString(n / 10);
    }
  }

  lemma {:induction false} LeadingZeroIgnored(s: string)
    requires AllDigits(s)
    ensures DigitsValue("0" + s) == DigitsValue(s)
    decreases |s|
  {
    if |s| > 0 {
      assert ("0" + s)[..|"0" + s| - 1] == "0" + s[..|s| - 1];
      LeadingZeroIgnored(s[..|s| - 1]);
    }
  }

  lemma {:induction false} ColonAfterDigits(m: string, r: string)
    requires AllDigits(m)
    ensures ColonIndex(m + ":" + r) == |m|
    decreases |m|
  {
    if |m| > 0 {
      assert (m + ":" + r)[1..] == m[1..] + ":" + r;
      ColonAfterDigits(m[1..], r);
    }
  }

  /** The formatter loses nothing: the minutes and the padded seconds read back
      as the time, the seconds field has two digits denoting a value below 60. */
  lemma {:induction false} FormatTimeRoundTrip(t: nat)
    ensures ParseTime(FormatTime(t)) == Some(t)
    ensures var i := ColonIndex(FormatTime(t));
      && i < |FormatTime(t)| && |FormatTime(t)[i + 1..]| == 2
      && DigitsValue(FormatTime(t)[..i]) == t / 60
      && DigitsValue(FormatTime(t)[i + 1..]) == t % 60 < 60
  {
    var m, sec := NatToString(t / 60), NatToString(t % 60);
    var p := PadStart2(sec);
    var text := FormatTime(t);
    assert text == m + ":" + p;
    ColonAfterDigits(m, p);
    assert text[..|m|] == m;
    assert text[|m| + 1..] == p;
    DigitsValueOfNatToString(t / 60);
    DigitsValueOfNatToString(t % 60);
    if |sec| < 2 {
      assert p == "0" + sec;
      LeadingZeroIgnored(sec);
    }
  }

  /** Distinct times print differently. */
  lemma FormatTimeInjective(t1: nat, t2: nat)
    requires FormatTime(t1) == FormatTime(t2)
    ensures t1 == t2
  {
    FormatTimeRoundTrip(t1);
    FormatTimeRoundTrip(t2);
  }

  // ---------------------------------------------------------------------------
  // The gesture controller

  /** An action is applied only above this confidence (strictly). */
  const ConfidenceThreshold: int := 70
  const ActionCooldownMs: nat := 2000
  const LastActionMs: nat := 3000

  /** `handleVideoAction`'s message for an action (a translation key). */
  function ActionMessage(a: VideoAction): string
  {
    match a
    case Forward => "productShowcase.videoControl.actions.forward"
    case Backward => "productShowcase.videoControl.actions.backward"
    case PlayPause => "productShowcase.videoControl.actions.playPause"
  }

  /** The controller effect's gate and switch: the action to apply for the
      current gesture, or none. */
  function Decide(gesture: Option<GestureResult>, isActive: bool, cooldown: bool): Option<VideoAction>
  {
    if gesture.None? || !isActive || cooldown then None
    else
      match ActionForLabel(gesture.value.gesture)
      case None => None
      case Some(a) => if gesture.value.confidence > ConfidenceThreshold then Some(a) else None
  }

  /** Both directions of the gate: an action is applied exactly when there is a
      gesture, the demo is active, no cooldown runs, the label is one of the
      three and the confidence is strictly above 70. */
  lemma DecideExactly(gesture: Option<GestureResult>, isActive: bool, cooldown: bool, a: VideoAction)
    ensures Decide(gesture, isActive, cooldown) == Some(a) <==>
      && gesture.Some? && isActive && !cooldown
      && ActionForLabel(gesture.value.gesture) == Some(a)
      && gesture.value.confidence > ConfidenceThreshold
  {
  }

  /** The threshold is strict: 70 % does nothing, 71 % acts. */
  lemma ThresholdIsStrict(gesture: string, handedness: string)
    requires ActionForLabel(gesture).Some?
    ensures Decide(Some(GestureResult(gesture, 70, handedness)), true, false).None?
    ensures Decide(Some(GestureResult(gesture, 71, handedness)), true, false) == ActionForLabel(gesture)
  {
  }

  /** The controller's state: the cooldown with its clearing time, and the
      last-action message with its clearing time. */
  datatype ControlState = ControlState(cooldown: bool, cooldownClearAt: int, lastAction: Option<string>, lastActionClearAt: int)

  const Idle := ControlState(false, 0, None, 0)

  /** What reaches the controller: a run of its effect (with the gesture and
      the `isActive` prop it sees), or only the passing of time. */
  datatype ControlEvent = EffectRun(at: int, gesture: Option<GestureResult>, isActive: bool) | Tick(at: int)

  /** The timers due by `now` fire. */
  function AdvanceControl(s: ControlState, now: int): (r: ControlState)
    ensures r.cooldown ==> s.cooldown && now < s.cooldownClearAt
    ensures r.lastAction.Some? ==> r.lastAction == s.lastAction && now < s.lastActionClearAt
  {
    var s1 := if s.cooldown && s.cooldownClearAt <= now then s.(cooldown := false) else s;
    if s1.lastAction.Some? && s1.lastActionClearAt <= now then s1.(lastAction := None) else s1
  }

  /** `handleVideoAction`: show the message, to be cleared 3000 ms later. */
  function ShowAction(s: ControlState, a: VideoAction, now: int): ControlState
  {
    s.(lastAction := Some(ActionMessage(a)), lastActionClearAt := now + LastActionMs)
  }

  /** One event: let the due timers fire, then run the effect. An applied action
      shows its message and starts the 2000 ms cooldown. */
  function ControlStep(s: ControlState, e: ControlEvent): (ControlState, Option<VideoAction>)
  {
    var s1 := AdvanceControl(s, e.at);
    match e
    case Tick(_) => (s1, None)
    case EffectRun(t, gesture, isActive) =>
      match Decide(gesture, isActive, s1.cooldown)
      case None => (s1, None)
      case Some(a) => (ShowAction(s1, a, t).(cooldown := true, cooldownClearAt := t + ActionCooldownMs), Some(a))
  }

  /** The state after a sequence of events and the actions applied, in order. */
  function ControlRun(s: ControlState, events: seq<ControlEvent>): (ControlState, seq<VideoAction>)
    decreases |events|
  {
    if events == [] then (s, [])
    else
      var (s1, applied) := ControlStep(s, events[0]);
      var (s2, rest) := ControlRun(s1, events[1..]);
      (s2, (if applied.Some? then [applied.value] else []) + rest)
  }

  /** An applied action sets the cooldown until 2000 ms later and shows its message. */
  lemma AppliedActionStartsCooldown(s: ControlState, e: ControlEvent)
    requires ControlStep(s, e).1.Some?
    ensures var (s1, a) := ControlStep(s, e);
      && e.EffectRun? && s1.cooldown && s1.cooldownClearAt == e.at + ActionCooldownMs
      && s1.lastAction == Some(ActionMessage(a.value)) && s1.lastActionClearAt == e.at + LastActionMs
  {
  }

  /** The cooldown: no action at all before it has been cleared, whatever gestures arrive. */
  lemma {:induction false} NoActionDuringCooldown(s: ControlState, events: seq<ControlEvent>)
    requires s.cooldown
    requires forall i :: 0 <= i < |events| ==> events[i].at < s.cooldownClearAt
    ensures ControlRun(s, events).1 == []
    ensures ControlRun(s, events).0.cooldown && ControlRun(s, events).0.cooldownClearAt == s.cooldownClearAt
    decreases |events|
  {
    if events != [] {
      var (s1, applied) := ControlStep(s, events[0]);
      assert s1.cooldown && s1.cooldownClearAt == s.cooldownClearAt && applied.None?;
      assert forall i :: 0 <= i < |events[1..]| ==> events[1..][i].at < s1.cooldownClearAt by {
        forall i | 0 <= i < |events[1..]| ensures events[1..][i].at < s1.cooldownClearAt {
          assert events[1..][i] == events[i + 1];
        }
      }
      NoActionDuringCooldown(s1, events[1..]);
    }
  }

  /** Once the cooldown has been cleared a qualifying gesture acts again: a
      thumb held up keeps seeking, one step every 2000 ms. */
  lemma ActsAgainAfterCooldown(s: ControlState, t: int, gesture: GestureResult)
    requires s.cooldown && t >= s.cooldownClearAt
    requires ActionForLabel(gesture.gesture).Some? && gesture.confidence > ConfidenceThreshold
    ensures ControlStep(s, EffectRun(t, Some(gesture), true)).1 == ActionForLabel(gesture.gesture)
  {
  }

  /** The message of the latest action stays up for the full 3000 ms: for
      events in time order after it was shown, until its clearing time it is
      shown, and only a newer action can replace it. */
  lemma {:induction false} LastActionShownForItsSpan(s: ControlState, events: seq<ControlEvent>)
    requires s.lastAction.Some?
    requires forall i, j :: 0 <= i < j < |events| ==> events[i].at <= events[j].at
    requires forall i :: 0 <= i < |events| ==> s.lastActionClearAt - LastActionMs <= events[i].at < s.lastActionClearAt
    ensures ControlRun(s, events).0.lastAction.Some?
    ensures ControlRun(s, events).0.lastActionClearAt >= s.lastActionClearAt
    ensures ControlRun(s, events).1 == [] ==> ControlRun(s, events).0.lastAction == s.lastAction
    decreases |events|
  {
    if events != [] {
      var (s1, applied) := ControlStep(s, events[0]);
      assert s1.lastAction.Some? && s1.lastActionClearAt >= s.lastActionClearAt;
      assert applied.None? ==> s1.lastAction == s.lastAction;
      var rest := events[1..];
      assert forall i :: 0 <= i < |rest| ==> s1.lastActionClearAt - LastActionMs <= rest[i].at < s1.lastActionClearAt by {
        forall i | 0 <= i < |rest| ensures s1.lastActionClearAt - LastActionMs <= rest[i].at < s1.lastActionClearAt {
          assert rest[i] == events[i + 1];
          assert events[0].at <= events[i + 1].at;
        }
      }
      assert forall i, j :: 0 <= i < j < |rest| ==> rest[i].at <= rest[j].at by {
        forall i, j | 0 <= i < j < |rest| ensures rest[i].at <= rest[j].at {
          assert rest[i] == events[i + 1] && rest[j] == events[j + 1];
        }
      }
      LastActionShownForItsSpan(s1, rest);
    }
  }

  /** End to end: a frame whose first gesture is the model's thumb-up category
      above 70 %, once published, makes an active, idle controller seek forward. */
  lemma ThumbUpSeeksForward(s: RecognizerState, canvas: Dims, input: TickInput, t: int)
    requires TickStep(s, canvas, input).report.invokedModel
    requires input.recognition.Recognized?
    requires var r := input.recognition.results;
      && (|r.landmarks| == 0 || |r.landmarks[0]| >= FingerStates.LandmarksPerHand)
      && |r.gestures| > 0 && |r.handednesses| > 0 && |r.gestures[0]| > 0 && |r.handednesses[0]| > 0
      && r.gestures[0][0].categoryName == "Thumb_Up" && r.gestures[0][0].score > ConfidenceThreshold
    ensures ControlStep(Idle, EffectRun(t, TickStep(s, canvas, input).state.currentGesture, true)).1 == Some(Forward)
  {
    TickPublishesFrame(s, canvas, input);
    CategoryToAction("Thumb_Up");
  }

  // ---------------------------------------------------------------------------
  // The last-action message as written: every call of `handleVideoAction`
  // starts its own 3000 ms clearing timer and none is ever cancelled, so the
  // timer of an earlier action clears the message of a later one.

  /** The state with every pending clearing time of the message. */
  datatype ControlStateAsWritten = ControlStateAsWritten(cooldown: bool, cooldownClearAt: int, lastAction: Option<string>, pendingClears: seq<int>)

  function AdvanceAsWritten(s: ControlStateAsWritten, now: int): ControlStateAsWritten
  {
    var cooldown := s.cooldown && now < s.cooldownClearAt;
    if exists i | 0 <= i < |s.pendingClears| :: s.pendingClears[i] <= now then
      s.(cooldown := cooldown, lastAction := None, pendingClears := Later(s.pendingClears, now))
    else s.(cooldown := cooldown)
  }

  /** The clearing times still to come after `now`. */
  function Later(clears: seq<int>, now: int): (r: seq<int>)
    ensures forall i :: 0 <= i < |r| ==> r[i] > now
    decreases |clears|
  {
    if clears == [] then [] else (if clears[0] > now then [clears[0]] else []) + Later(clears[1..], now)
  }

  function ControlStepAsWritten(s: ControlStateAsWritten, e: ControlEvent): (ControlStateAsWritten, Option<VideoAction>)
  {
    var s1 := AdvanceAsWritten(s, e.at);
    match e
    case Tick(_) => (s1, None)
    case EffectRun(t, gesture, isActive) =>
      match Decide(gesture, isActive, s1.cooldown)
      case None => (s1, None)
      case Some(a) =>
        (s1.(lastAction := Some(ActionMessage(a)), pendingClears := s1.pendingClears + [t + LastActionMs],
             cooldown := true, cooldownClearAt := t + ActionCooldownMs), Some(a))
  }

  /** As written, a thumb held up seeks at 0 ms and again at 2000 ms, and the
      message of the second seek is gone at 3000 ms, after 1000 ms instead of
      3000 ms; the corrected controller still shows it then. */
  lemma SecondMessageClearedEarlyAsWritten(g: GestureResult)
    requires g.gesture == ForwardLabel && g.confidence > ConfidenceThreshold
    ensures var s1 := ControlStepAsWritten(ControlStateAsWritten(false, 0, None, []), EffectRun(0, Some(g), true));
      var s2 := ControlStepAsWritten(s1.0, EffectRun(2000, Some(g), true));
      var s3 := ControlStepAsWritten(s2.0, Tick(3000));
      && s1.1 == Some(Forward) && s2.1 == Some(Forward)
      && s3.0.lastAction.None?
    ensures var c1 := ControlStep(Idle, EffectRun(0, Some(g), true));
      var c2 := ControlStep(c1.0, EffectRun(2000, Some(g), true));
      var c3 := ControlStep(c2.0, Tick(3000));
      && c1.1 == Some(Forward) && c2.1 == Some(Forward)
      && c3.0.lastAction == Some(ActionMessage(Forward))
  {
    assert ActionForLabel(g.gesture) == Some(Forward);
    var s0 := ControlStateAsWritten(false, 0, None, []);
    assert AdvanceAsWritten(s0, 0) == s0;
    var s1 := ControlStepAsWritten(s0, EffectRun(0, Some(g), true));
    assert s1.0 == ControlStateAsWritten(true, 2000, Some(ActionMessage(Forward)), [3000]);
    assert AdvanceAsWritten(s1.0, 2000) == ControlStateAsWritten(false, 2000, Some(ActionMessage(Forward)), [3000]);
    var s2 := ControlStepAsWritten(s1.0, EffectRun(2000, Some(g), true));
    assert s2.0 == ControlStateAsWritten(true, 4000, Some(ActionMessage(Forward)), [3000, 5000]);
    assert s2.0.pendingClears[0] <= 3000;
    var c1 := ControlStep(Idle, EffectRun(0, Some(g), true));
    assert c1.0 == ControlState(true, 2000, Some(ActionMessage(Forward)), 3000);
    var c2 := ControlStep(c1.0, EffectRun(2000, Some(g), true));
    assert c2.0 == ControlState(true, 4000, Some(ActionMessage(Forward)), 5000);
    assert ControlStep(c2.0, Tick(3000)).0.lastAction == Some(ActionMessage(Forward));

    assert s1.1 == Some(Forward);
    assert s2.1 == Some(Forward);
  }

  // ---------------------------------------------------------------------------
  // The imperative controller

  /** The controller half of the video-control demo: its cooldown and message
      state with their timers, and the player, which exposes its controls once it exists. */
  class Controller {
    var cooldown: bool
    var cooldownClearAt: int
    var lastAction: Option<string>
    var lastActionClearAt: int
    const player: VideoPlayer?

    function State(): ControlState
      reads this
    {
      ControlState(cooldown, cooldownClearAt, lastAction, lastActionClearAt)
    }

    constructor (player: VideoPlayer?)
      ensures State() == Idle && this.player == player
    {
      cooldown, cooldownClearAt, lastAction, lastActionClearAt := false, 0, None, 0;
      this.player := player;
    }

    /** `handleVideoAction`, also handed to the player as `onVideoAction`. */
    method HandleVideoAction(a: VideoAction, now: int)
      modifies this
      ensures State() == ShowAction(old(State()), a, now)
    {
      lastAction := Some(ActionMessage(a));
      lastActionClearAt := now + LastActionMs;
    }

    /** The clock reaches `now`: the due timers fire. */
    method AdvanceTimers(now: int)
      modifies this
      ensures State() == AdvanceControl(old(State()), now)
    {
      if cooldown && cooldownClearAt <= now {
        cooldown := false;
      }
      if lastAction.Some? && lastActionClearAt <= now {
        lastAction := None;
      }
    }

    /** The control of `window.videoControls` that an action calls; `reported`
      is what the player passes back to `onVideoAction`. */
    method SendToPlayer(a: VideoAction) returns (call: Option<PlaybackCall>, reported: Option<VideoAction>)
      requires player != null
      modifies player
      ensures reported == (if old(player.hasPlayer && player.ready) then Some(a) else None)
      ensures a == Forward && old(player.hasPlayer && player.ready) ==>
        player.position == ForwardTarget(old(player.position), player.duration)
      ensures a == Backward && old(player.hasPlayer && player.ready) ==>
        player.position == BackwardTarget(old(player.position))
      ensures a == PlayPause && old(player.hasPlayer && player.ready) ==>
        call == Some(ToggleCall(player.playerState))
      ensures !a.PlayPause? || !old(player.hasPlayer && player.ready) ==> call == None
      ensures !old(player.hasPlayer && player.ready) ==> unchanged(player)
    {
      call := None;
      match a {
        case Forward => reported := player.SeekForward();
        case Backward => reported := player.SeekBackward();
        case PlayPause => call, reported := player.TogglePlayPause();
      }
    }

    /** One event. An applied action is sent to the player's control when the
      player exists (the player reports it back through `onVideoAction` when it
      is ready); the message and the cooldown are set either way. */
    method OnEvent(e: ControlEvent) returns (applied: Option<VideoAction>, call: Option<PlaybackCall>)
      modifies this, if player == null then {} else {player}
      ensures (State(), applied) == ControlStep(old(State()), e)
      ensures player != null && applied == Some(Forward) && old(player.hasPlayer && player.ready) ==>
        player.position == ForwardTarget(old(player.position), player.duration)
      ensures player != null && applied == Some(Backward) && old(player.hasPlayer && player.ready) ==>
        player.position == BackwardTarget(old(player.position))
      ensures player != null && applied == Some(PlayPause) && old(player.hasPlayer && player.ready) ==>
        call == Some(ToggleCall(player.playerState))
      ensures player == null || applied.None? || !applied.value.PlayPause? || !old(player.hasPlayer && player.ready) ==> call == None
      ensures player != null && (applied.None? || !old(player.hasPlayer && player.ready)) ==> unchanged(player)
    {
      call := None;
      AdvanceTimers(e.at);
      applied := None;
      if e.EffectRun? {
        applied := Decide(e.gesture, e.isActive, cooldown);
        if applied.Some? {
          var a := applied.value;
          if player != null {
            var reported: Option<VideoAction>;
            call, reported := SendToPlayer(a);
            if reported.Some? {
              HandleVideoAction(reported.value, e.at);
            }
          }
          HandleVideoAction(a, e.at);
          cooldown := true;
          cooldownClearAt := e.at + ActionCooldownMs;
        }
      }
    }

  }
}
