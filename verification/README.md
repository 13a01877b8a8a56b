# Gesture-demo pipeline of the GestOS landing site, in Dafny

The GestOS landing site is a marketing page. Its product showcase contains
two live demos driven by the visitor's camera and a hand-gesture model. This
project models that pipeline and proves properties about it.

- **Finger states and the easter egg** (`FingerStates`). The hook reads the
  first detected hand's landmarks and derives a five-digit open/closed vector.
  It checks that vector against the one forbidden pattern, where only the
  middle finger is extended.
- **Labels and noise filters** (`GestureLabels`). These are the Spanish display
  labels of the eight model categories, the handedness label, and the two
  substring filters that keep browser-extension noise out of the console.
- **The recognizer hook** (`Recognizer`). It covers:
  - initialisation, run once, guarded by an in-flight flag, with the remote
    model tried before the bundled one, all raced against a 30 s timeout;
  - starting and stopping recognition;
  - the per-frame tick, which skips frozen frames, invokes the model, publishes
    or clears the gesture and finger vector, raises the easter-egg event, and
    absorbs per-frame errors.
- **The gesture-recognition demo** (`EasterEgg`, `CameraSession`). It covers:
  - the easter-egg dispatcher, with its 5 s cooldown and the 5 s
    auto-closing notification;
  - the camera session: start, stop and restart, the readiness polling that
    sizes the canvas and starts recognition, and the activation effect;
  - the error shown to the user.
- **The video-control demo** (`VideoControl`). Three labels drive the player:
  "Pulgar Arriba" seeks forward, "Pulgar Abajo" seeks backward, and "Te Amo"
  toggles playback. An action applies only strictly above 70 % confidence and
  outside a 2 s cooldown. A "last action" message shows for 3 s. The module
  also covers the clamped seeks, the play/pause toggle, and the `m:ss` time
  formatter.
- **The demo selector** (`Showcase`). There is a dock button per demo and a
  500 ms activation per demo with its own loading flag. At most one demo is
  active. The animated presence keeps one child mounted at a time, and holds
  a deactivated demo mounted, still active in its own eyes, through its
  500 ms exit.

Code that updates state step by step is modelled twice: as a pure state
datatype with step functions, which the lemmas are about, and as a class with
the same fields. Each class method's `ensures` ties the new state to the step
function applied to the old state: `Recognizer.Recognizer`,
`EasterEgg.Dispatcher`, `CameraSession.CameraDemo`,
`VideoControl.VideoPlayer`, `VideoControl.Controller` and
`Showcase.ProductShowcase`.

Things from outside the site are parameters of the operations:
- what the model returns for a frame, or the text of what it throws;
- what the video element reports;
- the scheduler's frame ids;
- the camera's answer;
- how long each loading step takes.

Timers are explicit. A pending timer is a flag plus the integer millisecond
at which it falls due. Every event first fires the timers due by its time.

## Model

| member | source | states |
|---|---|---|
| `FingerStates.FingersOf` | src/hooks/useGestureRecognizer.ts:62-86 | The open/closed rules for one hand: the thumb compares x coordinates, the other four fingers y coordinates. `ExtractionRules` states them digit by digit. |
| `FingerStates.Extract` | src/hooks/useGestureRecognizer.ts:55-89 | `detectFingerStates` as a value: no hand, the vector of the first hand, or the failure when a landmark the rules read is missing. `ExtractionRules` states when each case happens. |
| `FingerStates.DetectFingerStates` | src/hooks/useGestureRecognizer.ts:55-89 | The field-by-field loop over the tip and joint tables computes exactly the specification `Extract`: no hand, the vector of the first hand, or the failure raised when a landmark the rules read is missing. |
| `FingerStates.ExtractionRules` | src/hooks/useGestureRecognizer.ts:56-86 | There is no vector for an empty landmark list, and a vector exactly when the first hand has all 21 landmarks. The thumb is 1 iff tip 4 lies right of joint 3. Each other finger is 1 iff its tip (8, 12, 16, 20) lies above its joint (6, 10, 14, 18). |
| `FingerStates.DigitReadsOnlyItsLandmarks` | src/hooks/useGestureRecognizer.ts:62-86 | Each digit depends only on its own tip and joint, so the digits are independent. Handedness plays no part. |
| `FingerStates.OnlyFirstHandRead` | src/hooks/useGestureRecognizer.ts:56-58 | Hands after the first never change the result. |
| `FingerStates.OpenHandIsAllOnes` | src/hooks/useGestureRecognizer.ts:73-86 | A fully open hand gives 1 on every digit. |
| `FingerStates.Encode` | src/hooks/useGestureRecognizer.ts:10-16 | The five 0/1 fields read as a five-bit number below 32. |
| `FingerStates.DecodeEncode` | src/hooks/useGestureRecognizer.ts:10-16 | Decoding the five-bit reading gives back the vector. |
| `FingerStates.EncodeDecode` | src/hooks/useGestureRecognizer.ts:10-16 | Every number below 32 is the reading of exactly one vector. |
| `FingerStates.AllFingerStates` | src/hooks/useGestureRecognizer.ts:10-16 | Lists the 32 possible vectors exactly once each: every vector sits at its own five-bit reading, and the entry at k reads as k. |
| `FingerStates.IsEasterEgg` | src/hooks/useGestureRecognizer.ts:92-100 | `checkEasterEgg`: only the middle finger extended. `EasterEggExactlyOneOf32` states the vector it accepts. |
| `FingerStates.EasterEggExactlyOneOf32` | src/hooks/useGestureRecognizer.ts:92-100 | `checkEasterEgg` holds for exactly one of the 32 vectors, (0,0,1,0,0), and fails for the other 31. |
| `FingerStates.EasterEggFromLandmarks` | src/hooks/useGestureRecognizer.ts:73-100 | The easter egg restated on landmarks: the thumb tip is not right of its joint, the middle tip is above its joint, and the other three tips are not above theirs. |
| `GestureLabels.TranslateLabel` | src/hooks/useGestureRecognizer.ts:275 | A category in the table gets its Spanish label. Any other category is shown under its raw name, except `Object.prototype` names (see Left out). |
| `GestureLabels.TranslationsCoverAvailableGestures` | src/hooks/useGestureRecognizer.ts:31-52 | The translation table covers exactly the eight categories the model reports. |
| `GestureLabels.TranslationInjective` | src/hooks/useGestureRecognizer.ts:43-52 | Distinct categories get distinct labels. |
| `GestureLabels.HandednessLabel` | src/hooks/useGestureRecognizer.ts:277 | "Left" gives "Izquierda"; anything else gives "Derecha". |
| `GestureLabels.IsConsoleNoise` | src/hooks/useGestureRecognizer.ts:103-117 | The replacement `console.error` drops a message that contains any of its three phrases. `FiltersPassGenuineErrors` and `FrameFilterCoversChannelPhrases` relate it to the per-frame filter. |
| `GestureLabels.IsFrameNoise` | src/hooks/useGestureRecognizer.ts:283-288 | The per-frame handler does not log a message that contains either of its two phrases. `TickAbsorbsFrameError` states its use. |
| `GestureLabels.FrameFilterCoversChannelPhrases` | src/hooks/useGestureRecognizer.ts:103-117 | A message that the console filter drops for its first two phrases is also dropped by the per-frame filter. |
| `GestureLabels.FiltersPassGenuineErrors` | src/hooks/useGestureRecognizer.ts:283-288 | A message containing none of the phrases passes both filters. |
| `Recognizer.Settle` | src/hooks/useGestureRecognizer.ts:133-173 | The loading promise settles: resolver, then remote build, and the local build only after a remote failure. `RaceTriesRemoteFirst` states the order. |
| `Recognizer.Race` | src/hooks/useGestureRecognizer.ts:175-180 | `Promise.race` of loading against the 30 s timeout. `RaceBoundedByTimeout` states when each side wins. |
| `Recognizer.RaceTriesRemoteFirst` | src/hooks/useGestureRecognizer.ts:133-173 | Both orders of the fallback. A remote build that succeeds in time is used. When it fails, the bundled one is tried and used if it builds in time. When both fail in time, loading fails. The bundled model is never used unless the remote build failed. |
| `Recognizer.RaceBoundedByTimeout` | src/hooks/useGestureRecognizer.ts:175-180 | The race always ends. It is a timeout exactly when loading has not settled before 30000 ms, and a success carries the asset that loaded. |
| `Recognizer.InitBegin` | src/hooks/useGestureRecognizer.ts:120-128 | The guard and the first half of a call: a call while a load is in flight or after success returns without starting; otherwise it raises the in-flight flag and clears the error. `InitializeGuarded` states both cases. |
| `Recognizer.InitFinish` | src/hooks/useGestureRecognizer.ts:180-191 | The second half: a won race stores the recognizer and sets it initialised; any other outcome sets the fixed error text; the in-flight flag drops on every path. `InitializeOutcome` states it. |
| `Recognizer.InitializeStep` | src/hooks/useGestureRecognizer.ts:120-192 | One call of `initializeGestureRecognizer` as a value. `InitializeGuarded`, `InitializeOutcome` and `InitializeOnce` state its promises. |
| `Recognizer.InitializeGuarded` | src/hooks/useGestureRecognizer.ts:120-123 | A call while a load is in flight, or once the recognizer is initialised, changes nothing. |
| `Recognizer.InitializeOutcome` | src/hooks/useGestureRecognizer.ts:120-192 | A call that starts always lowers the in-flight flag and succeeds exactly when the race is won. On a failure or timeout it sets the error and leaves the hook uninitialised. |
| `Recognizer.InitializeOnce` | src/hooks/useGestureRecognizer.ts:120-123 | After a successful call, later calls are no-ops. |
| `Recognizer.StartStep` | src/hooks/useGestureRecognizer.ts:301-310 | `startRecognition` as a value: the error without a recognizer, otherwise recognition on and the first tick run. `StartWithoutRecognizerFails` and `StartWithRecognizerRuns` state both branches. |
| `Recognizer.StopStep` | src/hooks/useGestureRecognizer.ts:313-322 | Stopping leaves recognition off, both results null and no pending tick. Nothing else changes. |
| `Recognizer.TickStep` | src/hooks/useGestureRecognizer.ts:195-298 | One scheduled `processVideoFrame` as a value: state, canvas size and report. The `Tick` lemmas state what it promises. |
| `Recognizer.GestureOf` | src/hooks/useGestureRecognizer.ts:270-281 | The gesture published for a frame: the first classification of the first hand, translated, with its score and handedness label, or null when there is none. `TickPublishesFrame` states it. |
| `Recognizer.FrameStep` | src/hooks/useGestureRecognizer.ts:216-290 | The part of a tick past the time check: model call, fingers, easter egg, gesture, and the catch. `TickPublishesFrame`, `TickRaisesEasterEgg` and `TickAbsorbsFrameError` state it. |
| `Recognizer.TickInvokesModelOnlyOnNewFrames` | src/hooks/useGestureRecognizer.ts:195-224 | The model runs exactly when all of these hold: a recognizer exists, recognition is on, a context exists, the frame has a size, and the video time moved. The new time is then recorded and the canvas takes the frame's size. |
| `Recognizer.TickSkipsFrozenFrame` | src/hooks/useGestureRecognizer.ts:212-215 | On a frozen frame there is no model call, no redraw, no result change and no canvas change. The tick only reschedules. |
| `Recognizer.TickReschedulesWhileRecognizing` | src/hooks/useGestureRecognizer.ts:293-297 | A tick reschedules exactly while recognition is on, with a recognizer and a context, whatever the frame did. |
| `Recognizer.TickAbsorbsFrameError` | src/hooks/useGestureRecognizer.ts:283-290 | A frame on which the model throws changes neither published result. The error is logged unless it is extension noise. |
| `Recognizer.TickPublishesFrame` | src/hooks/useGestureRecognizer.ts:249-281 | A well-formed frame publishes the first hand's vector, or null when there is no hand. It also publishes the translated gesture with its score and handedness label, or null when there is no classification. |
| `Recognizer.TickRaisesEasterEgg` | src/hooks/useGestureRecognizer.ts:249-261 | The easter-egg event is raised exactly on processed frames showing the forbidden pattern, and it carries that vector. |
| `Recognizer.StartWithoutRecognizerFails` | src/hooks/useGestureRecognizer.ts:301-305 | Starting without a recognizer only sets the error. |
| `Recognizer.StartWithRecognizerRuns` | src/hooks/useGestureRecognizer.ts:301-310 | Starting with a recognizer turns recognition on, clears the error and schedules the loop. |
| `Recognizer.StopThenTickIsInert` | src/hooks/useGestureRecognizer.ts:313-322 | With the single pending tick this model keeps, a tick after a stop does nothing, and stopping twice is stopping once. This is the intended loop: the third Findings row shows the source keeping older chains alive. |
| `Recognizer.StartAsWritten` | src/hooks/useGestureRecognizer.ts:301-310 | `startRecognition` as written: the flag goes on, and a new chain of ticks starts only when the `processVideoFrame` closure it calls saw recognition on. |
| `Recognizer.TickChain` | src/hooks/useGestureRecognizer.ts:293-297 | A pending tick fires and schedules its successor, which becomes `animationIdRef`. |
| `Recognizer.StopLoop` | src/hooks/useGestureRecognizer.ts:313-322 | `stopRecognition` turns the flag off and cancels only the id stored last. No tick that stays pending is the cancelled one. |
| `Recognizer.StaleChainSurvivesStopAsWritten` | src/hooks/useGestureRecognizer.ts:293-322 | As written, two effect re-runs leave two chains pending. After the stop, one chain still ticks and schedules another tick while recognition is off. |
| `Recognizer.StartOneChain` | src/hooks/useGestureRecognizer.ts:313-322 | The corrected start: the new tick replaces any pending one. `SingleChainStopEndsLoop` states what it promises. |
| `Recognizer.SingleChainStopEndsLoop` | src/hooks/useGestureRecognizer.ts:313-322 | When a start replaces the pending tick, at most one tick is ever pending, and a stop leaves none. |
| `Recognizer.Recognizer.constructor` | src/hooks/useGestureRecognizer.ts:19-28 | The hook's initial state and refs, with the last video time at -1. |
| `Recognizer.Recognizer.BeginInitialize` | src/hooks/useGestureRecognizer.ts:120-128 | Entry of `initializeGestureRecognizer`: the guard, then the in-flight flag is raised and the error cleared. |
| `Recognizer.Recognizer.FinishInitialize` | src/hooks/useGestureRecognizer.ts:180-191 | Records the recognizer or the error, and lowers the in-flight flag on every path. |
| `Recognizer.Recognizer.Initialize` | src/hooks/useGestureRecognizer.ts:120-192 | One call of `initializeGestureRecognizer` that is not overlapped by another. |
| `Recognizer.Recognizer.ProcessVideoFrame` | src/hooks/useGestureRecognizer.ts:195-298 | The imperative tick computes exactly the specification `TickStep`: state, canvas size and report. |
| `Recognizer.Recognizer.StartRecognition` | src/hooks/useGestureRecognizer.ts:301-310 | Computes exactly `StartStep`. |
| `Recognizer.Recognizer.StopRecognition` | src/hooks/useGestureRecognizer.ts:313-322 | Computes exactly `StopStep`. |
| `EasterEgg.Handle` | src/components/GestureRecognition.tsx:205-215 | `handleEasterEgg` as a value. `HandleFires`, `HandleDuringCooldown` and `NoSecondNotificationWithinCooldown` state the rate limit. |
| `EasterEgg.Advance` | src/components/GestureRecognition.tsx:211-214 | The passing of time: the 5000 ms cooldown timer of lines 211-214 and the notification's closing timer of lines 142-147 fire when due. The cooldown or the notification is still set afterwards only if it was set and not yet due. `CooldownIndependentOfNotification` and `NotificationClosesOnTime` state it over runs. |
| `EasterEgg.Step` | src/components/GestureRecognition.tsx:218-229 | One event reaching the component, with the intended closing timer. `NotificationClosesOnTime` states it. |
| `EasterEgg.HandleFires` | src/components/GestureRecognition.tsx:205-215 | Without a cooldown, the handler fires, sets the cooldown until 5000 ms later, and shows the notification. |
| `EasterEgg.HandleDuringCooldown` | src/components/GestureRecognition.tsx:205-206 | While the cooldown is set, the handler changes nothing. |
| `EasterEgg.NoSecondNotificationWithinCooldown` | src/components/GestureRecognition.tsx:205-215 | However many frames match, no event before the cooldown clears raises a second notification. |
| `EasterEgg.FiresAgainAfterCooldown` | src/components/GestureRecognition.tsx:211-214 | A match at or after the cooldown's clearing time fires again. |
| `EasterEgg.CooldownIndependentOfNotification` | src/components/GestureRecognition.tsx:211-214 | The cooldown clears at its own time, whatever the notification is doing. |
| `EasterEgg.NotificationClosesOnTime` | src/components/GestureRecognition.tsx:142-147 | The notification stays up until its closing time, 5000 ms after it was shown, and closes then, whatever happens in between. |
| `EasterEgg.StepAsWritten` | src/components/GestureRecognition.tsx:142-147 | One event as written: a re-render while the notification is shown restarts its 5000 ms closing timer. |
| `EasterEgg.NotificationOutlivesDeadlineAsWritten` | src/components/GestureRecognition.tsx:413-416 | As written, a re-render at 4000 ms keeps the notification shown at 0 ms up at 5000 ms. The corrected timer has closed it by then. |
| `EasterEgg.Dispatcher.constructor` | src/components/GestureRecognition.tsx:190-191 | No cooldown and no notification at mount. |
| `EasterEgg.Dispatcher.AdvanceClock` | src/components/GestureRecognition.tsx:211-214 | The cooldown and closing timers fire when due. |
| `EasterEgg.Dispatcher.HandleEasterEgg` | src/components/GestureRecognition.tsx:205-215 | Computes exactly `Handle`. |
| `EasterEgg.Dispatcher.OnEvent` | src/components/GestureRecognition.tsx:218-229 | Each event reaching the component computes exactly `Step`. |
| `CameraSession.FirstReadyCheck` | src/components/GestureRecognition.tsx:258-281 | Polling ends at the first check that sees a width and a height above 0, and no earlier check saw one. It finds none exactly when no check sees a frame size. |
| `CameraSession.CheckTime` | src/components/GestureRecognition.tsx:265-279 | The first check runs 100 ms after the ready event. Each repetition runs 200 ms after the previous one. |
| `CameraSession.ReconcileDecision` | src/components/GestureRecognition.tsx:316-330 | Active with an initialised recognizer: open the camera when not streaming, otherwise restart recognition (with both elements mounted). Any other case: stop recognition, and stop the camera exactly when it is streaming. |
| `CameraSession.DisplayError` | src/components/GestureRecognition.tsx:345 | Shows the camera error when it is non-empty, and the recognizer's error otherwise. |
| `CameraSession.DisplayErrorShowsAnyError` | src/components/GestureRecognition.tsx:345 | An error is shown exactly when either one is non-empty, and the camera error wins. |
| `CameraSession.CameraDemo.ForGestureDemo` | src/components/GestureRecognition.tsx:183-191 | The gesture demo, asking for 1280x720 (at most 1920x1080) user-facing video. It starts not streaming, not loading, with no error; the recognizer and the dispatcher start in their initial states. |
| `CameraSession.CameraDemo.ForVideoDemo` | src/components/VideoGestureControl.tsx:431-444 | The camera half of the video demo, asking for 640x480 (at most 1280x720) user-facing video, in the same initial state. |
| `CameraSession.CameraDemo.MountInitialize` | src/components/GestureRecognition.tsx:232-236 | The mount effect initialises an uninitialised recognizer. |
| `CameraSession.CameraDemo.BeginStartCamera` | src/components/GestureRecognition.tsx:238-251 | Without both elements nothing changes and no camera is requested. Otherwise the spinner shows, the camera error is cleared, and the camera is requested with the demo's constraints. |
| `CameraSession.CameraDemo.FinishStartCamera` | src/components/GestureRecognition.tsx:244-294 | A granted stream is attached with all its tracks live, when the video element is still there. A refusal sets the camera error and attaches no stream. The spinner goes off on every path. |
| `CameraSession.CameraDemo.StartCamera` | src/components/GestureRecognition.tsx:238-295 | Both halves of `startCamera`, with the guard on missing elements. A granted stream is attached fresh, with the reply's number of tracks, all live, and no error. A refusal sets the camera error. |
| `CameraSession.CameraDemo.StopCamera` | src/components/GestureRecognition.tsx:297-307 | If a stream is attached, every one of its tracks is stopped and the stream is detached. Recognition stops and streaming goes off in any case. |
| `CameraSession.CameraDemo.RestartCamera` | src/components/GestureRecognition.tsx:309-313 | Stop, then start 500 ms later. The old tracks are all stopped. A new stream is fresh, with the reply's number of tracks, all live, as after a fresh start. |
| `CameraSession.CameraDemo.HandleVideoReady` | src/components/GestureRecognition.tsx:258-286 | With both elements and an initialised recognizer, the canvas takes the size of the first check that sees a frame, at that check's `CheckTime`. Recognition then starts, exactly when the demo is active. Otherwise nothing changes. |
| `CameraSession.CameraDemo.Reconcile` | src/components/GestureRecognition.tsx:316-330 | Performs each decision of `ReconcileDecision`. Deactivation leaves no stream, no live track and no recognition. |
| `CameraSession.CameraDemo.RunFrame` | src/components/GestureRecognition.tsx:218-229 | In the gesture demo, which listens for the event, a tick's easter-egg event reaches the dispatcher at the tick's time. The video demo registers no listener, and its dispatcher is left unchanged. |
| `VideoControl.ActionForLabel` | src/components/VideoGestureControl.tsx:385-397 | The effect's `switch` from display label to action. `LabelsDistinct`, `CategoryToAction` and `DecideExactly` state it. |
| `VideoControl.ControlFor` | src/components/VideoGestureControl.tsx:36-47 | `getActionForGesture`, the gesture panel's lookup. `PanelMatchesController` relates it to the controller. |
| `VideoControl.PanelMatchesController` | src/components/VideoGestureControl.tsx:36-47 | The gesture panel describes a control for exactly the labels that trigger one, and it is control 0, 1 or 2 for forward, backward and play/pause. |
| `VideoControl.LabelsDistinct` | src/components/VideoGestureControl.tsx:385-397 | The three labels are distinct: two labels that trigger the same action are the same label. |
| `VideoControl.CategoryToAction` | src/components/VideoGestureControl.tsx:385-397 | Through the translation table, `Thumb_Up` and only it seeks forward, `Thumb_Down` seeks backward and `ILoveYou` toggles playback; a raw name carrying the label does too. No other model category acts. |
| `VideoControl.ForwardTarget` | src/components/VideoGestureControl.tsx:211 | `Math.min(currentTime + 10, duration)`. `ForwardTargetBounds` states its bounds. |
| `VideoControl.BackwardTarget` | src/components/VideoGestureControl.tsx:225 | `Math.max(currentTime - 10, 0)`. `BackwardTargetBounds` states its bounds. |
| `VideoControl.ForwardTargetBounds` | src/components/VideoGestureControl.tsx:206-213 | A forward seek goes to min(position + 10, duration): never past the end, and never backwards from inside the video. |
| `VideoControl.BackwardTargetBounds` | src/components/VideoGestureControl.tsx:220-226 | A backward seek goes to max(position - 10, 0) and is never negative. |
| `VideoControl.SeeksUndoEachOther` | src/components/VideoGestureControl.tsx:206-226 | Away from both ends, the two seeks undo each other. |
| `VideoControl.ToggleCall` | src/components/VideoGestureControl.tsx:234-246 | Pauses exactly when the player state is PLAYING. |
| `VideoControl.VideoPlayer.constructor` | src/components/VideoGestureControl.tsx:124-128 | No player, not ready, duration 0. |
| `VideoControl.VideoPlayer.OnReady` | src/components/VideoGestureControl.tsx:170-174 | Ready, with the reported duration. |
| `VideoControl.VideoPlayer.SeekForward` | src/components/VideoGestureControl.tsx:206-218 | A no-op until the player is ready. Then it seeks to the forward target and reports `forward`. |
| `VideoControl.VideoPlayer.SeekBackward` | src/components/VideoGestureControl.tsx:220-232 | A no-op until the player is ready. Then it seeks to the backward target and reports `backward`. |
| `VideoControl.VideoPlayer.TogglePlayPause` | src/components/VideoGestureControl.tsx:234-250 | A no-op until the player is ready. Then it pauses a playing video, plays otherwise, and reports `play_pause`. |
| `VideoControl.NatToString` | src/components/VideoGestureControl.tsx:264 | Decimal digits, one of them below 10 and two below 100. |
| `VideoControl.FormatTime` | src/components/VideoGestureControl.tsx:261-265 | `formatTime` on whole seconds. `FormatTimeRoundTrip` and `FormatTimeInjective` state what it prints. |
| `VideoControl.FormatTimeRoundTrip` | src/components/VideoGestureControl.tsx:261-265 | `m:ss` reads back as the time. The minutes are t / 60, and the seconds field has two digits denoting t % 60 < 60. |
| `VideoControl.FormatTimeInjective` | src/components/VideoGestureControl.tsx:261-265 | Distinct times print differently. |
| `VideoControl.Decide` | src/components/VideoGestureControl.tsx:382-399 | The effect's gate. `DecideExactly` states it as an iff. |
| `VideoControl.AdvanceControl` | src/components/VideoGestureControl.tsx:376-420 | The passing of time: the 3000 ms message timer and the 2000 ms cooldown timer fire when due. The cooldown or the message is still set afterwards only if it was set and not yet due. `LastActionShownForItsSpan` and `NoActionDuringCooldown` state it over runs. |
| `VideoControl.ShowAction` | src/components/VideoGestureControl.tsx:367-378 | `handleVideoAction`: show the action's message, to be cleared 3000 ms later. `AppliedActionStartsCooldown` states it. |
| `VideoControl.ControlStep` | src/components/VideoGestureControl.tsx:381-422 | One event of the controller, with the intended clearing timer. `LastActionShownForItsSpan` and the cooldown lemmas state it. |
| `VideoControl.DecideExactly` | src/components/VideoGestureControl.tsx:382-399 | An action applies exactly when all of these hold: there is a gesture, the demo is active, no cooldown runs, the label is one of the three, and the confidence is strictly above 70. |
| `VideoControl.ThresholdIsStrict` | src/components/VideoGestureControl.tsx:399 | 70 % does nothing; 71 % acts. |
| `VideoControl.AppliedActionStartsCooldown` | src/components/VideoGestureControl.tsx:415-419 | An applied action shows its message until 3000 ms later and sets the cooldown until 2000 ms later. |
| `VideoControl.NoActionDuringCooldown` | src/components/VideoGestureControl.tsx:381-422 | No action at all before the cooldown clears, whatever gestures arrive. |
| `VideoControl.ActsAgainAfterCooldown` | src/components/VideoGestureControl.tsx:418-422 | Once the cooldown clears, a qualifying gesture acts again. |
| `VideoControl.LastActionShownForItsSpan` | src/components/VideoGestureControl.tsx:367-378 | The latest action's message stays up until its clearing time; only a newer action replaces it. |
| `VideoControl.ThumbUpSeeksForward` | src/components/VideoGestureControl.tsx:385-399 | Model to player: a frame whose first gesture is `Thumb_Up` above 70 % makes an active, idle controller seek forward once it is published. |
| `VideoControl.ControlStepAsWritten` | src/components/VideoGestureControl.tsx:367-378 | One event as written: every action adds a 3000 ms clearing timer that nothing cancels, and any timer that falls due clears the message. |
| `VideoControl.SecondMessageClearedEarlyAsWritten` | src/components/VideoGestureControl.tsx:376-377 | As written, with a thumb held up, the message of the seek at 2000 ms is cleared at 3000 ms by the first seek's timer. The corrected controller still shows it then. |
| `VideoControl.Controller.constructor` | src/components/VideoGestureControl.tsx:351-352 | No message and no cooldown at mount. |
| `VideoControl.Controller.HandleVideoAction` | src/components/VideoGestureControl.tsx:367-378 | Shows the action's message, to be cleared 3000 ms later. |
| `VideoControl.Controller.SendToPlayer` | src/components/VideoGestureControl.tsx:401-413 | The player's control for the action runs. A ready player reports the action back; a player that is not ready stays unchanged and reports nothing. |
| `VideoControl.Controller.OnEvent` | src/components/VideoGestureControl.tsx:381-422 | Computes exactly `ControlStep`. The applied action reaches the player's control, when the player exists, with its clamped seek or its pause/play choice. The message and cooldown are set even without a player. |
| `Showcase.DemoChangeStep` | src/sections/ProductShowcase.tsx:263-281 | `handleDemoChange` up to its wait. `ActivationTakesItsWait` and `DeactivateAtOnce` state both branches. |
| `Showcase.CompleteStep` | src/sections/ProductShowcase.tsx:264-276 | The end of the oldest 500 ms wait. `CompletePreservesValid` states the invariant it keeps. |
| `Showcase.DockClickStep` | src/sections/ProductShowcase.tsx:161-171 | A dock button's click, disabled while its demo loads. `DockClickPreservesValid`, `DockClickToggles` and `DisabledWhileLoading` state it. |
| `Showcase.StartValid` | src/sections/ProductShowcase.tsx:256-258 | The selector starts consistent: no active demo, no flag up, nothing waiting. |
| `Showcase.DockClickPreservesValid` | src/sections/ProductShowcase.tsx:161-171 | A dock click keeps three things true: a flag is up exactly while its demo waits, no demo waits twice, and a waiting demo is not the active one. |
| `Showcase.CompletePreservesValid` | src/sections/ProductShowcase.tsx:263-276 | The end of a wait keeps the same invariant. |
| `Showcase.ActivationTakesItsWait` | src/sections/ProductShowcase.tsx:264-276 | Choosing another demo raises only its flag. After the 500 ms wait it is active with its flag down, and the other flag is untouched throughout. |
| `Showcase.DeactivateAtOnce` | src/sections/ProductShowcase.tsx:277-280 | Null, or the active demo, deactivates at once and touches no flag. |
| `Showcase.DockClickToggles` | src/sections/ProductShowcase.tsx:169 | A click on the active demo passes null and deactivates it. A click on another demo activates it after its wait. A further click deactivates it again. |
| `Showcase.DisabledWhileLoading` | src/sections/ProductShowcase.tsx:58-61 | A dock button does nothing while its demo loads. |
| `Showcase.Mounted` | src/sections/ProductShowcase.tsx:513-544 | At most one demo child is rendered: the active one. |
| `Showcase.OneDemoMounted` | src/sections/ProductShowcase.tsx:513-544 | The rendered demo always gets `isActive` set, and with no active demo only the placeholder is rendered. |
| `Showcase.PresenceStep` | src/sections/ProductShowcase.tsx:513-560 | What `AnimatePresence mode="wait"` keeps mounted, one child at a time. Outside an exit the mounted child is the current one, rendered with `isActive` exactly when it is a demo. During an exit, a moment before its end changes nothing. |
| `Showcase.MountedDemoStaysActive` | src/sections/ProductShowcase.tsx:513-527 | A mounted demo is never rendered with `isActive` false. Through its exit it keeps the props it had, so deactivation reaches it only as its unmount. |
| `Showcase.DeactivationStartsExit` | src/sections/ProductShowcase.tsx:519-520 | Deactivating the mounted demo starts its 500 ms exit. It stays mounted with `isActive` set, and the placeholder waits. |
| `Showcase.ExitHoldsUntilItEnds` | src/sections/ProductShowcase.tsx:513 | Nothing else mounts during an exit, whatever `activeDemo` does in the meantime. At the first moment at or after its end, the current child mounts. |
| `Showcase.ProductShowcase.constructor` | src/sections/ProductShowcase.tsx:256-258 | No active demo and both flags down. |
| `Showcase.ProductShowcase.HandleDemoChange` | src/sections/ProductShowcase.tsx:263-281 | Computes exactly `DemoChangeStep`. |
| `Showcase.ProductShowcase.CompleteTransition` | src/sections/ProductShowcase.tsx:268-275 | Computes exactly `CompleteStep` and keeps the invariant. |
| `Showcase.ProductShowcase.DockClick` | src/sections/ProductShowcase.tsx:161-171 | Computes exactly `DockClickStep` and keeps the invariant. |

## Left out

- React scheduling. Each callback reads the latest state rather than the
  value its closure captured. For example, `handleDemoChange` reads the
  current active demo, and the readiness check reads the current
  initialisation flag. The caller decides when an effect runs by sending it an
  event.
- The model and the drawing. `FilesetResolver`, `createFromOptions`,
  `recognizeForVideo` and `DrawingUtils` are foreign calls. Their results are
  inputs. The overlay drawing is reduced to a "redrawn" flag, and the timestamp
  passed to the model is not modelled.
- `Math.round(score * 100)`. The score arrives as an integer percentage.
  Landmark coordinates are exact reals.
- The animation-frame scheduler. Frame ids are inputs. The hook model
  (`Recognizer.Recognizer`) keeps one pending tick, which is the intended
  loop. The several chains the source builds are modelled only as values
  (`Recognizer.Loop`), for the third Findings row.
- Recognizer.StopThenTickIsInert: holds of the one pending tick this model
  keeps. In the source, chains started before the last one survive the stop
  (third Findings row).
- Recognizer.StartStep: runs the first tick at once, with recognition on.
  As written, the closure of that direct call saw recognition off, so it
  schedules nothing. The loop starts only when the activation effect re-runs
  after the re-render; `Recognizer.StartAsWritten` models that.
- The recognizer's build options are arguments of foreign calls. These are
  the runtime bundle URL, the remote and local asset paths, video mode, one
  hand and the CPU delegate. Only which asset was used is kept.
- The three readiness listeners. In the source, each starts its own polling
  chain; one chain is modelled. The readiness guard is read once, when polling
  starts.
- The replacement `console.error` that initialisation installs, once per call.
  It appears only as the predicate `GestureLabels.IsConsoleNoise`.
- CameraSession.CameraDemo.StartCamera: runs as its two halves with nothing in
  between, so the model does not capture the overlapping camera requests
  that the activation effect can issue. `ReconcileDecision` speaks of the
  streaming flag only.
  - The activation effect re-runs after every render, because the callbacks
    it depends on are rebuilt on each render.
  - Between a request and its attach the flag is still off. The spinner's
    re-render therefore issues a second `getUserMedia` while the first is
    pending.
  - Both grants are attached in turn, and `stopCamera` stops only the attached
    stream, so the first stream's tracks stay live.
  - After a refusal, the re-render asks again for as long as permission stays
    denied.
  - The model runs a `startCamera` as its two halves with nothing in between.
    It does not model these overlapping requests, or the one stream per demo
    that the design intends.
- GestureLabels.TranslateLabel: category names are assumed not to be
  `Object.prototype` property names (`constructor`, `toString`, `valueOf`,
  `__proto__`, ...). For those, the source's object lookup returns an
  inherited member instead of the raw name. `VideoControl.CategoryToAction`
  rests on the same assumption.
- A stream granted after the video element went away is neither attached nor
  stopped, and the model does not represent that leaked stream.
- The tracks of a stream replaced by a second `startCamera` are left live, as
  in the source. No lemma is stated about them.
- The YouTube player: script loading, construction, the once-a-second
  position update, `destroy`, and the progress bar. Player times are whole
  seconds. `playVideo` and `pauseVideo` are reported as calls, and the state
  the player then reaches is the player's business.
- `window.videoControls`. It is the controller's reference to the player,
  which is null until the player exists.
- `VideoControl.FormatTime`: only whole non-negative seconds. The source's
  `Math.floor` of fractional seconds and negative times are not modelled.
- Translated strings (camera error, action messages, captions) are
  represented by their translation keys.
- Presentational components and toggles: the debug panel, the gesture
  display, the finger display with its toggle, and the status badges.
- The `onToggle` prop. The demo components never call it.
- The hook's unmount cleanup. It is `StopRecognition` followed by the model's
  foreign `close`. Each component's unmount cleanup is `StopCamera`; the
  video demo's also deletes the global controls, which is not modelled.
- The video-control demo's camera session. It is `CameraSession.CameraDemo`
  built by `ForVideoDemo`, whose `listensForEasterEgg` is false: that demo
  registers no easter-egg listener, and `RunFrame` leaves its dispatcher alone.
- A load that settles at exactly 30000 ms. The order of two timers due at the
  same millisecond is not determined, and the model lets the timeout win.
- Time-outs and load failures. Both are distinct outcomes of
  `Recognizer.Race`. The code writes the same error message for both, and the
  model follows the code, not a distinct timeout error.
- The noise filters. The console filter matches three phrases and the
  per-frame filter two; the model follows the code, not a single two-phrase
  filter.
- Canvas resizing. The canvas is resized before the model is invoked, so it
  is resized even on a frame where the model throws; the model follows the
  code.

- Showcase.Mounted: names the children rendered for `activeDemo`, not what is
  mounted. `AnimatePresence mode="wait"` keeps an exiting demo mounted for its
  500 ms exit, which `Showcase.PresenceStep` models. During that exit the
  demo's camera and tick loop keep running; the model does not connect the
  presence to `CameraSession.CameraDemo`.
- The placeholder's exit duration. The source gives it no transition, so it
  runs for the animation library's default, which is a parameter here. The
  presence is observed at given moments: an exit that ends between two moments
  mounts the next child at the later one.

## Findings

| source | as written | input that shows it | evidently intended | confidence | as-written member | corrected member |
|---|---|---|---|---|---|---|
| src/components/GestureRecognition.tsx:413-416 | `onClose` is a new arrow on every render, and the notification's effect depends on it. Every re-render of the demo cancels the 5 s closing timer and starts a new one. | Notification shown at 0 ms, and the demo re-renders at 4000 ms (while a hand is in view it re-renders on every processed frame). The notification is still up at 5000 ms. | The notification closes 5000 ms after it was shown. | likely; not executed | `EasterEgg.NotificationOutlivesDeadlineAsWritten` | `EasterEgg.NotificationClosesOnTime` |
| src/components/VideoGestureControl.tsx:376-377 | Every `handleVideoAction` starts a 3000 ms timer that clears the message, and none is ever cancelled. | A thumb held up above 70 % seeks at 0 ms and again at 2000 ms. The first timer clears the second message at 3000 ms, after 1000 ms. | The latest action's message stays up for 3000 ms. | likely; not executed | `VideoControl.SecondMessageClearedEarlyAsWritten` | `VideoControl.LastActionShownForItsSpan` |
| src/hooks/useGestureRecognizer.ts:313-322 | `stopRecognition` cancels only the tick id stored last in `animationIdRef`. The activation effect calls `startRecognition` again after every render, and each call whose `processVideoFrame` closure saw recognition on starts a new chain of ticks. That closure keeps seeing recognition on, so a chain that is not cancelled never ends. | The demo is activated. The effect's re-run starts a chain, which processes a frame with a hand in view. The re-render that follows starts a second chain. Then the demo is deactivated. One chain is still pending after the stop; it processes the next frame and schedules another while recognition is off. | Stopping ends every pending tick. | likely; not executed | `Recognizer.StaleChainSurvivesStopAsWritten` | `Recognizer.SingleChainStopEndsLoop` |

The dispatcher and controller classes implement the corrected timers, and the
hook class keeps a single pending tick. `EasterEgg.StepAsWritten`,
`VideoControl.ControlStepAsWritten` and `Recognizer.StartAsWritten` model the
code as written.
