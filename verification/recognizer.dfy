/** The lifecycle of the gesture recognizer hook: one-time initialisation of
    the model (remote asset first, bundled asset second, all of it raced
    against a 30 s timeout and guarded by an in-flight flag), starting and
    stopping recognition, and the per-frame tick that invokes the model,
    derives the finger vector and publishes the newest gesture.

    The model, the camera frame and the browser scheduler are oracles: a
    tick receives what the video element reports, whether a 2D context was
    available, what the model returned (or the text of what it threw) and the
    id the scheduler hands out for the next frame. The hook's React state and
    refs are the fields of `RecognizerState` (and of the class `Recognizer`). */
module Recognizer {
  import opened Wrappers
  import opened FingerStates
  import opened GestureLabels

  /** What is published for the current frame: display label, confidence as an
      integer percentage, and the handedness label. */
  datatype GestureResult = GestureResult(gesture: string, confidence: int, handedness: string)

  /** One classification entry of the model's output; `score` is already the rounded percentage. */
  datatype Category = Category(categoryName: string, displayName: string, score: int)

  /** The model's output for one frame: landmark sets, gesture classifications
      and handedness classifications, each per detected hand. */
  datatype FrameResults = FrameResults(landmarks: seq<Hand>, gestures: seq<seq<Category>>, handednesses: seq<seq<Category>>)

  /** What `recognizeForVideo` did: returned results, or threw an error with this text. */
  datatype Recognition = Recognized(results: FrameResults) | Threw(message: string)

  /** What the video element reports when a tick runs. */
  datatype Video = Video(videoWidth: nat, videoHeight: nat, currentTime: real)

  /** A scheduler id; the browser never hands out 0. */
  type FrameId = n: nat | n > 0 witness 1

  /** Everything the outside world contributes to one tick. */
  datatype TickInput = TickInput(video: Video, hasContext: bool, recognition: Recognition, nextFrame: FrameId)

  /** Canvas width and height. */
  datatype Dims = Dims(width: nat, height: nat)

  /** What a tick did: whether it invoked the model, cleared and redrew the
      overlay, scheduled the next tick, raised the easter-egg event (with its
      finger vector) and logged an error to the console. */
  datatype TickReport = TickReport(invokedModel: bool, redrawn: bool, rescheduled: bool,
                                   easterEgg: Option<FingerState>, loggedError: bool)

  const NoWork := TickReport(false, false, false, None, false)

  /** Which model asset the recognizer was built from. */
  datatype ModelAsset = RemoteAsset | LocalAsset

  const InitTimeoutMs: nat := 30000
  const InitErrorMessage := "Error al cargar el reconocedor de gestos. Intenta recargar la página."
  const NotInitializedMessage := "El reconocedor no está inicializado"

  /** The hook's state and refs. `handle` is the recognizer ref (which asset it
      was loaded from), `animationId` the pending tick, `isInitializing` the in-flight flag. */
  datatype RecognizerState = RecognizerState(
    isInitialized: bool,
    isRecognizing: bool,
    currentGesture: Option<GestureResult>,
    currentFingers: Option<FingerState>,
    error: Option<string>,
    handle: Option<ModelAsset>,
    animationId: Option<FrameId>,
    lastVideoTime: real,
    isInitializing: bool)

  /** The state when the hook mounts. */
  const Initial := RecognizerState(false, false, None, None, None, None, None, -1.0, false)

  // ---------------------------------------------------------------------------
  // Initialisation

  /** How one asynchronous step of initialisation ends, and how long it takes. */
  datatype Attempt = Settles(ok: bool, ms: nat) | NeverSettles

  /** The three asynchronous steps: resolving the runtime bundle, building from
      the remote asset, and (only if that fails) building from the local asset. */
  datatype InitTimeline = InitTimeline(resolver: Attempt, remote: Attempt, local: Attempt)

  /** How the loading promise settles, measured from the start of initialisation. */
  datatype Settlement = Resolved(asset: ModelAsset, at: nat) | Rejected(at: nat) | Pending

  /** The loading promise: resolver, then remote; on a remote failure, local. */
  function Settle(t: InitTimeline): Settlement
  {
    match t.resolver
    case NeverSettles => Pending
    case Settles(false, r) => Rejected(r)
    case Settles(true, r) =>
      match t.remote
      case NeverSettles => Pending
      case Settles(true, m) => Resolved(RemoteAsset, r + m)
      case Settles(false, m) =>
        match t.local
        case NeverSettles => Pending
        case Settles(true, l) => Resolved(LocalAsset, r + m + l)
        case Settles(false, l) => Rejected(r + m + l)
  }

  /** The result of racing the loading promise against the timeout. */
  datatype InitOutcome = Ready(asset: ModelAsset) | LoadFailure | Timeout

  /** `Promise.race([initPromise, timeoutPromise])`: whatever settles strictly
      before 30000 ms decides; otherwise the timeout rejects. */
  function Race(t: InitTimeline): InitOutcome
  {
    match Settle(t)
    case Pending => Timeout
    case Resolved(a, at) => if at < InitTimeoutMs then Ready(a) else Timeout
    case Rejected(at) => if at < InitTimeoutMs then LoadFailure else Timeout
  }

  /** The remote asset is tried first and used when it builds in time; the
      local one is tried only after the remote build failed, and used when it
      builds in time; when both fail in time, loading fails. */
  lemma RaceTriesRemoteFirst(t: InitTimeline)
    ensures Race(t) == Ready(LocalAsset) ==>
      t.resolver.Settles? && t.resolver.ok && t.remote.Settles? && !t.remote.ok
    ensures (t.resolver.Settles? && t.resolver.ok && t.remote.Settles? && t.remote.ok
             && t.resolver.ms + t.remote.ms < InitTimeoutMs) ==> Race(t) == Ready(RemoteAsset)
    ensures (t.resolver.Settles? && t.resolver.ok && t.remote.Settles? && !t.remote.ok
             && t.local.Settles? && t.local.ok && t.resolver.ms + t.remote.ms + t.local.ms < InitTimeoutMs) ==>
      Race(t) == Ready(LocalAsset)
    ensures (t.resolver.Settles? && t.resolver.ok && t.remote.Settles? && !t.remote.ok
             && t.local.Settles? && !t.local.ok && t.resolver.ms + t.remote.ms + t.local.ms < InitTimeoutMs) ==>
      Race(t) == LoadFailure
  {
  }

  /** The race never hangs, and it ends in a timeout exactly when loading has
      not settled before 30000 ms. */
  lemma RaceBoundedByTimeout(t: InitTimeline)
    ensures Race(t) == Timeout <==> (Settle(t).Pending? || Settle(t).at >= InitTimeoutMs)
    ensures Race(t).Ready? ==> Settle(t) == Resolved(Race(t).asset, Settle(t).at) && Settle(t).at < InitTimeoutMs
  {
  }

  /** First half of `initializeGestureRecognizer`: a no-op while a load is in
      flight or once loaded; otherwise raise the in-flight flag and clear the error. */
  function InitBegin(s: RecognizerState): (RecognizerState, bool)
  {
    if s.isInitializing || s.isInitialized then (s, false)
    else (s.(isInitializing := true, error := None), true)
  }

  /** Second half: record the recognizer or the error, and lower the in-flight flag on every path. */
  function InitFinish(s: RecognizerState, outcome: InitOutcome): RecognizerState
  {
    match outcome
    case Ready(a) => s.(handle := Some(a), isInitialized := true, isInitializing := false)
    case _ => s.(error := Some(InitErrorMessage), isInitializing := false)
  }

  /** The whole of one call, when nothing else runs while it is awaited. */
  function InitializeStep(s: RecognizerState, t: InitTimeline): RecognizerState
  {
    var (s1, started) := InitBegin(s);
    if started then InitFinish(s1, Race(t)) else s1
  }

  /** A call while a load is in flight, or once loaded, changes nothing. */
  lemma InitializeGuarded(s: RecognizerState, t: InitTimeline)
    requires s.isInitializing || s.isInitialized
    ensures InitializeStep(s, t) == s
    ensures !InitBegin(s).1
  {
  }

  /** A call that starts leaves the in-flight flag down on every exit path; it
      succeeds exactly when the race is won, and on a failure or timeout it sets
      the error and leaves the hook uninitialised. */
  lemma InitializeOutcome(s: RecognizerState, t: InitTimeline)
    requires !s.isInitializing && !s.isInitialized
    ensures !InitializeStep(s, t).isInitializing
    ensures InitializeStep(s, t).isInitialized <==> Race(t).Ready?
    ensures Race(t).Ready? ==> InitializeStep(s, t).handle == Some(Race(t).asset) && InitializeStep(s, t).error == None
    ensures !Race(t).Ready? ==> InitializeStep(s, t).error == Some(InitErrorMessage) && InitializeStep(s, t).handle == s.handle
  {
  }

  /** A second call after a successful one is a no-op: initialisation happens once. */
  lemma InitializeOnce(s: RecognizerState, t1: InitTimeline, t2: InitTimeline)
    requires !s.isInitializing && Race(t1).Ready?
    ensures InitializeStep(InitializeStep(s, t1), t2) == InitializeStep(s, t1)
  {
  }

  // ---------------------------------------------------------------------------
  // Publishing one frame's results

  /** What the gesture part of a frame does: publish a result, clear it, or throw
      (when a classification list for the first hand is empty the code reads a field of `undefined`). */
  datatype Publication = Publish(result: Option<GestureResult>) | PublishThrew

  function GestureOf(results: FrameResults): Publication
  {
    if |results.gestures| > 0 && |results.handednesses| > 0 then
      if |results.gestures[0]| == 0 || |results.handednesses[0]| == 0 then PublishThrew
      else
        var g, h := results.gestures[0][0], results.handednesses[0][0];
        Publish(Some(GestureResult(TranslateLabel(g.categoryName), g.score, HandednessLabel(h.displayName))))
    else Publish(None)
  }

  /** The state, canvas and report after a tick. */
  datatype TickOutcome = TickOutcome(state: RecognizerState, canvas: Dims, report: TickReport)

  /** The model's part of a tick, after the time check passed and the canvas
      was sized: draw, derive fingers, raise the easter egg, publish the gesture.
      Each thrown exception ends the frame where it is raised. */
  function FrameStep(s: RecognizerState, canvas: Dims, recognition: Recognition): TickOutcome
  {
    var invoked := NoWork.(invokedModel := true);
    match recognition
    case Threw(message) => TickOutcome(s, canvas, invoked.(loggedError := !IsFrameNoise(message)))
    case Recognized(results) =>
      var drawn := invoked.(redrawn := true);
      var extraction := Extract(results.landmarks);
      if extraction.LandmarkMissing? then
        TickOutcome(s, canvas, drawn.(loggedError := true))
      else
        var s1 := s.(currentFingers := if extraction.Extracted? then Some(extraction.fingers) else None);
        var egg := if extraction.Extracted? && IsEasterEgg(extraction.fingers) then Some(extraction.fingers) else None;
        var report := drawn.(easterEgg := egg);
        match GestureOf(results)
        case PublishThrew => TickOutcome(s1, canvas, report.(loggedError := true))
        case Publish(g) => TickOutcome(s1.(currentGesture := g), canvas, report)
  }

  /** `processVideoFrame`, one scheduled tick. */
  function TickStep(s: RecognizerState, canvas: Dims, input: TickInput): TickOutcome
  {
    var v := input.video;
    if s.handle.None? || !s.isRecognizing || !input.hasContext then TickOutcome(s, canvas, NoWork)
    else
      var next := s.(animationId := Some(input.nextFrame));
      var rescheduled := NoWork.(rescheduled := true);
      if v.videoWidth == 0 || v.videoHeight == 0 then TickOutcome(next, canvas, rescheduled)
      else if v.currentTime == s.lastVideoTime then TickOutcome(next, canvas, rescheduled)
      else
        var out := FrameStep(next.(lastVideoTime := v.currentTime), Dims(v.videoWidth, v.videoHeight), input.recognition);
        out.(report := out.report.(rescheduled := true))
  }

  /** `startRecognition`: without a recognizer it only sets the error; otherwise
      it turns recognition on, clears the error and runs the first tick. */
  function StartStep(s: RecognizerState, canvas: Dims, input: TickInput): TickOutcome
  {
    if s.handle.None? then TickOutcome(s.(error := Some(NotInitializedMessage)), canvas, NoWork)
    else TickStep(s.(isRecognizing := true, error := None), canvas, input)
  }

  /** `stopRecognition`: recognition off, both results cleared, pending tick cancelled. */
  function StopStep(s: RecognizerState): (r: RecognizerState)
    ensures !r.isRecognizing && r.currentGesture == None && r.currentFingers == None && r.animationId == None
    ensures r.(isRecognizing := s.isRecognizing, currentGesture := s.currentGesture,
               currentFingers := s.currentFingers, animationId := s.animationId) == s
  {
    s.(isRecognizing := false, currentGesture := None, currentFingers := None, animationId := None)
  }

  /** The model is invoked exactly when a recognizer exists, recognition is on,
      a context exists, the frame has non-zero size and the video time moved;
      the new time is then recorded. */
  lemma TickInvokesModelOnlyOnNewFrames(s: RecognizerState, canvas: Dims, input: TickInput)
    ensures TickStep(s, canvas, input).report.invokedModel <==>
      && s.handle.Some? && s.isRecognizing && input.hasContext
      && input.video.videoWidth > 0 && input.video.videoHeight > 0
      && input.video.currentTime != s.lastVideoTime
    ensures TickStep(s, canvas, input).report.invokedModel ==>
      TickStep(s, canvas, input).state.lastVideoTime == input.video.currentTime
      && TickStep(s, canvas, input).canvas == Dims(input.video.videoWidth, input.video.videoHeight)
  {
  }

  /** A frozen frame (video time unchanged): no model call, no redraw, no result
      changes, the canvas untouched; only the next tick is scheduled. */
  lemma TickSkipsFrozenFrame(s: RecognizerState, canvas: Dims, input: TickInput)
    requires input.video.currentTime == s.lastVideoTime
    ensures var out := TickStep(s, canvas, input);
      && !out.report.invokedModel && !out.report.redrawn && out.report.easterEgg == None
      && out.canvas == canvas
      && out.state.(animationId := s.animationId) == s
  {
  }

  /** The loop goes on rescheduling exactly while recognition is on (with a
      recognizer and a context), whatever the model did, a thrown error included. */
  lemma TickReschedulesWhileRecognizing(s: RecognizerState, canvas: Dims, input: TickInput)
    ensures var out := TickStep(s, canvas, input);
      && (out.report.rescheduled <==> s.handle.Some? && s.isRecognizing && input.hasContext)
      && (out.report.rescheduled ==> out.state.animationId == Some(input.nextFrame))
      && (!out.report.rescheduled ==> out.state == s)
      && out.state.isRecognizing == s.isRecognizing
  {
  }

  /** A frame on which the model throws changes neither published result; the
      error is logged unless it is extension noise. */
  lemma TickAbsorbsFrameError(s: RecognizerState, canvas: Dims, input: TickInput)
    requires input.recognition.Threw?
    ensures var out := TickStep(s, canvas, input);
      && out.state.currentGesture == s.currentGesture
      && out.state.currentFingers == s.currentFingers
      && out.report.easterEgg == None
      && (out.report.loggedError <==> out.report.invokedModel && !IsFrameNoise(input.recognition.message))
  {
  }

  /** A well-formed frame publishes a consistent pair: the finger vector of the
      first hand (or null with no hand) and the translated gesture with its
      handedness label (or null with no classification). */
  lemma TickPublishesFrame(s: RecognizerState, canvas: Dims, input: TickInput)
    requires TickStep(s, canvas, input).report.invokedModel
    requires input.recognition.Recognized?
    requires var r := input.recognition.results;
      (|r.landmarks| == 0 || |r.landmarks[0]| >= LandmarksPerHand)
      && (|r.gestures| > 0 && |r.handednesses| > 0 ==> |r.gestures[0]| > 0 && |r.handednesses[0]| > 0)
    ensures var r, out := input.recognition.results, TickStep(s, canvas, input);
      && out.report.redrawn && !out.report.loggedError
      && (|r.landmarks| == 0 ==> out.state.currentFingers == None)
      && (|r.landmarks| > 0 ==> out.state.currentFingers == Some(FingersOf(r.landmarks[0])))
      && (|r.gestures| == 0 || |r.handednesses| == 0 ==> out.state.currentGesture == None)
      && (|r.gestures| > 0 && |r.handednesses| > 0 ==>
            out.state.currentGesture == Some(GestureResult(
              TranslateLabel(r.gestures[0][0].categoryName),
              r.gestures[0][0].score,
              HandednessLabel(r.handednesses[0][0].displayName))))
  {
  }

  /** The easter-egg event is raised exactly on a processed frame whose first
      hand has all landmarks and shows the forbidden pattern, and it carries that vector. */
  lemma TickRaisesEasterEgg(s: RecognizerState, canvas: Dims, input: TickInput)
    ensures var out := TickStep(s, canvas, input);
      out.report.easterEgg.Some? <==>
        && out.report.invokedModel && input.recognition.Recognized?
        && Extract(input.recognition.results.landmarks).Extracted?
        && IsEasterEgg(Extract(input.recognition.results.landmarks).fingers)
    ensures var out := TickStep(s, canvas, input);
      out.report.easterEgg.Some? ==> out.report.easterEgg.value == EasterEggPattern
  {
    var out := TickStep(s, canvas, input);
    if out.report.easterEgg.Some? {
      EasterEggExactlyOneOf32();
    }
  }

  /** Starting without a recognizer sets the error and starts nothing. */
  lemma StartWithoutRecognizerFails(s: RecognizerState, canvas: Dims, input: TickInput)
    requires s.handle.None?
    ensures var out := StartStep(s, canvas, input);
      out.state == s.(error := Some(NotInitializedMessage)) && !out.report.invokedModel && !out.report.rescheduled
  {
  }

  /** Starting with a recognizer turns recognition on, clears the error, and
      schedules the loop whenever a context exists. */
  lemma StartWithRecognizerRuns(s: RecognizerState, canvas: Dims, input: TickInput)
    requires s.handle.Some?
    ensures var out := StartStep(s, canvas, input);
      out.state.isRecognizing && out.state.error == None && (out.report.rescheduled <==> input.hasContext)
  {
  }

  /** With the single pending tick of this model, no tick does anything after
      a stop, and stopping twice is stopping once. */
  lemma StopThenTickIsInert(s: RecognizerState, canvas: Dims, input: TickInput)
    ensures TickStep(StopStep(s), canvas, input) == TickOutcome(StopStep(s), canvas, NoWork)
    ensures StopStep(StopStep(s)) == StopStep(s)
  {
  }

  // ---------------------------------------------------------------------------
  // The animation loop as written
  //
  // `processVideoFrame` reads `isRecognizing` from the render that created it,
  // and so does every tick it schedules. The activation effect calls
  // `startRecognition` again after every render (its dependencies are rebuilt on
  // each render), so several chains of scheduled ticks can be pending at once,
  // and `stopRecognition` cancels only the id stored last in `animationIdRef`.
  // A chain never ends by itself: its closure saw recognition on.

  /** The recognition flag, the ids of the pending ticks (one per chain), and `animationIdRef`. */
  datatype Loop = Loop(isRecognizing: bool, pending: seq<FrameId>, animationIdRef: Option<FrameId>)

  const Unscheduled := Loop(false, [], None)

  /** The pending ids other than `id`. */
  function Without(pending: seq<FrameId>, id: FrameId): (r: seq<FrameId>)
    ensures forall x :: x in r <==> x in pending && x != id
    ensures |r| <= |pending|
    decreases |pending|
  {
    if pending == [] then []
    else (if pending[0] == id then [] else [pending[0]]) + Without(pending[1..], id)
  }

  /** `startRecognition` as written, with a recognizer, through a
      `processVideoFrame` whose closure saw `closureSawRecognizing`: the flag
      goes on, and the direct call starts a chain only when its closure saw
      recognition on. */
  function StartAsWritten(l: Loop, closureSawRecognizing: bool, id: FrameId): Loop
  {
    if closureSawRecognizing then Loop(true, l.pending + [id], Some(id))
    else l.(isRecognizing := true)
  }

  /** The pending tick `i` fires: it processes a frame and schedules its
      successor `next`, which becomes `animationIdRef`, whatever the flag is now. */
  function TickChain(l: Loop, i: nat, next: FrameId): (r: Loop)
    requires i < |l.pending|
    ensures |r.pending| == |l.pending| && r.isRecognizing == l.isRecognizing
  {
    l.(pending := l.pending[..i] + l.pending[i + 1..] + [next], animationIdRef := Some(next))
  }

  /** `stopRecognition`: the flag goes off and the tick stored last is cancelled. */
  function StopLoop(l: Loop): (r: Loop)
    ensures !r.isRecognizing && r.animationIdRef == None
    ensures forall x :: x in r.pending ==> x in l.pending && Some(x) != l.animationIdRef
  {
    Loop(false, if l.animationIdRef.Some? then Without(l.pending, l.animationIdRef.value) else l.pending, None)
  }

  /** As written: start (the closure of the first call saw recognition off, so
      nothing is scheduled), the re-render starts a chain, it processes a frame,
      the next re-render starts a second chain, then stop. A chain is still
      pending after the stop, and its next tick processes a frame and schedules
      another while recognition is off. */
  lemma StaleChainSurvivesStopAsWritten()
    ensures var l1 := StartAsWritten(Unscheduled, false, 1);
      var l2 := StartAsWritten(l1, true, 2);
      var l3 := TickChain(l2, 0, 3);
      var l4 := StartAsWritten(l3, true, 4);
      var l5 := StopLoop(l4);
      && l1.pending == []
      && l5.pending == [3] && !l5.isRecognizing
      && TickChain(l5, 0, 5).pending == [5]
  {
    var l4 := Loop(true, [3, 4], Some(4));
    assert StartAsWritten(TickChain(StartAsWritten(StartAsWritten(Unscheduled, false, 1), true, 2), 0, 3), true, 4) == l4;
    assert Without([4], 4) == [];
    assert Without([3, 4], 4) == [3] + Without([4], 4);
  }

  /** The loop as intended: `startRecognition` replaces the pending tick
      instead of adding a chain, as the rest of this model does with its single
      `animationId`. */
  function StartOneChain(l: Loop, id: FrameId): Loop
  {
    Loop(true, [id], Some(id))
  }

  /** At most one tick is pending, and it is the one `animationIdRef` names. */
  predicate OneChain(l: Loop)
  {
    |l.pending| <= 1 && (l.pending != [] ==> l.animationIdRef == Some(l.pending[0]))
  }

  /** With one chain, every start, tick and stop keeps one chain, and a stop
      leaves no tick pending: nothing keeps running after the loop is stopped. */
  lemma {:induction false} SingleChainStopEndsLoop(l: Loop, id: FrameId, i: nat, next: FrameId)
    requires OneChain(l)
    ensures OneChain(StartOneChain(l, id)) && OneChain(StopLoop(l))
    ensures i < |l.pending| ==> OneChain(TickChain(l, i, next))
    ensures StopLoop(l).pending == [] && !StopLoop(l).isRecognizing
  {
    if l.pending != [] {
      var id0 := l.pending[0];
      assert l.pending == [id0];
      assert Without([id0], id0) == [] + Without([], id0);
      if i < |l.pending| {
        assert l.pending[..i] + l.pending[i + 1..] == [];
      }
    }
  }

  // ---------------------------------------------------------------------------
  // The imperative hook

  /** The overlay canvas, whose size a tick adjusts in place. */
  class Canvas {
    var width: nat
    var height: nat

    constructor (width: nat, height: nat)
      ensures this.width == width && this.height == height
    {
      this.width := width;
      this.height := height;
    }

    function Size(): Dims
      reads this
    {
      Dims(width, height)
    }
  }

  /** The hook instance: its state variables and refs as fields. */
  class Recognizer {
    var isInitialized: bool
    var isRecognizing: bool
    var currentGesture: Option<GestureResult>
    var currentFingers: Option<FingerState>
    var error: Option<string>
    var handle: Option<ModelAsset>
    var animationId: Option<FrameId>
    var lastVideoTime: real
    var isInitializing: bool

    function State(): RecognizerState
      reads this
    {
      RecognizerState(isInitialized, isRecognizing, currentGesture, currentFingers, error,
                      handle, animationId, lastVideoTime, isInitializing)
    }

    constructor ()
      ensures State() == Initial
    {
      isInitialized, isRecognizing := false, false;
      currentGesture, currentFingers, error := None, None, None;
      handle, animationId := None, None;
      lastVideoTime := -1.0;
      isInitializing := false;
    }

    /** Entry of `initializeGestureRecognizer`, up to the first await. */
    method BeginInitialize() returns (started: bool)
      modifies this
      ensures (State(), started) == InitBegin(old(State()))
    {
      if isInitializing || isInitialized {
        return false;
      }
      isInitializing := true;
      error := None;
      started := true;
    }

    /** The settlement of the race and the `finally` block. */
    method FinishInitialize(outcome: InitOutcome)
      modifies this
      ensures State() == InitFinish(old(State()), outcome)
      ensures !isInitializing
    {
      match outcome {
        case Ready(asset) =>
          handle := Some(asset);
          isInitialized := true;
        case _ =>
          error := Some(InitErrorMessage);
      }
      isInitializing := false;
    }

    /** One call of `initializeGestureRecognizer` that is not overlapped by another. */
    method Initialize(timeline: InitTimeline)
      modifies this
      ensures State() == InitializeStep(old(State()), timeline)
    {
      var started := BeginInitialize();
      if started {
        FinishInitialize(Race(timeline));
      }
    }

    /** `processVideoFrame`, written step by step. */
    method ProcessVideoFrame(canvas: Canvas, input: TickInput) returns (report: TickReport)
      modifies this, canvas
      ensures TickOutcome(State(), canvas.Size(), report) == TickStep(old(State()), old(canvas.Size()), input)
    {
      report := NoWork;
      if handle.None? || !isRecognizing {
        return;
      }
      if !input.hasContext {
        return;
      }
      var video := input.video;
      if video.videoWidth == 0 || video.videoHeight == 0 {
        animationId := Some(input.nextFrame);
        report := report.(rescheduled := true);
        return;
      }
      if video.currentTime != lastVideoTime {
        lastVideoTime := video.currentTime;
        if canvas.width != video.videoWidth || canvas.height != video.videoHeight {
          canvas.width := video.videoWidth;
          canvas.height := video.videoHeight;
        }
        report := report.(invokedModel := true);
        match input.recognition {
          case Threw(message) =>
            report := report.(loggedError := !IsFrameNoise(message));
          case Recognized(results) =>
            report := report.(redrawn := true);
            var failed := false;
            if |results.landmarks| > 0 {
              var extraction := DetectFingerStates(results.landmarks);
              if extraction.LandmarkMissing? {
                failed := true;
              } else {
                currentFingers := Some(extraction.fingers);
                if IsEasterEgg(extraction.fingers) {
                  report := report.(easterEgg := Some(extraction.fingers));
                }
              }
            } else {
              currentFingers := None;
            }
            if failed {
              report := report.(loggedError := true);
            } else if |results.gestures| > 0 && |results.handednesses| > 0 {
              if |results.gestures[0]| == 0 || |results.handednesses[0]| == 0 {
                report := report.(loggedError := true);
              } else {
                var gesture, hand := results.gestures[0][0], results.handednesses[0][0];
                currentGesture := Some(GestureResult(TranslateLabel(gesture.categoryName), gesture.score,
                                                     HandednessLabel(hand.displayName)));
              }
            } else {
              currentGesture := None;
            }
        }
      }
      animationId := Some(input.nextFrame);
      report := report.(rescheduled := true);
    }

    /** `startRecognition`. */
    method StartRecognition(canvas: Canvas, input: TickInput) returns (report: TickReport)
      modifies this, canvas
      ensures TickOutcome(State(), canvas.Size(), report) == StartStep(old(State()), old(canvas.Size()), input)
    {
      if handle.None? {
        error := Some(NotInitializedMessage);
        return NoWork;
      }
      isRecognizing := true;
      error := None;
      report := ProcessVideoFrame(canvas, input);
    }

    /** `stopRecognition`. */
    method StopRecognition()
      modifies this
      ensures State() == StopStep(old(State()))
    {
      isRecognizing := false;
      currentGesture := None;
      currentFingers := None;
      if animationId.Some? {
        animationId := None;
      }
    }
  }
}
