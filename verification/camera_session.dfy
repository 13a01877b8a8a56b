/** The camera session of the gesture-recognition component: starting,
    stopping and restarting the camera stream, the readiness polling that
    sizes the canvas and starts recognition once the video reports a frame
    size, the activation effect that reconciles the `isActive` prop with the
    stream and the recognizer, the error shown to the user, and the wiring
    of processed frames to the easter-egg dispatcher.

    The camera's answer to `getUserMedia`, the video sizes seen by the
    readiness checks and the clock are parameters. */
module CameraSession {
  import opened Wrappers
  import opened Recognizer
  import EasterEgg

  /** The video constraints of a camera request. */
  datatype Constraints = Constraints(idealWidth: nat, maxWidth: nat, idealHeight: nat, maxHeight: nat, facingMode: string)

  /** What the gesture-recognition demo asks for. */
  const GestureDemoConstraints := Constraints(1280, 1920, 720, 1080, "user")
  /** What the video-control demo asks for; the rest of its camera session is the same. */
  const VideoDemoConstraints := Constraints(640, 1280, 480, 720, "user")

  /** Delays: between stopping and restarting the camera, before a readiness
      check, and before a readiness check is repeated. */
  const RestartDelayMs: nat := 500
  const ReadyDelayMs: nat := 100
  const RetryDelayMs: nat := 100

  /** The translation key of the message shown when the camera cannot be opened. */
  const CameraErrorText := "productShowcase.gestureRecognition.cameraError"

  /** How `getUserMedia` settles: a stream with this many tracks, or a rejection. */
  datatype CameraReply = Granted(trackCount: nat) | CameraFailed

  /** A camera stream; each track is live (`true`) until it is stopped. */
  class MediaStream {
    const tracks: array<bool>

    constructor (trackCount: nat)
      ensures tracks.Length == trackCount && fresh(tracks)
      ensures AllLive()
    {
      var live := new bool[trackCount](_ => true);
      tracks := live;
    }

    predicate AllLive()
      reads tracks
    {
      forall i :: 0 <= i < tracks.Length ==> tracks[i]
    }

    predicate AllStopped()
      reads tracks
    {
      forall i :: 0 <= i < tracks.Length ==> !tracks[i]
    }
  }

  /** The tracks of a stream, for frames. */
  function Tracks(s: MediaStream?): set<object>
  {
    if s == null then {} else {s.tracks}
  }

  // ---------------------------------------------------------------------------
  // Pure rules

  /** The video reports a frame size. */
  predicate HasFrame(d: Dims)
  {
    d.width > 0 && d.height > 0
  }

  /** The readiness polling: `checks[k]` is the video size seen by the k-th
      check. The first check that sees a frame size ends the polling; every
      earlier one saw none. */
  function FirstReadyCheck(checks: seq<Dims>): (k: Option<nat>)
    ensures k.Some? ==> k.value < |checks| && HasFrame(checks[k.value])
    ensures k.Some? ==> forall j :: 0 <= j < k.value ==> !HasFrame(checks[j])
    ensures k.None? <==> forall j :: 0 <= j < |checks| ==> !HasFrame(checks[j])
    decreases |checks|
  {
    if |checks| == 0 then None
    else if HasFrame(checks[0]) then Some(0)
    else
      match FirstReadyCheck(checks[1..])
      case None => None
      case Some(k) => Some(k + 1)
  }

  /** When the k-th readiness check runs, for a ready event at `readyAt`: the
      first one after the 100 ms wait, each repetition after a 100 ms retry
      delay and another 100 ms wait. */
  function CheckTime(readyAt: int, k: nat): (t: int)
    ensures t >= readyAt + ReadyDelayMs
    ensures k > 0 ==> t == CheckTime(readyAt, k - 1) + RetryDelayMs + ReadyDelayMs
  {
    readyAt + ReadyDelayMs + (RetryDelayMs + ReadyDelayMs) * k
  }

  /** What the activation effect does. */
  datatype Reconciliation = OpenCamera | ResumeRecognition | KeepAsIs | Shutdown(closeCamera: bool)

  /** The activation effect's decision: active with an initialised recognizer
      opens the camera when there is no stream and otherwise (with both
      elements mounted) restarts recognition; anything else stops
      recognition, and the camera too when it is streaming. So while
      `isStreaming` is set the effect never asks for the camera again; but
      between a request and its attach the flag is still off, and a re-run of
      the effect in that window asks again. */
  function ReconcileDecision(isActive: bool, isInitialized: bool, isStreaming: bool, refsPresent: bool): (d: Reconciliation)
    ensures d == OpenCamera <==> isActive && isInitialized && !isStreaming
    ensures d == ResumeRecognition <==> isActive && isInitialized && isStreaming && refsPresent
    ensures d == KeepAsIs <==> isActive && isInitialized && isStreaming && !refsPresent
    ensures d.Shutdown? <==> !(isActive && isInitialized)
    ensures d.Shutdown? ==> d.closeCamera == isStreaming
  {
    if isActive && isInitialized then
      if !isStreaming then OpenCamera
      else if refsPresent then ResumeRecognition
      else KeepAsIs
    else Shutdown(isStreaming)
  }

  /** `error || gestureError`: the camera error when it is a non-empty text,
      the recognizer's error otherwise. */
  function DisplayError(cameraError: Option<string>, recognizerError: Option<string>): (shown: Option<string>)
    ensures cameraError.Some? && cameraError.value != "" ==> shown == cameraError
    ensures cameraError.None? || cameraError.value == "" ==> shown == recognizerError
  {
    match cameraError
    case Some(text) => if text != "" then cameraError else recognizerError
    case None => recognizerError
  }

  /** An error reaches the screen exactly when one of the two is a non-empty text,
      and the camera's wins over the recognizer's. */
  lemma DisplayErrorShowsAnyError(cameraError: Option<string>, recognizerError: Option<string>)
    ensures (DisplayError(cameraError, recognizerError).Some? && DisplayError(cameraError, recognizerError).value != "")
      <==> (cameraError.Some? && cameraError.value != "") || (recognizerError.Some? && recognizerError.value != "")
    ensures DisplayError(Some(CameraErrorText), recognizerError) == Some(CameraErrorText)
  {
  }

  // ---------------------------------------------------------------------------
  // The component

  /** A demo component instance (the gesture-recognition demo, or the camera
      half of the video-control demo): the constraints of its camera requests,
      whether its video and canvas elements are mounted, its camera state, the stream attached to the video element,
      the recognizer hook, overlay canvas and easter-egg dispatcher it owns,
      and whether it listens for the easter-egg event (only the
      gesture-recognition demo registers a listener). */
  class CameraDemo {
    const constraints: Constraints
    const hasVideo: bool
    const hasCanvas: bool
    var isStreaming: bool
    var loading: bool
    var error: Option<string>
    var srcObject: MediaStream?
    const recognizer: Recognizer
    const canvas: Canvas
    const dispatcher: EasterEgg.Dispatcher
    const listensForEasterEgg: bool

    /** A stream is attached exactly while the component says it is streaming. */
    predicate Valid()
      reads this
    {
      isStreaming <==> srcObject != null
    }

    /** The gesture-recognition demo, which asks for 1280x720 video. */
    constructor ForGestureDemo(hasVideo: bool, hasCanvas: bool)
      ensures constraints == GestureDemoConstraints && listensForEasterEgg
      ensures Valid()
      ensures this.hasVideo == hasVideo && this.hasCanvas == hasCanvas
      ensures !isStreaming && !loading && error == None
      ensures fresh(recognizer) && fresh(canvas) && fresh(dispatcher)
      ensures recognizer.State() == Initial && dispatcher.State() == EasterEgg.Quiet
    {
      constraints, listensForEasterEgg := GestureDemoConstraints, true;
      this.hasVideo := hasVideo;
      this.hasCanvas := hasCanvas;
      isStreaming, loading, error, srcObject := false, false, None, null;
      recognizer := new Recognizer();
      canvas := new Canvas(0, 0);
      dispatcher := new EasterEgg.Dispatcher();
    }

    /** The camera half of the video-control demo, which asks for 640x480 video. */
    constructor ForVideoDemo(hasVideo: bool, hasCanvas: bool)
      ensures constraints == VideoDemoConstraints && !listensForEasterEgg
      ensures Valid()
      ensures this.hasVideo == hasVideo && this.hasCanvas == hasCanvas
      ensures !isStreaming && !loading && error == None
      ensures fresh(recognizer) && fresh(canvas) && fresh(dispatcher)
      ensures recognizer.State() == Initial && dispatcher.State() == EasterEgg.Quiet
    {
      constraints, listensForEasterEgg := VideoDemoConstraints, false;
      this.hasVideo := hasVideo;
      this.hasCanvas := hasCanvas;
      isStreaming, loading, error, srcObject := false, false, None, null;
      recognizer := new Recognizer();
      canvas := new Canvas(0, 0);
      dispatcher := new EasterEgg.Dispatcher();
    }

    /** The error the component shows. */
    function ShownError(): Option<string>
      reads this, recognizer
    {
      DisplayError(error, recognizer.error)
    }

    /** The mount effect: initialise the recognizer unless it already is. */
    method MountInitialize(timeline: InitTimeline)
      modifies recognizer
      ensures recognizer.State() == InitializeStep(old(recognizer.State()), timeline)
    {
      if !recognizer.isInitialized {
        recognizer.Initialize(timeline);
      }
    }

    /** `startCamera` up to the camera request: nothing at all without both
      elements; otherwise show the spinner, clear the camera error and request
      the camera with the demo's constraints. */
    method BeginStartCamera() returns (request: Option<Constraints>)
      modifies this
      ensures request == (if hasVideo && hasCanvas then Some(constraints) else None)
      ensures request.None? ==> unchanged(this)
      ensures request.Some? ==> loading && error == None
      ensures srcObject == old(srcObject) && isStreaming == old(isStreaming)
    {
      if !hasVideo || !hasCanvas {
        return None;
      }
      loading := true;
      error := None;
      request := Some(constraints);
    }

    /** `startCamera` once the request settled: attach the stream when the video
      element is still mounted, or record the camera error; the spinner goes
      off on every path. */
    method FinishStartCamera(reply: CameraReply, stillMounted: bool)
      requires Valid()
      modifies this
      ensures Valid() && !loading
      ensures reply.Granted? && stillMounted ==>
        && isStreaming && srcObject != null && fresh(srcObject) && fresh(srcObject.tracks)
        && srcObject.tracks.Length == reply.trackCount && srcObject.AllLive()
        && error == old(error)
      ensures reply.Granted? && !stillMounted ==>
        srcObject == old(srcObject) && isStreaming == old(isStreaming) && error == old(error)
      ensures reply.CameraFailed? ==>
        error == Some(CameraErrorText) && srcObject == old(srcObject) && isStreaming == old(isStreaming)
    {
      match reply {
        case Granted(trackCount) =>
          if stillMounted {
            srcObject := new MediaStream(trackCount);
            isStreaming := true;
          }
        case CameraFailed =>
          error := Some(CameraErrorText);
      }
      loading := false;
    }

    /** `startCamera` whose request settles before anything else runs. */
    method StartCamera(reply: CameraReply, stillMounted: bool)
      requires Valid()
      modifies this
      ensures Valid()
      ensures !(hasVideo && hasCanvas) ==> unchanged(this)
      ensures hasVideo && hasCanvas ==> !loading
      ensures hasVideo && hasCanvas && reply.Granted? && stillMounted ==>
        && isStreaming && srcObject != null && fresh(srcObject) && fresh(srcObject.tracks)
        && srcObject.tracks.Length == reply.trackCount && srcObject.AllLive() && error == None
      ensures hasVideo && hasCanvas && reply.CameraFailed? ==>
        error == Some(CameraErrorText) && srcObject == old(srcObject) && isStreaming == old(isStreaming)
    {
      var request := BeginStartCamera();
      if request.Some? {
        FinishStartCamera(reply, stillMounted);
      }
    }

    /** `stopCamera`: stop every track of the attached stream and detach it (if
      there is one); stop recognition and leave streaming off in any case. */
    method StopCamera()
      requires Valid()
      modifies this, recognizer, Tracks(srcObject)
      ensures Valid() && srcObject == null && !isStreaming
      ensures old(srcObject) != null ==> old(srcObject).AllStopped()
      ensures recognizer.State() == StopStep(old(recognizer.State()))
      ensures loading == old(loading) && error == old(error)
    {
      if srcObject != null {
        var tracks := srcObject.tracks;
        for i := 0 to tracks.Length
          invariant forall j :: 0 <= j < i ==> !tracks[j]
          modifies tracks
        {
          tracks[i] := false;
        }
        srcObject := null;
      }
      recognizer.StopRecognition();
      isStreaming := false;
    }

    /** `restartCamera` called at `now`: stop, wait 500 ms, start. Returns when
      the new camera request is made. */
    method RestartCamera(now: int, reply: CameraReply, stillMounted: bool) returns (requestAt: int)
      requires Valid()
      modifies this, recognizer, Tracks(srcObject)
      ensures Valid()
      ensures requestAt == now + RestartDelayMs
      ensures old(srcObject) != null ==> old(srcObject).AllStopped()
      ensures recognizer.State() == StopStep(old(recognizer.State()))
      ensures !(hasVideo && hasCanvas) ==> srcObject == null && !isStreaming
      ensures hasVideo && hasCanvas ==> !loading
      ensures hasVideo && hasCanvas && reply.Granted? && stillMounted ==>
        && isStreaming && fresh(srcObject) && srcObject.tracks.Length == reply.trackCount
        && srcObject.AllLive() && error == None
      ensures hasVideo && hasCanvas && reply.CameraFailed? ==>
        error == Some(CameraErrorText) && srcObject == null && !isStreaming
    {
      StopCamera();
      requestAt := now + RestartDelayMs;
      StartCamera(reply, stillMounted);
    }

    /** `handleVideoReady` and its repetitions: nothing without both elements
      and an initialised recognizer; otherwise poll until a check sees a frame
      size, then size the canvas to it and, when the demo is active, start
      recognition. `checks[k]` is what the check at `CheckTime(readyAt, k)` saw
      for a ready event at `readyAt`; `sizedAt` is when the canvas was sized, and
      `started` tells whether recognition was started then. */
    method HandleVideoReady(readyAt: int, checks: seq<Dims>, isActive: bool, input: TickInput)
      returns (sizedAt: Option<int>, started: bool, report: TickReport)
      modifies recognizer, canvas
      ensures var ready := FirstReadyCheck(checks);
        sizedAt == (if hasVideo && hasCanvas && old(recognizer.isInitialized) && ready.Some?
                    then Some(CheckTime(readyAt, ready.value)) else None)
      ensures var ready := FirstReadyCheck(checks);
        if !(hasVideo && hasCanvas && old(recognizer.isInitialized)) || ready.None? then
          !started && report == NoWork && unchanged(recognizer, canvas)
        else if isActive then
          started && TickOutcome(recognizer.State(), canvas.Size(), report)
                       == StartStep(old(recognizer.State()), checks[ready.value], input)
        else
          !started && report == NoWork && canvas.Size() == checks[ready.value] && unchanged(recognizer)
    {
      sizedAt, started, report := None, false, NoWork;
      if !(hasVideo && hasCanvas && recognizer.isInitialized) {
        return;
      }
      var k := 0;
      while k < |checks| && !HasFrame(checks[k])
        invariant 0 <= k <= |checks|
        invariant forall j :: 0 <= j < k ==> !HasFrame(checks[j])
      {
        k := k + 1;
      }
      if k == |checks| {
        return;
      }
      assert FirstReadyCheck(checks) == Some(k);
      canvas.width, canvas.height := checks[k].width, checks[k].height;
      sizedAt := Some(CheckTime(readyAt, k));
      if isActive {
        report := recognizer.StartRecognition(canvas, input);
        started := true;
      }
    }

    /** The activation effect, run with the current props and state. */
    method Reconcile(isActive: bool, reply: CameraReply, stillMounted: bool, input: TickInput) returns (report: TickReport)
      requires Valid()
      modifies this, recognizer, canvas, Tracks(srcObject)
      ensures Valid()
      ensures var d := ReconcileDecision(isActive, old(recognizer.isInitialized), old(isStreaming), hasVideo && hasCanvas);
        match d
        case OpenCamera =>
          && unchanged(recognizer, canvas) && report == NoWork
          && (hasVideo && hasCanvas ==> !loading)
          && (hasVideo && hasCanvas && reply.Granted? && stillMounted ==> (isStreaming && fresh(srcObject)
                && srcObject.tracks.Length == reply.trackCount && srcObject.AllLive()))
          && (hasVideo && hasCanvas && reply.CameraFailed? ==> error == Some(CameraErrorText) && !isStreaming)
        case ResumeRecognition =>
          && TickOutcome(recognizer.State(), canvas.Size(), report) == StartStep(old(recognizer.State()), old(canvas.Size()), input)
          && unchanged(this)
        case KeepAsIs =>
          unchanged(this, recognizer, canvas) && report == NoWork
        case Shutdown(_) =>
          && recognizer.State() == StopStep(old(recognizer.State())) && unchanged(canvas) && report == NoWork
          && srcObject == null && !isStreaming
          && (old(srcObject) != null ==> old(srcObject).AllStopped())
          && loading == old(loading) && error == old(error)
    {
      report := NoWork;
      if isActive && recognizer.isInitialized {
        if !isStreaming {
          StartCamera(reply, stillMounted);
        } else if hasVideo && hasCanvas {
          report := recognizer.StartRecognition(canvas, input);
        }
      } else {
        recognizer.StopRecognition();
        if isStreaming {
          StopCamera();
        }
      }
    }

    /** One scheduled tick at time `now`. A listening demo's dispatcher receives
      the easter-egg event the tick may raise, or else the passing of time; a
      demo that does not listen leaves its dispatcher alone. */
    method RunFrame(input: TickInput, now: int) returns (report: TickReport, notified: bool)
      modifies recognizer, canvas, dispatcher
      ensures TickOutcome(recognizer.State(), canvas.Size(), report) == TickStep(old(recognizer.State()), old(canvas.Size()), input)
      ensures listensForEasterEgg ==> ((dispatcher.State(), notified) ==
        EasterEgg.Step(old(dispatcher.State()), if report.easterEgg.Some? then EasterEgg.Matched(now) else EasterEgg.ClockAt(now)))
      ensures !listensForEasterEgg ==> dispatcher.State() == old(dispatcher.State()) && !notified
    {
      report := recognizer.ProcessVideoFrame(canvas, input);
      if !listensForEasterEgg {
        notified := false;
      } else if report.easterEgg.Some? {
        notified := dispatcher.OnEvent(EasterEgg.Matched(now));
      } else {
        notified := dispatcher.OnEvent(EasterEgg.ClockAt(now));
      }
    }
  }
}
