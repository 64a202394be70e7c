/** The sign-to-sentence state machine as values: one `State` holding every
    module-level variable the pipeline reads or writes, and one function per
    event that changes it. The awaited `/predict` requests split each tick in
    two: `Tick` decides whether to send a request, and the code after the
    `await` is its own event (`MotionReply`, `StaticReply`). Timers are
    events too (`Unlock` for the 400 ms lock, `Poll` for the 300 ms
    finalisation interval). Timestamps are millisecond naturals with 0
    standing for `null`: the code only ever tests them for truthiness, and 0
    is falsy as null is. */
module Pipeline {
  import opened Wrappers
  import opened JsText
  import opened Motion

  const MAX_MOTION_FRAMES: nat := 30
  const HAND_STABILITY_TIME: int := 300
  const STATIC_TIME_REQUIRED: int := 500
  const SPEAK_DELAY: int := 1500
  /** The still-frame streak the static branch waits for. */
  const STILL_FRAMES_REQUIRED: nat := 3
  /** Consecutive moving ticks that switch to MOTION mode. */
  const MOTION_START_TICKS: nat := 2

  datatype Mode = StaticMode | MotionMode

  datatype State = State(
    mode: Mode,
    motionStartCounter: nat,
    stillFrameCounter: nat,
    suppressStatic: bool,
    currentMotionFrames: seq<seq<real>>,
    motionSent: bool,
    handStaticSince: nat,
    predictionLocked: bool,
    currentWord: string,
    sentenceBuffer: string,
    lastPredictedSign: Option<string>,
    handWasPresent: bool,
    handRemovedTime: nat,
    sentenceSpoken: bool,
    lastDetectedHandCount: nat,
    handCountStableSince: nat,
    lastLandmarksSnapshot: Option<seq<real>>,
    latestLandmarks: Option<seq<Point>>)

  /** The body of a `/predict` request a tick sends. */
  datatype Request =
    | NoRequest
    | StaticRequest(landmarks: seq<real>, handCount: nat)
    | MotionRequest(landmarks: seq<real>, handCount: nat)

  /** What an awaited `/predict` call produced: the `prediction` field of the
      JSON answer, or a thrown error (network or JSON). */
  datatype Reply = Answer(prediction: Option<string>) | Failed

  /** `if (data.prediction)`: a label is used only when present and
      non-empty. */
  predicate HasLabel(r: Reply) {
    r.Answer? && r.prediction.Some? && r.prediction.value != ""
  }

  /** The values the variables are declared with. */
  function Init(): State {
    State(StaticMode, 0, 0, false, [], false, 0, false, "", "", None,
          false, 0, false, 0, 0, None, None)
  }

  /** The relations between the variables that every event keeps. */
  ghost predicate Inv(st: State) {
    && |st.currentMotionFrames| <= MAX_MOTION_FRAMES
    && (st.mode == StaticMode ==> st.currentMotionFrames == [] && !st.motionSent)
    && (st.motionSent ==> |st.currentMotionFrames| == MAX_MOTION_FRAMES)
    && (st.suppressStatic <==> st.mode == MotionMode)
    && st.motionStartCounter < MOTION_START_TICKS
    && (st.mode == MotionMode ==> st.motionStartCounter == 0 && st.handStaticSince == 0)
    && (st.handStaticSince != 0 ==> st.stillFrameCounter >= STILL_FRAMES_REQUIRED)
    && st.lastDetectedHandCount <= 2
    && (forall f :: f in st.currentMotionFrames ==> HandCount(f) == st.lastDetectedHandCount)
    && (st.sentenceSpoken ==> st.sentenceBuffer == "")
    && (st.sentenceBuffer == [] || st.sentenceBuffer[|st.sentenceBuffer| - 1] == ' ')
  }

  /** The landmark list `onResults` stores for the detected hands: the only
      hand, or the first two concatenated. */
  function Landmarks(hands: seq<seq<Point>>): seq<Point>
    requires |hands| > 0
  {
    if |hands| == 1 then hands[0] else hands[0] + hands[1]
  }

  /** The mode reset shared by hand removal, a hand-count change and the end
      of a motion request. */
  function ResetMotion(st: State): State {
    st.(mode := StaticMode, suppressStatic := false, currentMotionFrames := [],
        motionStartCounter := 0, motionSent := false)
  }

  /** `pushMotionWord`: a non-empty word and a space go onto the sentence
      buffer and the silence timer restarts; an empty word is ignored. */
  function PushMotionWord(st: State, now: nat, word: string): State {
    if word == "" then st
    else st.(sentenceBuffer := st.sentenceBuffer + word + " ", handRemovedTime := now,
             sentenceSpoken := false, lastPredictedSign := None)
  }

  /** The end of a word at hand removal: the current word and a space go
      onto the sentence buffer and the silence timer starts. */
  function FlushWord(st: State, now: nat): State {
    st.(sentenceBuffer := st.sentenceBuffer + st.currentWord + " ", currentWord := "",
        handRemovedTime := now, sentenceSpoken := false, lastPredictedSign := None)
  }

  /** What hand removal does to the presence flags and the lock. */
  function ReleaseHand(st: State): State {
    st.(handWasPresent := false, latestLandmarks := None, predictionLocked := false)
  }

  /** `onResults`, for the hands MediaPipe reported. Without hands the
      finished word (if any) moves to the buffer, and the motion state is
      reset. */
  function Results(st: State, hands: seq<seq<Point>>, now: nat): State {
    if |hands| > 0 then
      st.(handWasPresent := true, latestLandmarks := Some(Landmarks(hands)))
    else
      var flushed := if st.handWasPresent && |st.currentWord| > 0 then FlushWord(st, now) else st;
      ResetMotion(ReleaseHand(flushed))
  }

  /** The flattened motion clip sent to the classifier. */
  function ConcatFrames(frames: seq<seq<real>>): seq<real> {
    if frames == [] then [] else ConcatFrames(frames[..|frames| - 1]) + frames[|frames| - 1]
  }

  /** The magnitude a tick computes for the current landmarks. */
  function TickMotion(st: State): Magnitude
    requires st.latestLandmarks.Some?
  {
    MotionOf(Flatten(st.latestLandmarks.value), st.lastLandmarksSnapshot)
  }

  /** The switch to MOTION mode: a fresh clip is started. */
  function StartClip(st: State): State {
    st.(mode := MotionMode, suppressStatic := true, currentMotionFrames := [],
        motionStartCounter := 0, motionSent := false)
  }

  /** The switch to MOTION mode: the unfinished word and the whole sentence
      buffer are dropped, and static prediction is unlocked. */
  function ClearForMotion(st: State): State {
    st.(currentWord := "", sentenceBuffer := "", lastPredictedSign := None,
        handStaticSince := 0, predictionLocked := false)
  }

  /** The part of a tick in STATIC mode after the snapshot was taken. */
  function StaticTick(s1: State, now: nat, flat: seq<real>, handCount: nat, motion: Magnitude): (State, Request) {
    var counter := if Moving(motion) then s1.motionStartCounter + 1 else 0;
    var s2 := s1.(motionStartCounter := counter);
    if counter >= MOTION_START_TICKS then (ClearForMotion(StartClip(s2)), NoRequest)
    // the mode test of the source cannot fail here: the mode was just read
    else if s2.suppressStatic then (s2, NoRequest)
    else if !Still(motion) then (s2.(stillFrameCounter := 0, handStaticSince := 0), NoRequest)
    else
      var s3 := s2.(stillFrameCounter := s2.stillFrameCounter + 1);
      if s3.stillFrameCounter < STILL_FRAMES_REQUIRED then (s3, NoRequest)
      else
        var s4 := if s3.handStaticSince == 0 then s3.(handStaticSince := now) else s3;
        if now - s4.handStaticSince < STATIC_TIME_REQUIRED then (s4, NoRequest)
        else if s4.predictionLocked then (s4, NoRequest)
        else (s4, StaticRequest(flat, handCount))
  }

  /** The part of a tick in MOTION mode after the snapshot was taken. */
  function MotionTick(s1: State, flat: seq<real>): (State, Request) {
    if s1.motionSent then (s1, NoRequest)
    else if |s1.currentMotionFrames| < MAX_MOTION_FRAMES then
      (s1.(currentMotionFrames := s1.currentMotionFrames + [flat]), NoRequest)
    else if |s1.currentMotionFrames| == MAX_MOTION_FRAMES then
      (s1.(motionSent := true), MotionRequest(ConcatFrames(s1.currentMotionFrames), 1))
    else (s1, NoRequest)
  }

  /** A hand-count change: the new count is recorded, the stability timer
      restarts, and the snapshot, dwell timer and lock are cleared. */
  function RestartStability(st: State, handCount: nat, now: nat): State {
    st.(lastDetectedHandCount := handCount, handCountStableSince := now,
        handStaticSince := 0, lastLandmarksSnapshot := None, predictionLocked := false)
  }

  /** The 200 ms tick up to the point where it sends a request (or not). */
  function Tick(st: State, now: nat): (State, Request) {
    if st.latestLandmarks.None? then (st, NoRequest)
    else
      var flat := Flatten(st.latestLandmarks.value);
      var handCount := HandCount(flat);
      if handCount != st.lastDetectedHandCount then
        (ResetMotion(RestartStability(st, handCount, now)), NoRequest)
      else if now - st.handCountStableSince < HAND_STABILITY_TIME then
        (st.(lastLandmarksSnapshot := Some(flat)), NoRequest)
      else
        var motion := MotionOf(flat, st.lastLandmarksSnapshot);
        var s1 := st.(lastLandmarksSnapshot := Some(flat));
        if s1.mode == MotionMode then MotionTick(s1, flat)
        else StaticTick(s1, now, flat, handCount, motion)
  }

  /** After a motion request, whatever its outcome: besides the motion reset,
      the dwell timer, the lock and the snapshot are cleared. */
  function AfterMotion(st: State): State {
    st.(handStaticSince := 0, predictionLocked := false, lastLandmarksSnapshot := None)
  }

  /** The code after the motion request's `await`: the label (if any) is
      pushed as a word, and whatever the outcome the motion state is reset. */
  function MotionReply(st: State, now: nat, reply: Reply): State {
    var pushed := if HasLabel(reply) then PushMotionWord(st, now, reply.prediction.value) else st;
    AfterMotion(ResetMotion(pushed))
  }

  /** The code after the static request's `await`: a new label is appended to
      the current word, and any label locks prediction and restarts the
      dwell timer. No label, or a failure, changes nothing. */
  function StaticReply(st: State, reply: Reply): State {
    if !HasLabel(reply) then st
    else
      var p := reply.prediction.value;
      var appended :=
        if Some(p) != st.lastPredictedSign then
          st.(currentWord := st.currentWord + p, lastPredictedSign := Some(p))
        else st;
      appended.(predictionLocked := true, handStaticSince := 0)
  }

  /** The 400 ms timer a static label starts. */
  function Unlock(st: State): State {
    st.(predictionLocked := false)
  }

  /** Whether the 300 ms finalisation handler acts at time now. */
  predicate PollFires(st: State, now: nat) {
    && st.mode == StaticMode
    && st.sentenceBuffer != ""
    && !st.sentenceSpoken
    && st.handRemovedTime != 0
    && now - st.handRemovedTime > SPEAK_DELAY
  }

  /** The reset after a sentence has been handed on. */
  function ClearSentence(st: State): State {
    st.(sentenceBuffer := "", currentWord := "", lastPredictedSign := None,
        handRemovedTime := 0, sentenceSpoken := true)
  }

  /** The 300 ms finalisation handler: when it fires it hands on the trimmed
      buffer (the raw sentence that is inferred, translated and spoken) and
      clears the sentence state. */
  function Poll(st: State, now: nat): (State, Option<string>) {
    if st.mode == MotionMode then (st, None)
    else if st.sentenceBuffer == "" || st.sentenceSpoken || st.handRemovedTime == 0 then (st, None)
    else if now - st.handRemovedTime > SPEAK_DELAY then
      (ClearSentence(st), Some(Trim(st.sentenceBuffer)))
    else (st, None)
  }

  /** Everything that can happen to the pipeline. */
  datatype Event =
    | HandsSeen(hands: seq<seq<Point>>, at: nat)
    | TickAt(at: nat)
    | MotionReplyAt(at: nat, motionReply: Reply)
    | StaticReplyArrives(staticReply: Reply)
    | UnlockFires
    | PollAt(at: nat)

  function Step(st: State, e: Event): State {
    match e
    case HandsSeen(hands, now) => Results(st, hands, now)
    case TickAt(now) => Tick(st, now).0
    case MotionReplyAt(now, r) => MotionReply(st, now, r)
    case StaticReplyArrives(r) => StaticReply(st, r)
    case UnlockFires => Unlock(st)
    case PollAt(now) => Poll(st, now).0
  }

  function Run(st: State, es: seq<Event>): State
    decreases |es|
  {
    if es == [] then st else Run(Step(st, es[0]), es[1..])
  }

  /** A run of ticks with nothing else happening in between. */
  function Ticks(st: State, nows: seq<nat>): (State, seq<Request>)
    decreases |nows|
  {
    if nows == [] then (st, [])
    else
      var (s1, r) := Tick(st, nows[0]);
      var (s2, rs) := Ticks(s1, nows[1..]);
      (s2, [r] + rs)
  }

  function CountMotionRequests(rs: seq<Request>): nat {
    if rs == [] then 0
    else (if rs[0].MotionRequest? then 1 else 0) + CountMotionRequests(rs[1..])
  }

  /** A run of finalisation polls with nothing else happening in between. */
  function Polls(st: State, nows: seq<nat>): (State, seq<Option<string>>)
    decreases |nows|
  {
    if nows == [] then (st, [])
    else
      var (s1, o) := Poll(st, nows[0]);
      var (s2, os) := Polls(s1, nows[1..]);
      (s2, [o] + os)
  }

  function CountSpoken(os: seq<Option<string>>): nat {
    if os == [] then 0 else (if os[0].Some? then 1 else 0) + CountSpoken(os[1..])
  }

  /** The request an event sends: only a tick sends one. */
  function StepRequest(st: State, e: Event): Request {
    match e
    case TickAt(now) => Tick(st, now).1
    case _ => NoRequest
  }

  /** The sentence an event hands on: only the finalisation handler does. */
  function StepSpoken(st: State, e: Event): Option<string> {
    match e
    case PollAt(now) => Poll(st, now).1
    case _ => None
  }

  /** The requests a run of events sends, one entry per event. */
  function RunRequests(st: State, es: seq<Event>): seq<Request>
    decreases |es|
  {
    if es == [] then [] else [StepRequest(st, es[0])] + RunRequests(Step(st, es[0]), es[1..])
  }

  /** The sentences a run of events hands on, one entry per event. */
  function RunSpoken(st: State, es: seq<Event>): seq<Option<string>>
    decreases |es|
  {
    if es == [] then [] else [StepSpoken(st, es[0])] + RunSpoken(Step(st, es[0]), es[1..])
  }

  /** The events that unmark a sent clip: hand removal, a tick that sees a
      new hand count, and the motion reply. */
  predicate ClearsClip(st: State, e: Event) {
    match e
    case HandsSeen(hands, _) => hands == []
    case TickAt(_) =>
      st.latestLandmarks.Some? && HandCount(Flatten(st.latestLandmarks.value)) != st.lastDetectedHandCount
    case MotionReplyAt(_, _) => true
    case _ => false
  }

  /** No event of the run, in the state it meets, unmarks a sent clip. */
  predicate KeepsClip(st: State, es: seq<Event>)
    decreases |es|
  {
    es == [] || (!ClearsClip(st, es[0]) && KeepsClip(Step(st, es[0]), es[1..]))
  }

  /** The events that put a word on the sentence buffer: hand removal with
      an unfinished word, and a motion reply with a label. */
  predicate AddsWord(st: State, e: Event) {
    match e
    case HandsSeen(hands, _) => hands == [] && st.handWasPresent && |st.currentWord| > 0
    case MotionReplyAt(_, r) => HasLabel(r)
    case _ => false
  }

  /** No event of the run, in the state it meets, adds a word. */
  predicate NoNewWords(st: State, es: seq<Event>)
    decreases |es|
  {
    es == [] || (!AddsWord(st, es[0]) && NoNewWords(Step(st, es[0]), es[1..]))
  }

  // ---------------------------------------------------------------------
  // The invariant
  // ---------------------------------------------------------------------

  lemma InitInv()
    ensures Inv(Init())
  {
  }

  lemma ResultsInv(st: State, hands: seq<seq<Point>>, now: nat)
    requires Inv(st)
    ensures Inv(Results(st, hands, now))
  {
    if |hands| == 0 && st.handWasPresent && |st.currentWord| > 0 {
      var b := st.sentenceBuffer + st.currentWord + " ";
      assert b[|b| - 1] == ' ';
    }
  }

  lemma StaticTickInv(s1: State, now: nat, flat: seq<real>, motion: Magnitude)
    requires Inv(s1) && s1.mode == StaticMode
    ensures Inv(StaticTick(s1, now, flat, HandCount(flat), motion).0)
  {
    var counter := if Moving(motion) then s1.motionStartCounter + 1 else 0;
    var s2 := s1.(motionStartCounter := counter);
    if counter >= MOTION_START_TICKS {
    } else if !Still(motion) {
      assert Inv(s2.(stillFrameCounter := 0, handStaticSince := 0));
    } else {
      var s3 := s2.(stillFrameCounter := s2.stillFrameCounter + 1);
      assert Inv(s3);
      if s3.stillFrameCounter >= STILL_FRAMES_REQUIRED && s3.handStaticSince == 0 {
        assert Inv(s3.(handStaticSince := now));
      }
    }
  }

  lemma TickInv(st: State, now: nat)
    requires Inv(st)
    ensures Inv(Tick(st, now).0)
  {
    if st.latestLandmarks.Some? {
      var flat := Flatten(st.latestLandmarks.value);
      if HandCount(flat) == st.lastDetectedHandCount && now - st.handCountStableSince >= HAND_STABILITY_TIME {
        var s1 := st.(lastLandmarksSnapshot := Some(flat));
        assert Inv(s1);
        if st.mode == StaticMode {
          StaticTickInv(s1, now, flat, MotionOf(flat, st.lastLandmarksSnapshot));
        } else if !st.motionSent && |st.currentMotionFrames| < MAX_MOTION_FRAMES {
          var frames := st.currentMotionFrames + [flat];
          assert forall f :: f in frames ==> f in st.currentMotionFrames || f == flat;
          assert Inv(s1.(currentMotionFrames := frames));
        }
      }
    }
  }

  lemma MotionReplyInv(st: State, now: nat, reply: Reply)
    requires Inv(st)
    ensures Inv(MotionReply(st, now, reply))
  {
  }

  lemma StaticReplyInv(st: State, reply: Reply)
    requires Inv(st)
    ensures Inv(StaticReply(st, reply))
  {
    if HasLabel(reply) {
      var p := reply.prediction.value;
      var appended :=
        if Some(p) != st.lastPredictedSign then
          st.(currentWord := st.currentWord + p, lastPredictedSign := Some(p))
        else st;
      assert Inv(appended);
    }
  }

  lemma PollInv(st: State, now: nat)
    requires Inv(st)
    ensures Inv(Poll(st, now).0)
  {
  }

  lemma StepInv(st: State, e: Event)
    requires Inv(st)
    ensures Inv(Step(st, e))
  {
    match e
    case HandsSeen(hands, now) => ResultsInv(st, hands, now);
    case TickAt(now) => TickInv(st, now);
    case MotionReplyAt(now, r) => MotionReplyInv(st, now, r);
    case StaticReplyArrives(r) => StaticReplyInv(st, r);
    case UnlockFires =>
    case PollAt(now) => PollInv(st, now);
  }

  /** Whatever happens, in whatever order, the invariant holds; in
      particular the motion clip never holds more than 30 frames, and the
      buffer is empty or ends with the space that follows each word. */
  lemma {:induction false} RunInv(st: State, es: seq<Event>)
    requires Inv(st)
    ensures Inv(Run(st, es))
    ensures |Run(st, es).currentMotionFrames| <= MAX_MOTION_FRAMES
    decreases |es|
  {
    if es != [] {
      StepInv(st, es[0]);
      RunInv(Step(st, es[0]), es[1..]);
    }
  }

  // ---------------------------------------------------------------------
  // The tick
  // ---------------------------------------------------------------------

  /** A tick that sees a different hand count resets the motion state, nulls
      the snapshot, unlocks, restarts the stability timer and sends nothing;
      the still-frame streak and the sentence state are left alone. */
  lemma HandCountChangeResets(st: State, now: nat)
    requires st.latestLandmarks.Some?
    requires HandCount(Flatten(st.latestLandmarks.value)) != st.lastDetectedHandCount
    ensures var (s, r) := Tick(st, now);
      && r == NoRequest
      && s.lastDetectedHandCount == HandCount(Flatten(st.latestLandmarks.value))
      && s.handCountStableSince == now
      && s.mode == StaticMode && !s.suppressStatic && s.currentMotionFrames == []
      && s.motionStartCounter == 0 && !s.motionSent && !s.predictionLocked
      && s.handStaticSince == 0 && s.lastLandmarksSnapshot == None
      && s.stillFrameCounter == st.stillFrameCounter
      && s.currentWord == st.currentWord && s.sentenceBuffer == st.sentenceBuffer
      && s.lastPredictedSign == st.lastPredictedSign
  {
  }

  /** The conditions under which a tick gets past the hand-count and
      stability checks and computes a magnitude. */
  predicate Settled(st: State, now: nat) {
    && st.latestLandmarks.Some?
    && HandCount(Flatten(st.latestLandmarks.value)) == st.lastDetectedHandCount
    && now - st.handCountStableSince >= HAND_STABILITY_TIME
  }

  /** Within 300 ms of a hand-count change a tick only takes a snapshot. */
  lemma UnsettledTickOnlySnapshots(st: State, now: nat)
    requires st.latestLandmarks.Some?
    requires HandCount(Flatten(st.latestLandmarks.value)) == st.lastDetectedHandCount
    requires now - st.handCountStableSince < HAND_STABILITY_TIME
    ensures Tick(st, now) == (st.(lastLandmarksSnapshot := Some(Flatten(st.latestLandmarks.value))), NoRequest)
  {
  }

  /** In STATIC mode the mode switches to MOTION exactly on a settled tick
      whose magnitude is above the threshold (or infinite, for a missing
      snapshot) following one such tick; the switch clears the unfinished
      word, the whole sentence buffer and the clip. */
  lemma EnteringMotion(st: State, now: nat)
    requires Inv(st) && st.mode == StaticMode
    ensures var s := Tick(st, now).0;
      s.mode == MotionMode <==>
        Settled(st, now) && Moving(TickMotion(st)) && st.motionStartCounter == 1
    ensures var s := Tick(st, now).0;
      s.mode == MotionMode ==>
        && s.currentWord == "" && s.sentenceBuffer == "" && s.lastPredictedSign == None
        && s.currentMotionFrames == [] && !s.motionSent && s.suppressStatic
        && s.motionStartCounter == 0 && Tick(st, now).1 == NoRequest
  {
  }

  /** In STATIC mode a settled tick counts moving ticks, and any other
      magnitude (still, NaN, or exactly the threshold) resets the count. */
  lemma MotionStartCounting(st: State, now: nat)
    requires Inv(st) && st.mode == StaticMode && Settled(st, now)
    ensures var s := Tick(st, now).0;
      && (!Moving(TickMotion(st)) ==> s.motionStartCounter == 0)
      && (Moving(TickMotion(st)) && st.motionStartCounter == 0 ==>
            s.motionStartCounter == 1 && s.mode == StaticMode)
  {
  }

  /** A settled STATIC tick whose magnitude is not below the threshold breaks
      the still streak and clears the dwell timer. */
  lemma StillnessBroken(st: State, now: nat)
    requires Inv(st) && st.mode == StaticMode && Settled(st, now)
    requires !Still(TickMotion(st))
    ensures Tick(st, now).0.stillFrameCounter == 0 || Tick(st, now).0.mode == MotionMode
    ensures Tick(st, now).0.handStaticSince == 0
    ensures Tick(st, now).1 == NoRequest
  {
  }

  /** A tick sends a static classification request exactly when it is a
      settled STATIC tick, static prediction is not suppressed, the magnitude
      is below the threshold, this still tick makes at least three, the dwell
      timer was already running for at least 500 ms, and prediction is not
      locked. The request carries the current vector and its hand count. */
  lemma StaticGate(st: State, now: nat)
    requires Inv(st)
    ensures Tick(st, now).1.StaticRequest? <==>
      && Settled(st, now)
      && st.mode == StaticMode && !st.suppressStatic
      && Still(TickMotion(st))
      && st.stillFrameCounter + 1 >= STILL_FRAMES_REQUIRED
      && st.handStaticSince != 0 && now - st.handStaticSince >= STATIC_TIME_REQUIRED
      && !st.predictionLocked
    ensures Tick(st, now).1.StaticRequest? ==>
      var flat := Flatten(st.latestLandmarks.value);
      Tick(st, now).1 == StaticRequest(flat, HandCount(flat))
  {
  }

  /** In MOTION mode, before the clip is sent, a settled tick appends the
      current vector to a clip of fewer than 30 frames and sends nothing. */
  lemma ClipGrows(st: State, now: nat)
    requires Inv(st) && st.mode == MotionMode && !st.motionSent && Settled(st, now)
    requires |st.currentMotionFrames| < MAX_MOTION_FRAMES
    ensures var (s, r) := Tick(st, now);
      && r == NoRequest && s.mode == MotionMode
      && s.currentMotionFrames == st.currentMotionFrames + [Flatten(st.latestLandmarks.value)]
  {
  }

  /** A tick sends the motion clip exactly when it is a settled MOTION tick,
      the clip holds 30 frames and it has not been sent; the request carries
      the 30 frames in order with a hand count of 1, and marks the clip as
      sent. */
  lemma MotionSendOnce(st: State, now: nat)
    requires Inv(st)
    ensures Tick(st, now).1.MotionRequest? <==>
      Settled(st, now) && st.mode == MotionMode && !st.motionSent
      && |st.currentMotionFrames| == MAX_MOTION_FRAMES
    ensures Tick(st, now).1.MotionRequest? ==>
      && Tick(st, now).1 == MotionRequest(ConcatFrames(st.currentMotionFrames), 1)
      && Tick(st, now).0.motionSent
  {
  }

  /** While the clip is out and the hand count holds, ticks send nothing and
      the clip stays marked as sent. */
  lemma SentClipBlocksTick(st: State, now: nat)
    requires Inv(st) && st.motionSent && st.latestLandmarks.Some?
    requires HandCount(Flatten(st.latestLandmarks.value)) == st.lastDetectedHandCount
    ensures var (s, r) := Tick(st, now);
      && r == NoRequest && s.motionSent && Inv(s)
      && s.latestLandmarks == st.latestLandmarks
      && s.lastDetectedHandCount == st.lastDetectedHandCount
  {
    TickInv(st, now);
  }

  lemma {:induction false} SentClipBlocksTicks(st: State, nows: seq<nat>)
    requires Inv(st) && st.motionSent && st.latestLandmarks.Some?
    requires HandCount(Flatten(st.latestLandmarks.value)) == st.lastDetectedHandCount
    ensures CountMotionRequests(Ticks(st, nows).1) == 0
    decreases |nows|
  {
    if nows != [] {
      SentClipBlocksTick(st, nows[0]);
      SentClipBlocksTicks(Tick(st, nows[0]).0, nows[1..]);
    }
  }

  /** However many ticks run while the landmarks stay as they are (no new
      camera frame and no reply in between), at most one motion request is
      sent. */
  lemma {:induction false} OneMotionRequestPerRun(st: State, nows: seq<nat>)
    requires Inv(st)
    ensures CountMotionRequests(Ticks(st, nows).1) <= 1
    decreases |nows|
  {
    if nows != [] {
      var (s1, r) := Tick(st, nows[0]);
      TickInv(st, nows[0]);
      if r.MotionRequest? {
        MotionSendOnce(st, nows[0]);
        SentClipBlocksTicks(s1, nows[1..]);
      } else {
        OneMotionRequestPerRun(s1, nows[1..]);
      }
    }
  }

  // ---------------------------------------------------------------------
  // Replies and the sentence buffer
  // ---------------------------------------------------------------------

  /** Whether the motion request succeeded, failed or returned no label, its
      reply leaves STATIC mode with an empty unsent clip, no snapshot and
      prediction unlocked; a label goes onto the buffer followed by a
      space. */
  lemma MotionReplyResets(st: State, now: nat, reply: Reply)
    ensures var s := MotionReply(st, now, reply);
      && s.mode == StaticMode && !s.suppressStatic && s.currentMotionFrames == []
      && !s.motionSent && s.motionStartCounter == 0 && s.handStaticSince == 0
      && !s.predictionLocked && s.lastLandmarksSnapshot == None
      && s.sentenceBuffer ==
           (if HasLabel(reply) then st.sentenceBuffer + reply.prediction.value + " "
            else st.sentenceBuffer)
      && s.currentWord == st.currentWord
  {
  }

  /** A static label is appended to the current word only when it differs
      from the previous one; any label locks prediction and clears the dwell
      timer; no label, or a failure, changes nothing. */
  lemma StaticReplyEffect(st: State, reply: Reply)
    ensures var s := StaticReply(st, reply);
      if HasLabel(reply) then
        var p := reply.prediction.value;
        && s.currentWord == (if st.lastPredictedSign == Some(p) then st.currentWord else st.currentWord + p)
        && s.lastPredictedSign == Some(p)
        && s.predictionLocked && s.handStaticSince == 0
        && s.sentenceBuffer == st.sentenceBuffer
      else s == st
  {
  }

  /** A repeated label is absorbed: the same reply twice has the effect of
      one. */
  lemma RepeatedLabelOnce(st: State, reply: Reply)
    ensures StaticReply(StaticReply(st, reply), reply) == StaticReply(st, reply)
  {
  }

  /** Hand removal moves a non-empty current word (after a hand was present)
      onto the buffer followed by a space and starts the silence timer; it
      always resets the motion state and unlocks, and leaves the still streak
      alone. */
  lemma HandRemoval(st: State, now: nat)
    ensures var s := Results(st, [], now);
      && (st.handWasPresent && st.currentWord != "" ==>
            && s.sentenceBuffer == st.sentenceBuffer + st.currentWord + " "
            && s.currentWord == "" && s.handRemovedTime == now
            && !s.sentenceSpoken && s.lastPredictedSign == None)
      && (!(st.handWasPresent && st.currentWord != "") ==>
            && s.sentenceBuffer == st.sentenceBuffer && s.currentWord == st.currentWord
            && s.handRemovedTime == st.handRemovedTime)
      && !s.handWasPresent && s.latestLandmarks == None && !s.predictionLocked
      && s.mode == StaticMode && !s.suppressStatic && s.currentMotionFrames == []
      && s.motionStartCounter == 0 && !s.motionSent
      && s.stillFrameCounter == st.stillFrameCounter
  {
  }

  /** `pushMotionWord` appends a non-empty word and a space and starts the
      silence timer; an empty word changes nothing. */
  lemma PushMotionWordEffect(st: State, now: nat, word: string)
    ensures var s := PushMotionWord(st, now, word);
      if word == "" then s == st
      else
        && s.sentenceBuffer == st.sentenceBuffer + word + " "
        && s.handRemovedTime == now && !s.sentenceSpoken && s.lastPredictedSign == None
        && s.currentWord == st.currentWord
  {
  }

  // ---------------------------------------------------------------------
  // Finalisation
  // ---------------------------------------------------------------------

  /** The handler acts exactly when PollFires holds; it then hands on the
      trimmed buffer and clears the buffer, the current word, the last sign
      and the silence timer, and sets the spoken latch. */
  lemma PollEffect(st: State, now: nat)
    ensures Poll(st, now).1.Some? <==> PollFires(st, now)
    ensures PollFires(st, now) ==>
      var s := Poll(st, now).0;
      && Poll(st, now).1 == Some(Trim(st.sentenceBuffer))
      && s.sentenceBuffer == "" && s.currentWord == "" && s.lastPredictedSign == None
      && s.handRemovedTime == 0 && s.sentenceSpoken
    ensures !PollFires(st, now) ==> Poll(st, now).0 == st
  {
  }

  /** Polls on their own speak at most once. */
  lemma {:induction false} PollsSpeakOnce(st: State, nows: seq<nat>)
    ensures CountSpoken(Polls(st, nows).1) <= 1
    decreases |nows|
  {
    if nows != [] {
      var (s1, o) := Poll(st, nows[0]);
      if o.Some? {
        SpokenLatchHolds(s1, nows[1..]);
      } else {
        PollsSpeakOnce(s1, nows[1..]);
      }
    }
  }

  /** A sent clip stays sent through any event that does not unmark it, and
      no such event sends another clip. */
  lemma SentClipStays(st: State, e: Event)
    requires Inv(st) && st.motionSent && !ClearsClip(st, e)
    ensures Step(st, e).motionSent && !StepRequest(st, e).MotionRequest?
  {
  }

  lemma {:induction false} SentClipBlocksRun(st: State, es: seq<Event>)
    requires Inv(st) && st.motionSent && KeepsClip(st, es)
    ensures CountMotionRequests(RunRequests(st, es)) == 0
    decreases |es|
  {
    if es != [] {
      SentClipStays(st, es[0]);
      StepInv(st, es[0]);
      SentClipBlocksRun(Step(st, es[0]), es[1..]);
    }
  }

  /** In any interleaving of camera frames, ticks, replies and timers, at
      most one motion clip is sent until hand removal, a hand-count change
      or the motion reply unmarks it. */
  lemma {:induction false} OneMotionRequestPerClip(st: State, es: seq<Event>)
    requires Inv(st) && KeepsClip(st, es)
    ensures CountMotionRequests(RunRequests(st, es)) <= 1
    decreases |es|
  {
    if es != [] {
      var e := es[0];
      StepInv(st, e);
      if StepRequest(st, e).MotionRequest? {
        MotionSendOnce(st, e.at);
        SentClipBlocksRun(Step(st, e), es[1..]);
      } else {
        OneMotionRequestPerClip(Step(st, e), es[1..]);
      }
    }
  }

  /** The spoken latch survives every event that adds no word, and no such
      event hands on a sentence while it is set. */
  lemma SpokenStays(st: State, e: Event)
    requires st.sentenceSpoken && !AddsWord(st, e)
    ensures Step(st, e).sentenceSpoken && StepSpoken(st, e).None?
  {
    match e
    case HandsSeen(hands, now) =>
    case TickAt(now) =>
      if st.latestLandmarks.Some? {
        var flat := Flatten(st.latestLandmarks.value);
        var s1 := st.(lastLandmarksSnapshot := Some(flat));
        if HandCount(flat) == st.lastDetectedHandCount && now - st.handCountStableSince >= HAND_STABILITY_TIME {
          if s1.mode == StaticMode {
            assert Tick(st, now) == StaticTick(s1, now, flat, HandCount(flat), MotionOf(flat, st.lastLandmarksSnapshot));
          }
        }
      }
    case MotionReplyAt(now, r) =>
    case StaticReplyArrives(r) =>
    case UnlockFires =>
    case PollAt(now) =>
  }

  lemma {:induction false} SpokenLatchHoldsInRun(st: State, es: seq<Event>)
    requires st.sentenceSpoken && NoNewWords(st, es)
    ensures CountSpoken(RunSpoken(st, es)) == 0
    decreases |es|
  {
    if es != [] {
      SpokenStays(st, es[0]);
      SpokenLatchHoldsInRun(Step(st, es[0]), es[1..]);
    }
  }

  /** In any interleaving of events in which no word enters the buffer, at
      most one sentence is handed on to be spoken. */
  lemma {:induction false} OneSentencePerWords(st: State, es: seq<Event>)
    requires NoNewWords(st, es)
    ensures CountSpoken(RunSpoken(st, es)) <= 1
    decreases |es|
  {
    if es != [] {
      var e := es[0];
      if StepSpoken(st, e).Some? {
        PollEffect(st, e.at);
        SpokenLatchHoldsInRun(Step(st, e), es[1..]);
      } else {
        OneSentencePerWords(Step(st, e), es[1..]);
      }
    }
  }

  lemma {:induction false} SpokenLatchHolds(st: State, nows: seq<nat>)
    requires st.sentenceSpoken
    ensures CountSpoken(Polls(st, nows).1) == 0
    ensures Polls(st, nows).0 == st
    decreases |nows|
  {
    if nows != [] {
      SpokenLatchHolds(st, nows[1..]);
    }
  }
}
