/** The recogniser as the page runs it: one object whose fields are the
    module-level variables, with one method per event handler. Each method
    updates the fields step by step as the handler does, and its contract
    ties the new fields to the matching function of the Pipeline module,
    whose lemmas state what the handlers promise and which invariant they
    keep (Pipeline.RunInv). */
module Recognizer {
  import opened Wrappers
  import opened JsText
  import opened Motion
  import opened Pipeline

  /** The `flat` vector the tick builds: two passes over the landmarks, the
      first pushing every x and the second every y. */
  method FlattenLandmarks(pts: seq<Point>) returns (flat: seq<real>)
    ensures flat == Flatten(pts)
  {
    flat := [];
    for i := 0 to |pts|
      invariant |flat| == i
      invariant forall j :: 0 <= j < i ==> flat[j] == pts[j].x
    {
      flat := flat + [pts[i].x];
    }
    for i := 0 to |pts|
      invariant |flat| == |pts| + i
      invariant forall j :: 0 <= j < |pts| ==> flat[j] == pts[j].x
      invariant forall j :: 0 <= j < i ==> flat[|pts| + j] == pts[j].y
    {
      flat := flat + [pts[i].y];
    }
    var expected := Flatten(pts);
    assert forall k :: 0 <= k < |flat| ==> flat[k] == expected[k] by {
      forall k | 0 <= k < |flat|
        ensures flat[k] == expected[k]
      {
        if k >= |pts| {
          assert flat[|pts| + (k - |pts|)] == pts[k - |pts|].y;
        }
      }
    }
  }

  lemma ConcatFramesStep(frames: seq<seq<real>>, f: nat)
    requires f < |frames|
    ensures ConcatFrames(frames[..f + 1]) == ConcatFrames(frames[..f]) + frames[f]
  {
    assert frames[..f + 1][..f] == frames[..f];
  }

  /** The loop that concatenates the 30 frames of a full clip. */
  method ClipVector(frames: seq<seq<real>>) returns (v: seq<real>)
    requires |frames| == MAX_MOTION_FRAMES
    ensures v == ConcatFrames(frames)
  {
    v := [];
    for f := 0 to MAX_MOTION_FRAMES
      invariant v == ConcatFrames(frames[..f])
    {
      ConcatFramesStep(frames, f);
      v := v + frames[f];
    }
    assert frames[..MAX_MOTION_FRAMES] == frames;
  }

  class Session {
    var mode: Mode
    var motionStartCounter: nat
    var stillFrameCounter: nat
    var suppressStatic: bool
    var currentMotionFrames: seq<seq<real>>
    var motionSent: bool
    var handStaticSince: nat
    var predictionLocked: bool
    var currentWord: string
    var sentenceBuffer: string
    var lastPredictedSign: Option<string>
    var handWasPresent: bool
    var handRemovedTime: nat
    var sentenceSpoken: bool
    var lastDetectedHandCount: nat
    var handCountStableSince: nat
    var lastLandmarksSnapshot: Option<seq<real>>
    var latestLandmarks: Option<seq<Point>>

    /** The fields as one Pipeline state. */
    function Model(): State
      reads this
    {
      State(mode, motionStartCounter, stillFrameCounter, suppressStatic,
            currentMotionFrames, motionSent, handStaticSince, predictionLocked,
            currentWord, sentenceBuffer, lastPredictedSign, handWasPresent,
            handRemovedTime, sentenceSpoken, lastDetectedHandCount,
            handCountStableSince, lastLandmarksSnapshot, latestLandmarks)
    }

    constructor ()
      ensures Model() == Init()
    {
      mode := StaticMode;
      motionStartCounter := 0;
      stillFrameCounter := 0;
      suppressStatic := false;
      currentMotionFrames := [];
      motionSent := false;
      handStaticSince := 0;
      predictionLocked := false;
      currentWord := "";
      sentenceBuffer := "";
      lastPredictedSign := None;
      handWasPresent := false;
      handRemovedTime := 0;
      sentenceSpoken := false;
      lastDetectedHandCount := 0;
      handCountStableSince := 0;
      lastLandmarksSnapshot := None;
      latestLandmarks := None;
    }

    /** The hard reset of the motion state the handlers share. */
    method ResetMotionState()
      modifies this
      ensures Model() == ResetMotion(old(Model()))
    {
      mode := StaticMode;
      suppressStatic := false;
      currentMotionFrames := [];
      motionStartCounter := 0;
      motionSent := false;
    }

    method FlushCurrentWord(now: nat)
      modifies this
      ensures Model() == FlushWord(old(Model()), now)
    {
      sentenceBuffer := sentenceBuffer + currentWord + " ";
      currentWord := "";
      handRemovedTime := now;
      sentenceSpoken := false;
      lastPredictedSign := None;
    }

    method ReleaseHandState()
      modifies this
      ensures Model() == ReleaseHand(old(Model()))
    {
      handWasPresent := false;
      latestLandmarks := None;
      predictionLocked := false;
    }

    /** `onResults`, drawing left out. */
    method OnResults(hands: seq<seq<Point>>, now: nat)
      modifies this
      ensures Model() == Results(old(Model()), hands, now)
    {
      if |hands| > 0 {
        handWasPresent := true;
        latestLandmarks := Some(if |hands| == 1 then hands[0] else hands[0] + hands[1]);
      } else {
        if handWasPresent && |currentWord| > 0 {
          FlushCurrentWord(now);
        }
        ReleaseHandState();
        ResetMotionState();
      }
    }

    method RestartStabilityState(handCount: nat, now: nat)
      modifies this
      ensures Model() == RestartStability(old(Model()), handCount, now)
    {
      lastDetectedHandCount := handCount;
      handCountStableSince := now;
      handStaticSince := 0;
      lastLandmarksSnapshot := None;
      predictionLocked := false;
    }

    /** The 200 ms tick, up to the request it sends. */
    method Tick(now: nat) returns (req: Request)
      modifies this
      ensures (Model(), req) == Pipeline.Tick(old(Model()), now)
    {
      if latestLandmarks.None? {
        return NoRequest;
      }
      var flat := FlattenLandmarks(latestLandmarks.value);
      var handCount := if |flat| == 84 then 2 else 1;
      if handCount != lastDetectedHandCount {
        RestartStabilityState(handCount, now);
        ResetMotionState();
        return NoRequest;
      }
      if now - handCountStableSince < HAND_STABILITY_TIME {
        lastLandmarksSnapshot := Some(flat);
        return NoRequest;
      }
      var motion := CalculateMotion(flat, lastLandmarksSnapshot);
      lastLandmarksSnapshot := Some(flat);
      if mode == MotionMode {
        req := MotionModeTick(flat);
      } else {
        req := StaticModeTick(now, flat, handCount, motion);
      }
    }

    /** The MOTION branch of the tick: collect up to 30 frames, then send the
        clip once. */
    method MotionModeTick(flat: seq<real>) returns (req: Request)
      modifies this
      ensures (Model(), req) == MotionTick(old(Model()), flat)
    {
      if motionSent {
        return NoRequest;
      }
      if |currentMotionFrames| < MAX_MOTION_FRAMES {
        currentMotionFrames := currentMotionFrames + [flat];
        return NoRequest;
      }
      if |currentMotionFrames| == MAX_MOTION_FRAMES && !motionSent {
        motionSent := true;
        var flatMotion := ClipVector(currentMotionFrames);
        return MotionRequest(flatMotion, 1);
      }
      return NoRequest;
    }

    method StartClipState()
      modifies this
      ensures Model() == StartClip(old(Model()))
    {
      mode := MotionMode;
      suppressStatic := true;
      currentMotionFrames := [];
      motionStartCounter := 0;
      motionSent := false;
    }

    method ClearForMotionState()
      modifies this
      ensures Model() == ClearForMotion(old(Model()))
    {
      currentWord := "";
      sentenceBuffer := "";
      lastPredictedSign := None;
      handStaticSince := 0;
      predictionLocked := false;
    }

    /** The STATIC branch of the tick: count moving ticks, switch to MOTION
        on the second, otherwise apply the still-streak, dwell and lock
        gates. */
    method StaticModeTick(now: nat, flat: seq<real>, handCount: nat, motion: Magnitude) returns (req: Request)
      modifies this
      ensures (Model(), req) == StaticTick(old(Model()), now, flat, handCount, motion)
    {
      if Moving(motion) {
        motionStartCounter := motionStartCounter + 1;
      } else {
        motionStartCounter := 0;
      }
      if motionStartCounter >= MOTION_START_TICKS {
        StartClipState();
        ClearForMotionState();
        return NoRequest;
      }
      // the mode was read by the caller and is still STATIC here
      if suppressStatic {
        return NoRequest;
      }
      if Still(motion) {
        stillFrameCounter := stillFrameCounter + 1;
      } else {
        stillFrameCounter := 0;
        handStaticSince := 0;
        return NoRequest;
      }
      if stillFrameCounter < STILL_FRAMES_REQUIRED {
        return NoRequest;
      }
      if handStaticSince == 0 {
        handStaticSince := now;
      }
      if now - handStaticSince < STATIC_TIME_REQUIRED {
        return NoRequest;
      }
      if predictionLocked {
        return NoRequest;
      }
      return StaticRequest(flat, handCount);
    }

    /** `pushMotionWord`. */
    method PushMotionWord(now: nat, word: string)
      modifies this
      ensures Model() == Pipeline.PushMotionWord(old(Model()), now, word)
    {
      if word == "" {
        return;
      }
      sentenceBuffer := sentenceBuffer + word + " ";
      handRemovedTime := now;
      sentenceSpoken := false;
      lastPredictedSign := None;
    }

    /** What follows the motion request's `await`. */
    method OnMotionReply(now: nat, reply: Reply)
      modifies this
      ensures Model() == MotionReply(old(Model()), now, reply)
    {
      if HasLabel(reply) {
        PushMotionWord(now, reply.prediction.value);
      }
      ResetMotionState();
      handStaticSince := 0;
      predictionLocked := false;
      lastLandmarksSnapshot := None;
    }

    /** What follows the static request's `await`. */
    method OnStaticReply(reply: Reply)
      modifies this
      ensures Model() == StaticReply(old(Model()), reply)
    {
      if !HasLabel(reply) {
        return;
      }
      var p := reply.prediction.value;
      if Some(p) != lastPredictedSign {
        currentWord := currentWord + p;
        lastPredictedSign := Some(p);
      }
      predictionLocked := true;
      handStaticSince := 0;
    }

    /** The 400 ms unlock timer. */
    method Unlock()
      modifies this
      ensures Model() == Pipeline.Unlock(old(Model()))
    {
      predictionLocked := false;
    }

    method ClearSentenceState()
      modifies this
      ensures Model() == ClearSentence(old(Model()))
    {
      sentenceBuffer := "";
      currentWord := "";
      lastPredictedSign := None;
      handRemovedTime := 0;
      sentenceSpoken := true;
    }

    /** The 300 ms finalisation handler; the sentence it hands on is the one
        the delayed display callback infers, translates and speaks. */
    method Poll(now: nat) returns (raw: Option<string>)
      modifies this
      ensures (Model(), raw) == Pipeline.Poll(old(Model()), now)
    {
      if mode == MotionMode {
        return None;
      }
      if sentenceBuffer == "" || sentenceSpoken || handRemovedTime == 0 {
        return None;
      }
      if now - handRemovedTime > SPEAK_DELAY {
        raw := Some(Trim(sentenceBuffer));
        ClearSentenceState();
        return raw;
      }
      return None;
    }
  }
}
