/** The three parser callbacks of `CuvidDecode` (sequence, decode, display),
    each a transition of the session state that also yields the integer the
    callback hands back to the parser, and the run of callbacks a single
    `cuvidParseVideoData` call may fire. */
module Callbacks {
  import opened Cuda
  import opened Cuvid
  import opened Session

  /** A callback's effect: the new session and its return value. */
  datatype Handled = Handled(session: Session, ret: int)

  /** A callback the parser invokes, with the engine's verdict for the
      decode call it makes in turn. */
  datatype Callback =
    | OnSequence(format: VideoFormat)
    | OnDecode(pic: PicParams, outcome: EngineOutcome)
    | OnDisplay(info: DispInfo)

  /** Everything but the cached format and the error flag is left alone. */
  predicate OnlyFormatAndError(a: Session, b: Session)
  {
    a.(createInfo := b.createInfo, error := b.error) == b
  }

  /** `DecVideoSequence`: accepts a format equal to the cached one; otherwise
      records the new format and, unless format changes are tolerated, raises
      the sticky error.  A change is reported with 0 either way. */
  function DecVideoSequence(s: Session, f: VideoFormat): (h: Handled)
    ensures h.ret == 1 <==> f == CachedFormat(s.createInfo)
    ensures h.ret == 0 || h.ret == 1
    ensures h.ret == 1 ==> h.session == s
    ensures CachedFormat(h.session.createInfo) == f
    ensures SameBesidesFormat(h.session.createInfo, s.createInfo)
    ensures h.session.error <==> s.error || (h.ret == 0 && !s.ignoreFormatChange)
    ensures OnlyFormatAndError(h.session, s)
  {
    if f != CachedFormat(s.createInfo) then
      var s' := s.(createInfo := WithFormat(s.createInfo, f));
      Handled(if s.ignoreFormatChange then s' else s'.(error := true), 0)
    else
      Handled(s, 1)
  }

  /** `DecPictureDecode`: waits on the target slot, then asks the decoder;
      any failure, a trapped fault included, raises the sticky error. */
  function DecPictureDecode(s: Session, pic: PicParams, outcome: EngineOutcome): (h: Handled)
    requires s.hasQueue
    ensures h.ret == 1 <==> outcome == Returned(CudaSuccess)
    ensures h.ret == 0 || h.ret == 1
    ensures h.session.error <==> s.error || h.ret == 0
    ensures h.session.trace == s.trace + [QueueWait(pic.currPicIdx), DecoderDecode(pic.currPicIdx)]
    ensures h.session.(error := s.error, trace := s.trace) == s
  {
    var s' := s.(trace := s.trace + [QueueWait(pic.currPicIdx), DecoderDecode(pic.currPicIdx)]);
    var r := Trapped(outcome);
    Handled(if r != CudaSuccess then s'.(error := true) else s', if r == CudaSuccess then 1 else 0)
  }

  /** `DecPictureDisplay`: hands the picture to the frame queue and counts it. */
  function DecPictureDisplay(s: Session, info: DispInfo): (h: Handled)
    requires s.hasQueue
    ensures h.ret == 1
    ensures h.session.decodedFrames == s.decodedFrames + 1
    ensures h.session.trace == s.trace + [QueueEnqueue(info)]
    ensures h.session.(decodedFrames := s.decodedFrames, trace := s.trace) == s
  {
    Handled(s.(decodedFrames := s.decodedFrames + 1, trace := s.trace + [QueueEnqueue(info)]), 1)
  }

  /** The decode and display callbacks dereference the frame queue. */
  predicate UsesQueue(cb: Callback)
  {
    !cb.OnSequence?
  }

  /** The calls a callback makes: waits, decodes and enqueues. */
  predicate IsCallbackCall(c: Call)
  {
    c.QueueWait? || c.DecoderDecode? || c.QueueEnqueue?
  }

  /** Routes a callback to its handler, as the static `Handle…` adapters do. */
  function Dispatch(s: Session, cb: Callback): (h: Handled)
    requires UsesQueue(cb) ==> s.hasQueue
    ensures SameHandlesAndPolicy(h.session, s)
    ensures s.error ==> h.session.error
    ensures s.trace <= h.session.trace
    ensures forall k :: |s.trace| <= k < |h.session.trace| ==> IsCallbackCall(h.session.trace[k])
    ensures h.ret == 0 || h.ret == 1
    ensures cb.OnDisplay? ==> h.ret == 1
    ensures cb.OnDecode? ==> (h.ret == 1 <==> cb.outcome == Returned(CudaSuccess))
  {
    match cb
    case OnSequence(f) => DecVideoSequence(s, f)
    case OnDecode(pic, outcome) => DecPictureDecode(s, pic, outcome)
    case OnDisplay(info) => DecPictureDisplay(s, info)
  }

  /** The callback raised the error flag when it returned 0: a failed decode
      always does, a reported format change only when changes are not
      tolerated. */
  predicate RaisesError(cb: Callback, ret: int, ignoreFormatChange: bool)
  {
    ret == 0 && (cb.OnDecode? || !ignoreFormatChange)
  }

  /** The same handles held and the same format-change tolerance. */
  predicate SameHandlesAndPolicy(a: Session, b: Session)
  {
    && a.hasQueue == b.hasQueue
    && a.hasParser == b.hasParser
    && a.hasDecoder == b.hasDecoder
    && a.ignoreFormatChange == b.ignoreFormatChange
  }

  /** The callbacks one parse call fires, the session after them, and the
      value each returned to the parser. */
  datatype Dispatched = Dispatched(session: Session, replies: seq<int>)

  predicate QueueNeeded(cbs: seq<Callback>)
  {
    exists i :: 0 <= i < |cbs| && UsesQueue(cbs[i])
  }

  /** Runs the callbacks of one parse call in the order the parser fires them. */
  function RunCallbacks(s: Session, cbs: seq<Callback>): (r: Dispatched)
    requires QueueNeeded(cbs) ==> s.hasQueue
    ensures |r.replies| == |cbs|
    ensures SameHandlesAndPolicy(r.session, s)
    ensures s.error ==> r.session.error
    ensures s.trace <= r.session.trace
    ensures forall k :: |s.trace| <= k < |r.session.trace| ==> IsCallbackCall(r.session.trace[k])
    ensures forall i :: 0 <= i < |cbs| ==> r.replies[i] == 0 || r.replies[i] == 1
    ensures forall i :: 0 <= i < |cbs| && cbs[i].OnDisplay? ==> r.replies[i] == 1
    ensures forall i :: 0 <= i < |cbs| && cbs[i].OnDecode? ==>
              (r.replies[i] == 1 <==> cbs[i].outcome == Returned(CudaSuccess))
    decreases |cbs|
  {
    if cbs == [] then Dispatched(s, [])
    else
      var h := Dispatch(s, cbs[0]);
      assert QueueNeeded(cbs[1..]) ==> QueueNeeded(cbs);
      var rest := RunCallbacks(h.session, cbs[1..]);
      var replies := [h.ret] + rest.replies;
      assert forall i :: 0 < i < |cbs| ==> replies[i] == rest.replies[i - 1] && cbs[i] == cbs[1..][i - 1];
      Dispatched(rest.session, replies)
  }

  /** Number of display callbacks in a run. */
  function DisplayCount(cbs: seq<Callback>): nat
  {
    if cbs == [] then 0 else (if cbs[0].OnDisplay? then 1 else 0) + DisplayCount(cbs[1..])
  }

  /** After a run the error flag is set exactly when it was set before or some
      callback in the run raised it; nothing in a run clears it. */
  lemma {:induction false} RunErrorExactly(s: Session, cbs: seq<Callback>)
    requires QueueNeeded(cbs) ==> s.hasQueue
    ensures var r := RunCallbacks(s, cbs);
      r.session.error <==>
        s.error || exists i :: 0 <= i < |cbs| && RaisesError(cbs[i], r.replies[i], s.ignoreFormatChange)
    decreases |cbs|
  {
    if cbs != [] {
      var r := RunCallbacks(s, cbs);
      var h := Dispatch(s, cbs[0]);
      assert QueueNeeded(cbs[1..]) ==> QueueNeeded(cbs);
      var rest := RunCallbacks(h.session, cbs[1..]);
      RunErrorExactly(h.session, cbs[1..]);
      assert r.replies == [h.ret] + rest.replies;
      assert h.session.error <==> s.error || RaisesError(cbs[0], h.ret, s.ignoreFormatChange);
      if exists j :: 0 <= j < |cbs[1..]| && RaisesError(cbs[1..][j], rest.replies[j], s.ignoreFormatChange) {
        var j :| 0 <= j < |cbs[1..]| && RaisesError(cbs[1..][j], rest.replies[j], s.ignoreFormatChange);
        assert RaisesError(cbs[j + 1], r.replies[j + 1], s.ignoreFormatChange);
      }
      if exists i :: 0 <= i < |cbs| && RaisesError(cbs[i], r.replies[i], s.ignoreFormatChange) {
        var i :| 0 <= i < |cbs| && RaisesError(cbs[i], r.replies[i], s.ignoreFormatChange);
        if i > 0 {
          assert RaisesError(cbs[1..][i - 1], rest.replies[i - 1], s.ignoreFormatChange);
        }
      }
    }
  }

  /** The decoded-frame counter grows by exactly the number of display
      callbacks in the run. */
  lemma {:induction false} RunCountsDisplays(s: Session, cbs: seq<Callback>)
    requires QueueNeeded(cbs) ==> s.hasQueue
    ensures RunCallbacks(s, cbs).session.decodedFrames == s.decodedFrames + DisplayCount(cbs)
    decreases |cbs|
  {
    if cbs != [] {
      var h := Dispatch(s, cbs[0]);
      assert QueueNeeded(cbs[1..]) ==> QueueNeeded(cbs);
      RunCountsDisplays(h.session, cbs[1..]);
    }
  }

  /** Callbacks only ever wait on a slot directly before decoding into it. */
  lemma {:induction false} RunKeepsWaitBeforeDecode(s: Session, cbs: seq<Callback>)
    requires QueueNeeded(cbs) ==> s.hasQueue
    ensures WaitsBeforeDecode(s.trace) ==> WaitsBeforeDecode(RunCallbacks(s, cbs).session.trace)
    decreases |cbs|
  {
    if cbs != [] && WaitsBeforeDecode(s.trace) {
      var h := Dispatch(s, cbs[0]);
      match cbs[0] {
        case OnSequence(_) =>
        case OnDecode(pic, _) =>
          AppendWaitThenDecode(s.trace, pic.currPicIdx);
        case OnDisplay(info) =>
          AppendWithoutDecode(s.trace, [QueueEnqueue(info)]);
      }
      assert QueueNeeded(cbs[1..]) ==> QueueNeeded(cbs);
      RunKeepsWaitBeforeDecode(h.session, cbs[1..]);
    }
  }

  /** A format the sequence callback has just recorded is accepted the next
      time it is reported, and then nothing changes. */
  lemma SequenceSettles(s: Session, f: VideoFormat)
    ensures var h := DecVideoSequence(s, f);
      DecVideoSequence(h.session, f) == Handled(h.session, 1)
  {
  }

  /** A format change is reported with 0 even when it is tolerated, and then
      leaves the error flag as it was. */
  lemma ToleratedChange(s: Session, f: VideoFormat)
    requires s.ignoreFormatChange
    requires f != CachedFormat(s.createInfo)
    ensures DecVideoSequence(s, f).ret == 0
    ensures DecVideoSequence(s, f).session.error == s.error
  {
  }
}
