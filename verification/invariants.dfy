/** Facts that span several operations: the session invariant every
    operation keeps, and the life of the sticky error flag. */
module Invariants {
  import opened Cuda
  import opened Cuvid
  import opened Session
  import opened Callbacks
  import opened Packets
  import opened Teardown
  import opened InitDecode

  /** Each callback keeps the handles nested and every decode behind its
      wait. */
  lemma {:induction false} DispatchKeepsWellFormed(s: Session, cb: Callback)
    requires WellFormed(s)
    requires UsesQueue(cb) ==> s.hasQueue
    ensures WellFormed(Dispatch(s, cb).session)
  {
    match cb {
      case OnSequence(_) =>
      case OnDecode(pic, _) =>
        AppendWaitThenDecode(s.trace, pic.currPicIdx);
      case OnDisplay(info) =>
        AppendWithoutDecode(s.trace, [QueueEnqueue(info)]);
    }
  }

  /** Feeding a packet, or flushing, keeps the session invariant. */
  lemma DecodePacketKeepsWellFormed(s: Session, data: Option<seq<bv8>>, nSize: uint64, timestamp: int64,
                                    toNative: int64 -> int64, run: ParseRun)
    requires WellFormed(s)
    requires data.None? || nSize == 0 ==> s.hasQueue
    requires Servable(s, run)
    ensures WellFormed(DecodePacket(s, data, nSize, timestamp, toNative, run).session)
  {
  }

  /** A packet from the video source keeps the session invariant. */
  lemma DecVideoDataKeepsWellFormed(s: Session, p: Packet, run: ParseRun)
    requires WellFormed(s)
    requires Servable(s, run)
    ensures WellFormed(DecVideoData(s, p, run).session)
  {
  }

  /** Teardown keeps the session invariant. */
  lemma CloseKeepsWellFormed(s: Session)
    requires WellFormed(s)
    ensures WellFormed(CloseDecoder(s))
  {
  }

  /** Initialisation keeps the session invariant, whichever step fails. */
  lemma InitKeepsWellFormed(s: Session, input: InputVideoInfo, ignoreFormatChange: bool, e: InitEngine)
    requires WellFormed(s)
    requires HeaderFits(input)
    ensures WellFormed(InitDecode.InitDecode(s, input, ignoreFormatChange, e).session)
  {
  }

  /** Once raised, the error flag survives every callback, every packet fed
      through `DecodePacket` or `DecVideoData`, and a flush, each whenever
      it may be called (the queue is needed only where the call uses it);
      only `CloseDecoder` lowers it. */
  lemma ErrorStaysRaised(s: Session, cb: Callback, data: Option<seq<bv8>>, nSize: uint64, timestamp: int64,
                         toNative: int64 -> int64, p: Packet, run: ParseRun)
    requires s.error
    ensures (UsesQueue(cb) ==> s.hasQueue) ==> Dispatch(s, cb).session.error
    ensures (data.None? || nSize == 0 ==> s.hasQueue) && Servable(s, run) ==>
      DecodePacket(s, data, nSize, timestamp, toNative, run).session.error
    ensures Servable(s, run) ==> DecVideoData(s, p, run).session.error
    ensures s.hasQueue ==> FlushParser(s, run).session.error
    ensures !CloseDecoder(s).error
  {
  }

  /** A source packet whose parse fails, or faults, is answered with 0 and
      leaves the flag raised for every later packet fed to the session, even
      one whose parse succeeds. */
  lemma {:induction false} FailedSourcePacketSticks(s: Session, p: Packet, run: ParseRun,
                                                    data: Option<seq<bv8>>, nSize: uint64, timestamp: int64,
                                                    toNative: int64 -> int64, next: ParseRun)
    requires Servable(s, run)
    requires run.outcome != Returned(CudaSuccess)
    ensures var d := DecVideoData(s, p, run);
      && d.result == 0 && d.session.error
      && ((data.None? || nSize == 0 ==> s.hasQueue) && Servable(s, next) ==>
            DecodePacket(d.session, data, nSize, timestamp, toNative, next).session.error)
  {
    var d := DecVideoData(s, p, run);
    ErrorStaysRaised(d.session, OnSequence(VideoFormat(0, 0, 0, 0)), data, nSize, timestamp, toNative, p, next);
  }
}
