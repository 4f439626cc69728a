/** Feeding the parser: the packets `DecodePacket` and `FlushParser` build,
    the guarded `cuvidParseVideoData` call during which the parser fires its
    callbacks, and the `DecVideoData` source callback. */
module Packets {
  import opened Cuda
  import opened Cuvid
  import opened Session
  import opened Callbacks

  /** What the engine does during one `cuvidParseVideoData` call: the
      callbacks it fires, in order, and how the call itself ends. */
  datatype ParseRun = ParseRun(callbacks: seq<Callback>, outcome: EngineOutcome)

  /** A parse call's effect: the new session, the value returned to the
      caller and the values the callbacks returned to the parser. */
  datatype Parsed = Parsed(session: Session, result: int, replies: seq<int>)

  predicate IsEndOfStream(p: Packet)
  {
    p.flags & PktEndOfStream != 0
  }

  predicate HasTimestamp(p: Packet)
  {
    p.flags & PktTimestamp != 0
  }

  /** A run whose callbacks the session can serve. */
  predicate Servable(s: Session, run: ParseRun)
  {
    QueueNeeded(run.callbacks) ==> s.hasQueue
  }

  /** The end-of-stream packet of `FlushParser`: zeroed, then only the
      end-of-stream flag set. */
  function FlushPacket(): (p: Packet)
    ensures IsEndOfStream(p) && !HasTimestamp(p)
    ensures p.flags == PktEndOfStream
    ensures p.payload.None? && p.payloadSize == 0 && p.timestamp == 0
  {
    Packet(0 | PktEndOfStream, None, 0, 0)
  }

  /** The data packet of `DecodePacket`: the payload and its size cast to
      32 bits, and a timestamp rescaled to the native time base exactly when
      one is given.  `toNative` stands for `av_rescale_q` from the stream's
      time base to CUVID's. */
  function DataPacket(data: seq<bv8>, nSize: uint64, timestamp: int64, toNative: int64 -> int64): (p: Packet)
    ensures !IsEndOfStream(p)
    ensures HasTimestamp(p) <==> timestamp != NoPtsValue
    ensures p.flags & !(PktTimestamp) == 0
    ensures HasTimestamp(p) ==> p.timestamp == toNative(timestamp)
    ensures !HasTimestamp(p) ==> p.timestamp == 0
    ensures p.payload == Some(data)
    ensures (p.payloadSize as int - nSize as int) % 0x1_0000_0000 == 0
    ensures nSize < 0x1_0000_0000 ==> p.payloadSize as int == nSize as int
  {
    var p := Packet(0, Some(data), ToUint32(nSize as int), 0);
    if timestamp != NoPtsValue then p.(flags := p.flags | PktTimestamp, timestamp := toNative(timestamp))
    else p
  }

  /** `cuvidParseVideoData` inside its fault guard: the call is recorded, the
      parser fires the run's callbacks, and a trapped fault becomes
      `CUDA_ERROR_UNKNOWN`.  The parse result itself does not touch the
      error flag. */
  function Parse(s: Session, p: Packet, run: ParseRun): (r: Parsed)
    requires Servable(s, run)
    ensures r.result == Trapped(run.outcome)
    ensures |r.replies| == |run.callbacks|
    ensures SameHandlesAndPolicy(r.session, s)
    ensures |r.session.trace| > |s.trace| && r.session.trace[..|s.trace| + 1] == s.trace + [ParserParse(p)]
    ensures forall k :: |s.trace| < k < |r.session.trace| ==> IsCallbackCall(r.session.trace[k])
    ensures r.session.error <==>
      s.error || exists i :: 0 <= i < |run.callbacks| && RaisesError(run.callbacks[i], r.replies[i], s.ignoreFormatChange)
    ensures WaitsBeforeDecode(s.trace) ==> WaitsBeforeDecode(r.session.trace)
  {
    var s' := s.(trace := s.trace + [ParserParse(p)]);
    var d := RunCallbacks(s', run.callbacks);
    RunErrorExactly(s', run.callbacks);
    AppendWithoutDecode(s.trace, [ParserParse(p)]);
    RunKeepsWaitBeforeDecode(s', run.callbacks);
    Parsed(d.session, Trapped(run.outcome), d.replies)
  }

  /** `FlushParser`: sends the end-of-stream packet and then, however the
      parse ended, tells the frame queue that decoding has ended. */
  function FlushParser(s: Session, run: ParseRun): (r: Parsed)
    requires s.hasQueue
    ensures r.result == Trapped(run.outcome)
    ensures SameHandlesAndPolicy(r.session, s)
    ensures |r.session.trace| > |s.trace| + 1
    ensures r.session.trace[..|s.trace| + 1] == s.trace + [ParserParse(FlushPacket())]
    ensures r.session.trace[|r.session.trace| - 1] == QueueEndDecode
    ensures |r.replies| == |run.callbacks|
    ensures r.session.error <==>
      s.error || exists i :: 0 <= i < |run.callbacks| && RaisesError(run.callbacks[i], r.replies[i], s.ignoreFormatChange)
    ensures WaitsBeforeDecode(s.trace) ==> WaitsBeforeDecode(r.session.trace)
  {
    var q := Parse(s, FlushPacket(), run);
    var t := q.session.trace + [QueueEndDecode];
    AppendWithoutDecode(q.session.trace, [QueueEndDecode]);
    Parsed(q.session.(trace := t), q.result, q.replies)
  }

  /** `DecodePacket`: a null or empty buffer flushes; anything else is sent as
      one data packet, and no end-of-decode is signalled. */
  function DecodePacket(s: Session, data: Option<seq<bv8>>, nSize: uint64, timestamp: int64,
                        toNative: int64 -> int64, run: ParseRun): (r: Parsed)
    requires data.None? || nSize == 0 ==> s.hasQueue
    requires Servable(s, run)
    ensures data.None? || nSize == 0 ==> r == FlushParser(s, run)
    ensures data.Some? && nSize != 0 ==>
      r == Parse(s, DataPacket(data.value, nSize, timestamp, toNative), run)
    ensures data.Some? && nSize != 0 ==> QueueEndDecode !in r.session.trace[|s.trace|..]
    ensures r.result == Trapped(run.outcome)
    ensures |r.replies| == |run.callbacks|
    ensures r.session.error <==>
      s.error || exists i :: 0 <= i < |run.callbacks| && RaisesError(run.callbacks[i], r.replies[i], s.ignoreFormatChange)
    ensures SameHandlesAndPolicy(r.session, s)
    ensures WaitsBeforeDecode(s.trace) ==> WaitsBeforeDecode(r.session.trace)
  {
    if data.None? || nSize == 0 then FlushParser(s, run)
    else Parse(s, DataPacket(data.value, nSize, timestamp, toNative), run)
  }

  /** `DecVideoData`: parses a packet handed over by a video source; returns 1
      exactly when the parse succeeded, and a failed or faulting parse raises
      the sticky error on top of whatever the callbacks raised. */
  function DecVideoData(s: Session, p: Packet, run: ParseRun): (r: Parsed)
    requires Servable(s, run)
    ensures r.result == 1 <==> run.outcome == Returned(CudaSuccess)
    ensures r.result == 0 || r.result == 1
    ensures |r.replies| == |run.callbacks|
    ensures r.session.error <==>
      || s.error
      || r.result == 0
      || exists i :: 0 <= i < |run.callbacks| && RaisesError(run.callbacks[i], r.replies[i], s.ignoreFormatChange)
    ensures SameHandlesAndPolicy(r.session, s)
    ensures WaitsBeforeDecode(s.trace) ==> WaitsBeforeDecode(r.session.trace)
  {
    var q := Parse(s, p, run);
    var ok := q.result == CudaSuccess;
    Parsed(if ok then q.session else q.session.(error := true), if ok then 1 else 0, q.replies)
  }

  /** How the parse call ends never reaches the session state of
      `DecodePacket` or `FlushParser`: only the callbacks can raise the error
      flag there, and a flush signals end-of-decode whatever the result. */
  lemma {:induction false} ParseOutcomeOnlyInResult(s: Session, data: Option<seq<bv8>>, nSize: uint64,
                                                    timestamp: int64, toNative: int64 -> int64,
                                                    cbs: seq<Callback>, o1: EngineOutcome, o2: EngineOutcome)
    requires data.None? || nSize == 0 ==> s.hasQueue
    requires QueueNeeded(cbs) ==> s.hasQueue
    ensures DecodePacket(s, data, nSize, timestamp, toNative, ParseRun(cbs, o1)).session
         == DecodePacket(s, data, nSize, timestamp, toNative, ParseRun(cbs, o2)).session
  {
    assert Servable(s, ParseRun(cbs, o1)) && Servable(s, ParseRun(cbs, o2));
  }

  /** A data packet and the end-of-stream packet are never confused: a packet
      `DecodePacket` builds from a non-empty buffer never carries the
      end-of-stream flag, whatever its timestamp. */
  lemma DataPacketIsNotFlush(data: seq<bv8>, nSize: uint64, timestamp: int64, toNative: int64 -> int64)
    ensures DataPacket(data, nSize, timestamp, toNative) != FlushPacket()
  {
  }
}
