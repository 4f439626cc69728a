/** The state of one `CuvidDecode` object: the cached decoder create-info,
    the counters and flags, which engine handles are held, and the ordered
    record of every call the object has made into the frame queue and the
    decode engine. */
module Session {
  import opened Cuda
  import opened Cuvid

  /** One call into the frame queue or the engine, in the order made. */
  datatype Call =
    | QueueCreate
    | QueueInit(width: int32, height: int32)
    | QueueWait(index: int32)
    | QueueEnqueue(info: DispInfo)
    | QueueEndDecode
    | QueueFree
    | ParserCreate(params: ParserParams)
    | ParserParse(packet: Packet)
    | ParserDestroy
    | DecoderCreate(createInfo: CreateInfo)
    | DecoderDecode(index: int32)
    | DecoderDestroy
    | CtxLock
    | CtxUnlock

  datatype Session = Session(
    createInfo: CreateInfo,
    decodedFrames: nat,
    error: bool,
    ignoreFormatChange: bool,
    hasQueue: bool,
    hasParser: bool,
    hasDecoder: bool,
    trace: seq<Call>)

  /** The freshly constructed object: nothing held, counters zero, create-info
      cleared. */
  function NewSession(): (s: Session)
    ensures IsClosed(s) && s.trace == []
    ensures !s.ignoreFormatChange && CachedFormat(s.createInfo) == VideoFormat(0, 0, 0, 0)
    ensures s.createInfo == ZeroCreateInfo
    ensures WellFormed(s)
  {
    Session(ZeroCreateInfo, 0, false, false, false, false, false, [])
  }

  /** No engine handle or frame queue is held and the counters are reset. */
  predicate IsClosed(s: Session)
  {
    !s.hasQueue && !s.hasParser && !s.hasDecoder && s.decodedFrames == 0 && !s.error
  }

  /** A decoder is only created once a parser exists, and a parser once the
      frame queue does. */
  predicate HandlesNested(s: Session)
  {
    (s.hasDecoder ==> s.hasParser) && (s.hasParser ==> s.hasQueue)
  }

  /** Every decode call is immediately preceded by a wait on the same frame
      slot. */
  predicate WaitsBeforeDecode(t: seq<Call>)
  {
    forall i :: 0 <= i < |t| && t[i].DecoderDecode? ==> 0 < i && t[i - 1] == QueueWait(t[i].index)
  }

  /** The session invariant every operation keeps. */
  predicate WellFormed(s: Session)
  {
    HandlesNested(s) && WaitsBeforeDecode(s.trace)
  }

  /** Appending calls none of which decodes keeps `WaitsBeforeDecode`. */
  lemma {:induction false} AppendWithoutDecode(t: seq<Call>, u: seq<Call>)
    requires forall k :: 0 <= k < |u| ==> !u[k].DecoderDecode?
    ensures WaitsBeforeDecode(t) ==> WaitsBeforeDecode(t + u)
  {
    if !WaitsBeforeDecode(t) { return; }
    var v := t + u;
    forall i | 0 <= i < |v| && v[i].DecoderDecode?
      ensures 0 < i && v[i - 1] == QueueWait(v[i].index)
    {
      assert i < |t|;
      assert v[i] == t[i] && v[i - 1] == t[i - 1];
    }
  }

  /** Appending a wait immediately followed by a decode of that slot keeps
      `WaitsBeforeDecode`. */
  lemma {:induction false} AppendWaitThenDecode(t: seq<Call>, idx: int32)
    requires WaitsBeforeDecode(t)
    ensures WaitsBeforeDecode(t + [QueueWait(idx), DecoderDecode(idx)])
  {
    var u := t + [QueueWait(idx), DecoderDecode(idx)];
    forall i | 0 <= i < |u| && u[i].DecoderDecode?
      ensures 0 < i && u[i - 1] == QueueWait(u[i].index)
    {
      assert u[|t|] == QueueWait(idx);
      if i < |t| {
        assert u[i] == t[i] && u[i - 1] == t[i - 1];
      }
    }
  }
}
