/** `InitDecode`: tears the session down, checks that the CUVID library is
    present, then creates the frame queue, the parser and the decoder in that
    order, returning at the first failure, and finally feeds the stream's
    sequence header, if it has one, through `DecodePacket`. */
module InitDecode {
  import opened Cuda
  import opened Cuvid
  import opened Session
  import opened Callbacks
  import opened Packets
  import opened Teardown

  /** `sInputCrop`: pixels cropped from each edge. */
  datatype Crop = Crop(left: int32, up: int32, right: int32, bottom: int32)

  /** The fields of `InputVideoInfo` the session reads.  `codecExtra` is the
      sequence header: `None` for a null pointer. */
  datatype InputVideoInfo = InputVideoInfo(
    codec: int,
    width: int32,
    height: int32,
    codedWidth: int32,
    codedHeight: int32,
    dstWidth: int32,
    dstHeight: int32,
    crop: Crop,
    codecExtra: Option<seq<bv8>>)

  /** Size of `CUVIDEOFORMATEX::raw_seqhdr_data`, into which the header is
      copied unchecked. */
  const SeqHeaderCapacity: nat := 1024

  predicate HeaderFits(input: InputVideoInfo)
  {
    input.codecExtra.Some? ==> |input.codecExtra.value| <= SeqHeaderCapacity
  }

  /** The sequence header kept for the parser: the extra data when there is
      a non-empty one, otherwise nothing. */
  function SequenceHeader(input: InputVideoInfo): (h: seq<bv8>)
    ensures h != [] <==> input.codecExtra.Some? && input.codecExtra.value != []
    ensures h != [] ==> h == input.codecExtra.value
  {
    if input.codecExtra.Some? && |input.codecExtra.value| > 0 then input.codecExtra.value else []
  }

  /** The decoder's coded size: the stream's coded size, or the picture size
      when the former is unknown (zero). */
  function CodedOrPicture(coded: int32, picture: int32): int32
  {
    if coded != 0 then coded else picture
  }

  /** The parser parameters `InitDecode` passes to `cuvidCreateVideoParser`. */
  function ParserParamsFor(input: InputVideoInfo): (p: ParserParams)
    ensures p.codecType == input.codec
    ensures p.maxNumDecodeSurfaces == MaxDecodeSurfaces && p.maxDisplayDelay == 1
    ensures p.sequenceHeader == SequenceHeader(input)
    ensures HeaderFits(input) ==> |p.sequenceHeader| <= SeqHeaderCapacity
  {
    ParserParams(input.codec, MaxDecodeSurfaces, 1, SequenceHeader(input))
  }

  /** The decoder create-info `InitDecode` derives from the input. */
  function CreateInfoFor(input: InputVideoInfo): (ci: CreateInfo)
    ensures ci.codecType == input.codec && ci.chromaFormat == ChromaFormat420
    ensures input.codedWidth != 0 ==> ci.width == ToUint32(input.codedWidth as int)
    ensures input.codedWidth == 0 ==> ci.width == ToUint32(input.width as int)
    ensures input.codedHeight != 0 ==> ci.height == ToUint32(input.codedHeight as int)
    ensures input.codedHeight == 0 ==> ci.height == ToUint32(input.height as int)
    ensures input.dstWidth > 0 && input.dstHeight > 0 ==>
      ci.targetWidth as int == input.dstWidth as int && ci.targetHeight as int == input.dstHeight as int
    ensures !(input.dstWidth > 0 && input.dstHeight > 0) ==>
      ci.targetWidth == ToUint32(input.width as int) && ci.targetHeight == ToUint32(input.height as int)
    ensures (ci.displayArea.left as int - input.crop.left as int) % 0x1_0000 == 0
    ensures (ci.displayArea.top as int - input.crop.up as int) % 0x1_0000 == 0
    ensures (ci.displayArea.right as int
             - (input.crop.right as int + input.codedWidth as int - input.width as int)) % 0x1_0000 == 0
    ensures (ci.displayArea.bottom as int
             - (input.crop.bottom as int + input.codedHeight as int - input.height as int)) % 0x1_0000 == 0
    ensures ci.numDecodeSurfaces == MaxDecodeSurfaces && ci.numOutputSurfaces == 1
    ensures ci.outputFormat == SurfaceFormatNV12 && ci.creationFlags == CreatePreferCuvid
  {
    var target :=
      if input.dstWidth > 0 && input.dstHeight > 0 then (input.dstWidth, input.dstHeight)
      else (input.width, input.height);
    CreateInfo(
      codecType := input.codec,
      width := ToUint32(CodedOrPicture(input.codedWidth, input.width) as int),
      height := ToUint32(CodedOrPicture(input.codedHeight, input.height) as int),
      numDecodeSurfaces := MaxDecodeSurfaces,
      chromaFormat := ChromaFormat420,
      outputFormat := SurfaceFormatNV12,
      targetWidth := ToUint32(target.0 as int),
      targetHeight := ToUint32(target.1 as int),
      displayArea := Rect(
        ToShort(input.crop.left as int),
        ToShort(input.crop.up as int),
        ToShort(input.crop.right as int + input.codedWidth as int - input.width as int),
        ToShort(input.crop.bottom as int + input.codedHeight as int - input.height as int)),
      numOutputSurfaces := 1,
      creationFlags := CreatePreferCuvid)
  }

  /** What the environment and the engine do during `InitDecode`: whether
      nvcuvid.dll loads, whether the frame queue could be allocated, what
      parser and decoder creation return, and how the header parse goes. */
  datatype InitEngine = InitEngine(
    dllAvailable: bool,
    queueAllocated: bool,
    parserCreate: CuResult,
    decoderCreate: EngineOutcome,
    headerParse: ParseRun)

  /** Every step `InitDecode` reaches succeeded. */
  predicate AllSucceed(input: InputVideoInfo, e: InitEngine)
  {
    && e.dllAvailable
    && e.queueAllocated
    && e.parserCreate == CudaSuccess
    && e.decoderCreate == Returned(CudaSuccess)
    && (SequenceHeader(input) != [] ==> e.headerParse.outcome == Returned(CudaSuccess))
  }

  /** The success condition of the steps after the parser exists. */
  predicate DecoderStepsSucceed(input: InputVideoInfo, e: InitEngine)
  {
    && e.decoderCreate == Returned(CudaSuccess)
    && (SequenceHeader(input) != [] ==> e.headerParse.outcome == Returned(CudaSuccess))
  }

  /** Creating the decoder under the context lock, then feeding the sequence
      header (with no timestamp) when there is one. */
  function CreateDecoderAndFeed(s: Session, input: InputVideoInfo, e: InitEngine): (r: Parsed)
    requires HeaderFits(input) && s.hasQueue && s.hasParser
    ensures r.result == CudaSuccess <==> DecoderStepsSucceed(input, e)
    ensures r.result == CudaSuccess ==> r.session.hasDecoder
    ensures |r.session.trace| >= |s.trace| + 3 && r.session.trace[..|s.trace| + 3] == s.trace + DecoderCalls(input)
    ensures e.decoderCreate != Returned(CudaSuccess) ==>
      && r.result == Trapped(e.decoderCreate) && !r.session.hasDecoder
      && r.session.createInfo == CreateInfoFor(input) && |r.session.trace| == |s.trace| + 3
    ensures e.decoderCreate == Returned(CudaSuccess) && SequenceHeader(input) != [] ==>
      r.result == Trapped(e.headerParse.outcome)
    ensures r.session.hasQueue && r.session.hasParser
    ensures r.session.ignoreFormatChange == s.ignoreFormatChange
    ensures s.trace <= r.session.trace
    ensures WaitsBeforeDecode(s.trace) ==> WaitsBeforeDecode(r.session.trace)
  {
    var ci := CreateInfoFor(input);
    var dec := Trapped(e.decoderCreate);
    var calls := DecoderCalls(input);
    var s' := s.(createInfo := ci, hasDecoder := dec == CudaSuccess, trace := s.trace + calls);
    AppendWithoutDecode(s.trace, calls);
    var r := FeedHeader(s', input, dec, e);
    assert s'.trace[..|s.trace| + 3] == s.trace + calls;
    r
  }

  /** After decoder creation: a failed creation returns its code and feeds
      nothing; otherwise a non-empty header is parsed and the parse result is
      returned. */
  function FeedHeader(s: Session, input: InputVideoInfo, dec: CuResult, e: InitEngine): (r: Parsed)
    requires HeaderFits(input) && s.hasQueue && s.hasParser && s.hasDecoder == (dec == CudaSuccess)
    ensures r.result == CudaSuccess <==>
      dec == CudaSuccess && (SequenceHeader(input) != [] ==> e.headerParse.outcome == Returned(CudaSuccess))
    ensures dec != CudaSuccess ==> r == Parsed(s, dec, [])
    ensures dec == CudaSuccess && SequenceHeader(input) != [] ==>
      && r.result == Trapped(e.headerParse.outcome)
      && |r.session.trace| > |s.trace|
      && r.session.trace[|s.trace|] == ParserParse(Packet(0, Some(SequenceHeader(input)), |SequenceHeader(input)| as uint32, 0))
    ensures dec == CudaSuccess && SequenceHeader(input) == [] ==> r == Parsed(s, CudaSuccess, [])
    ensures r.result == CudaSuccess ==> r.session.hasDecoder
    ensures r.session.hasQueue && r.session.hasParser
    ensures r.session.ignoreFormatChange == s.ignoreFormatChange
    ensures s.trace <= r.session.trace
    ensures WaitsBeforeDecode(s.trace) ==> WaitsBeforeDecode(r.session.trace)
  {
    var header := SequenceHeader(input);
    if dec != CudaSuccess then Parsed(s, dec, [])
    else if header != [] then
      var p := DataPacket(header, |header| as uint64, NoPtsValue, t => t);
      var r := DecodePacket(s, Some(header), |header| as uint64, NoPtsValue, t => t, e.headerParse);
      assert p == Packet(0, Some(header), |header| as uint32, 0);
      assert r.session.trace[..|s.trace| + 1] == s.trace + [ParserParse(p)];
      assert r.session.trace[|s.trace|] == (s.trace + [ParserParse(p)])[|s.trace|];
      r
    else
      Parsed(s, CudaSuccess, [])
  }

  /** Creating the parser over the new frame queue; on failure the queue is
      kept. */
  function CreateParserAndDecoder(s: Session, input: InputVideoInfo, e: InitEngine): (r: Parsed)
    requires HeaderFits(input) && s.hasQueue && !s.hasParser && !s.hasDecoder
    ensures r.result == CudaSuccess <==> e.parserCreate == CudaSuccess && DecoderStepsSucceed(input, e)
    ensures e.parserCreate != CudaSuccess ==> r.result == e.parserCreate && !r.session.hasParser
    ensures e.parserCreate == CudaSuccess && e.decoderCreate != Returned(CudaSuccess) ==>
      r.result == Trapped(e.decoderCreate)
    ensures e.parserCreate == CudaSuccess && e.decoderCreate == Returned(CudaSuccess) && SequenceHeader(input) != [] ==>
      r.result == Trapped(e.headerParse.outcome)
    ensures r.result == CudaSuccess ==> r.session.hasParser && r.session.hasDecoder
    ensures HandlesNested(r.session) && r.session.hasQueue
    ensures r.session.ignoreFormatChange == s.ignoreFormatChange
    ensures s.trace <= r.session.trace
    ensures WaitsBeforeDecode(s.trace) ==> WaitsBeforeDecode(r.session.trace)
  {
    var ok := e.parserCreate == CudaSuccess;
    var calls := [ParserCreate(ParserParamsFor(input))];
    var s' := s.(hasParser := ok, trace := s.trace + calls);
    AppendWithoutDecode(s.trace, calls);
    if !ok then Parsed(s', e.parserCreate, []) else CreateDecoderAndFeed(s', input, e)
  }

  function InitDecode(s: Session, input: InputVideoInfo, ignoreFormatChange: bool, e: InitEngine): (r: Parsed)
    requires HeaderFits(input)
    ensures r.session.ignoreFormatChange == ignoreFormatChange
    ensures !e.dllAvailable ==>
      r.result == CudaErrorNotFound && r.session == CloseDecoder(s).(ignoreFormatChange := ignoreFormatChange)
    ensures e.dllAvailable && !e.queueAllocated ==> r.result == CudaErrorOutOfMemory && IsClosed(r.session)
    ensures e.dllAvailable && e.queueAllocated && e.parserCreate != CudaSuccess ==> r.result == e.parserCreate
    ensures e.dllAvailable && e.queueAllocated && e.parserCreate == CudaSuccess && e.decoderCreate != Returned(CudaSuccess) ==>
      r.result == Trapped(e.decoderCreate)
    ensures && e.dllAvailable && e.queueAllocated && e.parserCreate == CudaSuccess && e.decoderCreate == Returned(CudaSuccess)
            && SequenceHeader(input) != [] ==>
      r.result == Trapped(e.headerParse.outcome)
    ensures r.result == CudaSuccess <==> AllSucceed(input, e)
    ensures r.result == CudaSuccess ==> r.session.hasQueue && r.session.hasParser && r.session.hasDecoder
    ensures HandlesNested(r.session)
    ensures CloseDecoder(s).trace <= r.session.trace
    ensures WaitsBeforeDecode(s.trace) ==> WaitsBeforeDecode(r.session.trace)
  {
    var s0 := CloseDecoder(s).(ignoreFormatChange := ignoreFormatChange);
    if !e.dllAvailable then Parsed(s0, CudaErrorNotFound, [])
    else
      var calls := if e.queueAllocated then [QueueCreate, QueueInit(input.width, input.height)] else [QueueCreate];
      var s1 := s0.(hasQueue := e.queueAllocated, trace := s0.trace + calls);
      AppendWithoutDecode(s0.trace, calls);
      if !e.queueAllocated then Parsed(s1, CudaErrorOutOfMemory, []) else CreateParserAndDecoder(s1, input, e)
  }

  /** With non-negative sizes, the decoder's coded size is the stream's coded
      size when known and the picture size otherwise, and the target size is
      the requested output size only when both its dimensions are positive. */
  lemma CreateInfoSizes(input: InputVideoInfo)
    requires input.width >= 0 && input.height >= 0 && input.codedWidth >= 0 && input.codedHeight >= 0
    ensures var ci := CreateInfoFor(input);
      && ci.width as int == (if input.codedWidth > 0 then input.codedWidth else input.width) as int
      && ci.height as int == (if input.codedHeight > 0 then input.codedHeight else input.height) as int
      && (ci.targetWidth, ci.targetHeight) ==
           (if input.dstWidth > 0 && input.dstHeight > 0 then (input.dstWidth as uint32, input.dstHeight as uint32)
            else (input.width as uint32, input.height as uint32))
  {
  }

  /** When the display-area sums fit in 16 bits the `(short)` casts change
      nothing: the area is the crop shifted by the coded-minus-picture size. */
  lemma DisplayAreaExact(input: InputVideoInfo)
    requires -0x8000 <= input.crop.left as int < 0x8000 && -0x8000 <= input.crop.up as int < 0x8000
    requires -0x8000 <= input.crop.right as int + input.codedWidth as int - input.width as int < 0x8000
    requires -0x8000 <= input.crop.bottom as int + input.codedHeight as int - input.height as int < 0x8000
    ensures CreateInfoFor(input).displayArea == Rect(
      input.crop.left as int16, input.crop.up as int16,
      (input.crop.right as int + input.codedWidth as int - input.width as int) as int16,
      (input.crop.bottom as int + input.codedHeight as int - input.height as int) as int16)
  {
  }

  /** The display area uses the raw coded size even where the decoder size
      fell back to the picture size: for a 1920x1080 stream of unknown coded
      size and no crop the decoder is 1920 wide and the area's right and
      bottom edges are -1920 and -1080. */
  lemma DisplayAreaWithUnknownCodedSize(codec: int)
    ensures var ci := CreateInfoFor(InputVideoInfo(codec, 1920, 1080, 0, 0, 0, 0, Crop(0, 0, 0, 0), None));
      && ci.width == 1920 && ci.height == 1080
      && ci.displayArea == Rect(0, 0, -1920, -1080)
  {
  }

  /** The calls `InitDecode` makes once the library is found, up to and
      including the parser creation. */
  function QueueAndParserCalls(input: InputVideoInfo): seq<Call>
  {
    [QueueCreate, QueueInit(input.width, input.height), ParserCreate(ParserParamsFor(input))]
  }

  /** The calls that create the decoder under the context lock. */
  function DecoderCalls(input: InputVideoInfo): seq<Call>
  {
    [CtxLock, DecoderCreate(CreateInfoFor(input)), CtxUnlock]
  }

  /** The session just after the decoder creation call, before the header:
      the teardown, then the queue, the parser and the decoder creation. */
  function CreatedSession(s: Session, input: InputVideoInfo, ignoreFormatChange: bool, e: InitEngine): (r: Session)
    ensures r.trace == CloseDecoder(s).trace + QueueAndParserCalls(input) + DecoderCalls(input)
    ensures r.createInfo == CreateInfoFor(input) && r.ignoreFormatChange == ignoreFormatChange
    ensures r.hasQueue && r.hasParser && (r.hasDecoder <==> e.decoderCreate == Returned(CudaSuccess))
    ensures r.decodedFrames == 0 && !r.error
  {
    var s0 := CloseDecoder(s).(ignoreFormatChange := ignoreFormatChange);
    var s1 := s0.(hasQueue := true, trace := s0.trace + [QueueCreate, QueueInit(input.width, input.height)]);
    var s3 := s1.(hasParser := true, trace := s1.trace + [ParserCreate(ParserParamsFor(input))]);
    s3.(createInfo := CreateInfoFor(input), hasDecoder := e.decoderCreate == Returned(CudaSuccess),
        trace := s3.trace + DecoderCalls(input))
  }

  /** Once the library, the queue and the parser are in place, `InitDecode`
      continues with the decoder created from the derived create-info. */
  lemma InitReachesDecoder(s: Session, input: InputVideoInfo, ignoreFormatChange: bool, e: InitEngine)
    requires HeaderFits(input)
    requires e.dllAvailable && e.queueAllocated && e.parserCreate == CudaSuccess
    ensures InitDecode(s, input, ignoreFormatChange, e)
         == FeedHeader(CreatedSession(s, input, ignoreFormatChange, e), input, Trapped(e.decoderCreate), e)
  {
  }

  /** The early returns of `InitDecode`: nothing is created when the library
      is missing, only the queue allocation is tried when it fails, and a
      failed parser creation stops before the decoder. */
  lemma InitEarlyExits(s: Session, input: InputVideoInfo, ignoreFormatChange: bool, e: InitEngine)
    requires HeaderFits(input)
    ensures var t0 := CloseDecoder(s).trace;
      var t := InitDecode(s, input, ignoreFormatChange, e).session.trace;
      && (!e.dllAvailable ==> t == t0)
      && (e.dllAvailable && !e.queueAllocated ==> t == t0 + [QueueCreate])
      && (e.dllAvailable && e.queueAllocated && e.parserCreate != CudaSuccess ==> t == t0 + QueueAndParserCalls(input))
  {
  }

  /** With the parser in place the decoder is created under the context lock
      right after it; a failed decoder creation ends `InitDecode` there, and
      otherwise only a sequence header adds further calls. */
  lemma InitDecoderAfterParser(s: Session, input: InputVideoInfo, ignoreFormatChange: bool, e: InitEngine)
    requires HeaderFits(input)
    requires e.dllAvailable && e.queueAllocated && e.parserCreate == CudaSuccess
    ensures var t0 := CloseDecoder(s).trace;
      var t := InitDecode(s, input, ignoreFormatChange, e).session.trace;
      && |t| >= |t0| + 6
      && t[..|t0| + 6] == t0 + QueueAndParserCalls(input) + DecoderCalls(input)
      && (e.decoderCreate != Returned(CudaSuccess) || SequenceHeader(input) == [] <==> |t| == |t0| + 6)
  {
    InitReachesDecoder(s, input, ignoreFormatChange, e);
    var s4 := CreatedSession(s, input, ignoreFormatChange, e);
    var t := InitDecode(s, input, ignoreFormatChange, e).session.trace;
    assert s4.trace <= t;
    assert |s4.trace| == |CloseDecoder(s).trace| + 6;
  }

  /** The sequence header is sent right after the decoder is created, as a
      data packet with no flag at all: no timestamp and no end of stream. */
  lemma InitFeedsHeaderLast(s: Session, input: InputVideoInfo, ignoreFormatChange: bool, e: InitEngine)
    requires HeaderFits(input)
    requires e.dllAvailable && e.queueAllocated && e.parserCreate == CudaSuccess
    requires e.decoderCreate == Returned(CudaSuccess) && SequenceHeader(input) != []
    ensures var t0 := CloseDecoder(s).trace;
      var t := InitDecode(s, input, ignoreFormatChange, e).session.trace;
      var h := SequenceHeader(input);
      |t| > |t0| + 6 && t[|t0| + 6] == ParserParse(Packet(0, Some(h), |h| as uint32, 0))
  {
    InitReachesDecoder(s, input, ignoreFormatChange, e);
    var s4 := CreatedSession(s, input, ignoreFormatChange, e);
    var h := SequenceHeader(input);
    var p := DataPacket(h, |h| as uint64, NoPtsValue, t => t);
    assert p == Packet(0, Some(h), |h| as uint32, 0);
    var r := Parse(s4, p, e.headerParse);
    assert InitDecode(s, input, ignoreFormatChange, e) == r;
    assert |s4.trace| == |CloseDecoder(s).trace| + 6;
    assert r.session.trace[|s4.trace|] == (s4.trace + [ParserParse(p)])[|s4.trace|];
  }

  /** A failed parser creation returns its code with the frame queue still
      allocated: the early returns of `InitDecode` release nothing. */
  lemma InitKeepsPartialResources(s: Session, input: InputVideoInfo, ignoreFormatChange: bool, e: InitEngine)
    requires HeaderFits(input)
    requires e.dllAvailable && e.queueAllocated && e.parserCreate != CudaSuccess
    ensures var r := InitDecode(s, input, ignoreFormatChange, e);
      r.result == e.parserCreate && r.session.hasQueue && !r.session.hasParser && !r.session.hasDecoder
  {
  }

  /** A successful `InitDecode` without a sequence header leaves a session
      whose cached format is what the create-info derived, that accepts that
      format from the parser without complaint, and whose counters are
      reset. */
  lemma InitAcceptsItsOwnFormat(s: Session, input: InputVideoInfo, ignoreFormatChange: bool, e: InitEngine)
    requires HeaderFits(input) && AllSucceed(input, e) && SequenceHeader(input) == []
    ensures var r := InitDecode(s, input, ignoreFormatChange, e);
      var ci := CreateInfoFor(input);
      var f := VideoFormat(input.codec, ci.width, ci.height, ChromaFormat420);
      && r.session.createInfo == ci
      && !r.session.error && r.session.decodedFrames == 0
      && DecVideoSequence(r.session, f) == Handled(r.session, 1)
  {
  }

  /** `InitDecode` can report success with the sticky error already raised:
      the header parse itself succeeds while its sequence callback rejects a
      format that differs from the derived one. */
  lemma InitSucceedsWithErrorRaised(s: Session, input: InputVideoInfo, e: InitEngine, f: VideoFormat)
    requires HeaderFits(input) && AllSucceed(input, e) && SequenceHeader(input) != []
    requires e.headerParse.callbacks == [OnSequence(f)]
    requires f != CachedFormat(CreateInfoFor(input))
    ensures var r := InitDecode(s, input, false, e);
      r.result == CudaSuccess && r.session.error && r.replies == [0]
      && CachedFormat(r.session.createInfo) == f
  {
    InitReachesDecoder(s, input, false, e);
    var s4 := CreatedSession(s, input, false, e);
    var h := SequenceHeader(input);
    var p := DataPacket(h, |h| as uint64, NoPtsValue, t => t);
    assert InitDecode(s, input, false, e) == Parse(s4, p, e.headerParse);
    var s5 := s4.(trace := s4.trace + [ParserParse(p)]);
    var d := RunCallbacks(s5, [OnSequence(f)]);
    assert Parse(s4, p, e.headerParse) == Parsed(d.session, CudaSuccess, d.replies);
    assert [OnSequence(f)][1..] == [];
    var hd := DecVideoSequence(s5, f);
    assert Dispatch(s5, OnSequence(f)) == hd;
    assert RunCallbacks(hd.session, []) == Dispatched(hd.session, []);
    assert d == Dispatched(hd.session, [hd.ret]);
  }
}
