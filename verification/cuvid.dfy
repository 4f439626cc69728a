/** The CUVID structures the decode session fills in or reads: the video
    format the parser reports, the decoder create-info (whose first fields
    double as the cached format), the packets handed to the parser and the
    parameters of the picture callbacks.  Only the fields the session touches
    are kept; every other field of the C structures stays zero. */
module Cuvid {
  import opened Cuda

  datatype Option<T> = None | Some(value: T)

  /** `cudaVideoChromaFormat_420`. */
  const ChromaFormat420: int := 1
  /** `cudaVideoSurfaceFormat_NV12`. */
  const SurfaceFormatNV12: int := 0
  /** `cudaVideoCreate_PreferCUVID`. */
  const CreatePreferCuvid: uint32 := 4
  /** `FrameQueue::cnMaximumSize`: the number of decode surfaces the frame
      queue provides, used for both the parser and the decoder. */
  const MaxDecodeSurfaces: uint32 := 20

  /** `CUVID_PKT_ENDOFSTREAM` and `CUVID_PKT_TIMESTAMP`. */
  const PktEndOfStream: bv32 := 0x01
  const PktTimestamp: bv32 := 0x02

  /** `AV_NOPTS_VALUE`: the "no timestamp" sentinel, INT64_MIN. */
  const NoPtsValue: int64 := -0x8000_0000_0000_0000

  /** The four fields of `CUVIDEOFORMAT` that identify a stream format. */
  datatype VideoFormat = VideoFormat(
    codec: int,
    codedWidth: uint32,
    codedHeight: uint32,
    chromaFormat: int)

  /** `CUVIDDECODECREATEINFO::display_area`. */
  datatype Rect = Rect(left: int16, top: int16, right: int16, bottom: int16)

  /** `CUVIDDECODECREATEINFO`, the fields the session sets. */
  datatype CreateInfo = CreateInfo(
    codecType: int,
    width: uint32,
    height: uint32,
    numDecodeSurfaces: uint32,
    chromaFormat: int,
    outputFormat: int,
    targetWidth: uint32,
    targetHeight: uint32,
    displayArea: Rect,
    numOutputSurfaces: uint32,
    creationFlags: uint32)

  /** The create-info after `memset(…, 0, …)`. */
  const ZeroCreateInfo: CreateInfo :=
    CreateInfo(0, 0, 0, 0, 0, 0, 0, 0, Rect(0, 0, 0, 0), 0, 0)

  /** The format the session compares every sequence notification against:
      it lives in the create-info's CodecType, ulWidth, ulHeight and
      ChromaFormat. */
  function CachedFormat(ci: CreateInfo): VideoFormat
  {
    VideoFormat(ci.codecType, ci.width, ci.height, ci.chromaFormat)
  }

  /** Overwrites the four cached-format fields and nothing else. */
  function WithFormat(ci: CreateInfo, f: VideoFormat): (r: CreateInfo)
    ensures CachedFormat(r) == f
    ensures SameBesidesFormat(r, ci)
  {
    ci.(codecType := f.codec, width := f.codedWidth, height := f.codedHeight,
        chromaFormat := f.chromaFormat)
  }

  /** Two create-infos agree on every field outside the cached format. */
  predicate SameBesidesFormat(a: CreateInfo, b: CreateInfo)
  {
    && a.numDecodeSurfaces == b.numDecodeSurfaces
    && a.outputFormat == b.outputFormat
    && a.targetWidth == b.targetWidth
    && a.targetHeight == b.targetHeight
    && a.displayArea == b.displayArea
    && a.numOutputSurfaces == b.numOutputSurfaces
    && a.creationFlags == b.creationFlags
  }

  /** `CUVIDPARSERPARAMS`, the fields the session sets (the callbacks and
      the user-data pointer are the session itself). */
  datatype ParserParams = ParserParams(
    codecType: int,
    maxNumDecodeSurfaces: uint32,
    maxDisplayDelay: uint32,
    sequenceHeader: seq<bv8>)

  /** `CUVIDSOURCEDATAPACKET`: a null payload pointer is `None`. */
  datatype Packet = Packet(
    flags: bv32,
    payload: Option<seq<bv8>>,
    payloadSize: uint32,
    timestamp: int64)

  /** `CUVIDPICPARAMS`, reduced to the surface index it decodes into. */
  datatype PicParams = PicParams(currPicIdx: int32)

  /** `CUVIDPARSERDISPINFO`, reduced to the fields the session logs. */
  datatype DispInfo = DispInfo(pictureIndex: int32, timestamp: int64)
}
