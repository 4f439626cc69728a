# CuvidDecode session model

This project models the session logic of NVEnc's `CuvidDecode` class in Dafny. That class wraps NVIDIA's CUVID
hardware decoder. It owns a frame queue, a CUVID parser and a CUVID decoder, and it feeds the parser compressed
packets. The parser calls back into the session three ways: a sequence callback when the stream format is
known or changes, a decode callback per picture, and a display callback per picture ready for output.

The model is functional. A `Session` value holds:

- the cached decoder create-info. Its codec, coded width, coded height and chroma format double as the cached
  stream format.
- the decoded-frame counter, the sticky error flag and the "ignore dynamic format change" flag.
- which of the frame queue, parser and decoder are held.
- a trace: every call the session has made into the frame queue (wait, enqueue, end-of-decode, create, init,
  free) and into the engine (create, parse, decode, destroy, context lock and unlock), in order.

Each method or callback is a pure transition function. Whatever the CUVID engine would decide is a parameter:

- an `EngineOutcome` is the code a call returned, or `Faulted` when the structured-exception guard trapped a
  fault. `Trapped` turns `Faulted` into `CUDA_ERROR_UNKNOWN`.
- a `ParseRun` lists the callbacks the parser fires during one `cuvidParseVideoData` call, in order, and how
  that call ends. `RunCallbacks` runs them against the session.
- an `InitEngine` says whether `nvcuvid.dll` is present, whether the frame queue was allocated, and how parser
  creation, decoder creation and the sequence-header parse end.

The C integer widths are newtypes (`int16`, `int32`, `uint32`, `int64`, `uint64`). The casts the code
performs are explicit functions: `(short)` is `ToShort`, a conversion to an unsigned 32-bit field is
`ToUint32`.

Files: `cuda.dfy` holds the integer types, result codes and the fault guard. `cuvid.dfy` holds the CUVID
structures. `session.dfy` holds the session state and its trace invariants. `callbacks.dfy` holds the
sequence, decode and display callbacks and the runs of callbacks. `packets.dfy` holds `DecodePacket`,
`FlushParser` and `DecVideoData`. `teardown.dfy` holds `CloseDecoder`. `init_decode.dfy` holds `InitDecode`.
`invariants.dfy` holds the facts that span several operations.

Some behaviours of the code worth knowing:

- **Init failures release nothing.** `InitDecode` returns early at the first failed step and keeps whatever
  it already created (`InitKeepsPartialResources`).
- **A tolerated format change still returns 0.** The sequence callback updates the cached format and returns
  0 whether or not the change is tolerated; a tolerated change only leaves the error flag alone
  (`ToleratedChange`).
- **The error flag does not block feeding.** `DecodePacket` never reads the flag: its result is the parse
  result whatever the flag says, and the flag stays raised until `CloseDecoder` (`ErrorStaysRaised`).
- **A failed parse does not set the error flag in `DecodePacket`.** Only `DecVideoData` sets the flag on a
  failed parse. In `DecodePacket` and `FlushParser`, only the callbacks can set it
  (`ParseOutcomeOnlyInResult`).
- **`InitDecode` can succeed with the error flag set.** A header whose sequence callback rejects the format
  still lets `InitDecode` return success if the parse call itself succeeds (`InitSucceedsWithErrorRaised`).
- **The display area uses the raw coded size.** When the coded width is zero, the decoder width falls back
  to the picture width, but `display_area.right` is still computed from the zero coded width
  (`DisplayAreaWithUnknownCodedSize`).

Some constants come from the CUDA, CUVID and FFmpeg headers, which are not part of this model:

| constant | value |
|---|---|
| `CUDA_SUCCESS` | 0 |
| `CUDA_ERROR_OUT_OF_MEMORY` | 2 |
| `CUDA_ERROR_NOT_FOUND` | 500 |
| `CUDA_ERROR_UNKNOWN` | 999 |
| `cudaVideoChromaFormat_420` | 1 |
| `cudaVideoSurfaceFormat_NV12` | 0 |
| `cudaVideoCreate_PreferCUVID` | 4 |
| `CUVID_PKT_ENDOFSTREAM` | 0x01 |
| `CUVID_PKT_TIMESTAMP` | 0x02 |
| `AV_NOPTS_VALUE` | INT64_MIN |
| size of `raw_seqhdr_data` | 1024 |

`FrameQueue::cnMaximumSize` is taken to be 20, its value in NVIDIA's sample frame queue. That header is not
part of this model.

## Model

| member | source | states |
|---|---|---|
| Cuda.Trapped | NVEncCore/src/CuvidDecode.cpp:59-64 | the guarded result is success exactly when the engine returned success; a trapped fault becomes CUDA_ERROR_UNKNOWN, any returned code passes through |
| Cuda.ToShort | NVEncCore/src/CuvidDecode.cpp:213-216 | `(short)x` is a 16-bit value congruent to x modulo 2^16, and is x itself when x fits |
| Cuda.ShortIsUnique | NVEncCore/src/CuvidDecode.cpp:213-216 | only one 16-bit value is congruent to x, so the `(short)` result is determined by x modulo 2^16 |
| Cuda.ShortOfWrappedSum | NVEncCore/src/CuvidDecode.cpp:215-216 | computing the display-area sum with 32-bit wrap-around gives the same `(short)` as exact arithmetic |
| Cuda.ToUint32 | NVEncCore/src/CuvidDecode.cpp:197-198 | storing an int in a 32-bit unsigned field keeps it modulo 2^32, unchanged when non-negative |
| Cuvid.WithFormat | NVEncCore/src/CuvidDecode.cpp:97-100 | overwriting the cached format sets exactly codec, coded width, coded height and chroma, and leaves every other create-info field as it was |
| Session.NewSession | NVEncCore/src/CuvidDecode.cpp:45-50 | a new object holds no handle, has zero counters and flags, the all-zero create-info (so a zero cached format) and an empty trace, and satisfies the session invariant |
| Callbacks.DecVideoSequence | NVEncCore/src/CuvidDecode.cpp:90-107 | returns 1 iff all four incoming fields equal the cached ones, and then changes nothing; otherwise returns 0, the cached format becomes the incoming one, other create-info fields and session fields stay, and the error flag is set iff it was set or changes are not tolerated |
| Callbacks.DecPictureDecode | NVEncCore/src/CuvidDecode.cpp:72-88 | waits on slot CurrPicIdx, then decodes into it; returns 1 iff the decoder returned success; the error flag ends up set iff it was set or the call failed or faulted; nothing else changes |
| Callbacks.DecPictureDisplay | NVEncCore/src/CuvidDecode.cpp:109-115 | enqueues the picture, raises the decoded-frame count by exactly 1, always returns 1, and changes nothing else |
| Callbacks.Dispatch | NVEncCore/src/CuvidDecode.cpp:30-43 | routing a callback to its handler keeps the held handles, never clears the error flag, only appends to the trace, and returns 1 for a display and 1 for a decode iff the decoder succeeded |
| Callbacks.RunCallbacks | NVEncCore/src/CuvidDecode.cpp:181-184 | a run of parser callbacks yields one reply per callback, each 0 or 1, keeps the held handles, never clears the error flag and only appends waits, decodes and enqueues to the trace |
| Callbacks.RunErrorExactly | NVEncCore/src/CuvidDecode.cpp:72-107 | after a run the error flag is set iff it was set before, or some decode callback returned 0, or some sequence callback returned 0 while changes are not tolerated |
| Callbacks.RunCountsDisplays | NVEncCore/src/CuvidDecode.cpp:109-115 | after a run the decoded-frame counter has grown by exactly the number of display callbacks in it |
| Callbacks.RunKeepsWaitBeforeDecode | NVEncCore/src/CuvidDecode.cpp:72-88 | in the trace, every decode call comes directly after a wait on the same slot, and a run of callbacks keeps it so |
| Callbacks.SequenceSettles | NVEncCore/src/CuvidDecode.cpp:90-107 | right after the sequence callback has seen a format, seeing the same format again returns 1 and changes nothing |
| Callbacks.ToleratedChange | NVEncCore/src/CuvidDecode.cpp:96-104 | when format changes are tolerated, a change still returns 0 and leaves the error flag as it was |
| Packets.FlushPacket | NVEncCore/src/CuvidDecode.cpp:239-243 | the flush packet carries only the end-of-stream flag, with no payload, size 0 and timestamp 0 |
| Packets.DataPacket | NVEncCore/src/CuvidDecode.cpp:263-272 | a data packet never carries end-of-stream; it carries the timestamp flag, with the rescaled timestamp, iff the timestamp is not AV_NOPTS_VALUE, and otherwise timestamp 0; its payload is the buffer and its size is nSize modulo 2^32 |
| Packets.Parse | NVEncCore/src/CuvidDecode.cpp:274-282 | a guarded parse records the packet and then runs the callbacks, which append only waits, decodes and enqueues; its result is the trapped parse result; the error flag afterwards is exactly what the callbacks raised |
| Packets.FlushParser | NVEncCore/src/CuvidDecode.cpp:239-256 | sends the end-of-stream packet first and calls endDecode last, whatever the parse returned; returns the trapped parse result; the error flag ends up set iff it was set or a callback raised it |
| Packets.DecodePacket | NVEncCore/src/CuvidDecode.cpp:258-283 | with a null buffer or size 0 it is exactly FlushParser; otherwise it is one parse of the data packet, appending only that parse and the callbacks' wait, decode and enqueue calls, so no endDecode; returns the trapped parse result; the error flag ends up set iff it was set or a callback raised it |
| Packets.DecVideoData | NVEncCore/src/CuvidDecode.cpp:56-70 | returns 1 iff the parse returned success; the error flag ends up set iff it was set, or the parse failed or faulted, or a callback raised it |
| Packets.ParseOutcomeOnlyInResult | NVEncCore/src/CuvidDecode.cpp:239-283 | two DecodePacket calls that differ only in how the parse call ends leave identical sessions |
| Packets.DataPacketIsNotFlush | NVEncCore/src/CuvidDecode.cpp:258-272 | no data packet equals the flush packet |
| Teardown.TeardownCalls | NVEncCore/src/CuvidDecode.cpp:117-131 | teardown destroys the decoder iff one is held, the parser iff one is held, and frees the queue iff one is held; each at most once, the decoder before the parser, and the queue last |
| Teardown.CloseDecoder | NVEncCore/src/CuvidDecode.cpp:117-134 | afterwards no handle is held, the counter is 0 and the error flag is clear; create-info and the tolerance flag are kept; the trace grows by exactly the teardown calls |
| Teardown.CloseIdempotent | NVEncCore/src/CuvidDecode.cpp:117-134 | closing twice gives the same state as closing once |
| Teardown.CloseOfClosed | NVEncCore/src/CuvidDecode.cpp:117-134 | closing an already closed session changes nothing |
| InitDecode.SequenceHeader | NVEncCore/src/CuvidDecode.cpp:170-174 | the kept header is non-empty iff the extra data is present and non-empty, and is then that data |
| InitDecode.ParserParamsFor | NVEncCore/src/CuvidDecode.cpp:176-185 | the parser gets the input codec, cnMaximumSize decode surfaces, a display delay of 1, and the kept sequence header |
| InitDecode.CreateInfoFor | NVEncCore/src/CuvidDecode.cpp:195-219 | coded size falls back to the picture size when zero; the target is dstWidth/dstHeight only when both are positive; chroma is 420; the display-area edges are congruent modulo 2^16 to crop.left, crop.up, crop.right + codedWidth - width and crop.bottom + codedHeight - height |
| InitDecode.CreateInfoSizes | NVEncCore/src/CuvidDecode.cpp:197-211 | with non-negative sizes the decoder size equals the coded size if positive, else the picture size; the target is the requested output size when both its dimensions are positive, and the picture size otherwise |
| InitDecode.DisplayAreaExact | NVEncCore/src/CuvidDecode.cpp:213-216 | when the sums fit in 16 bits the display area equals them exactly |
| InitDecode.DisplayAreaWithUnknownCodedSize | NVEncCore/src/CuvidDecode.cpp:197-216 | a 1920x1080 input with coded size 0 and no crop gets a 1920x1080 decoder and display area (0, 0, -1920, -1080) |
| InitDecode.CreateDecoderAndFeed | NVEncCore/src/CuvidDecode.cpp:194-227 | the stage starts with lock, creation from the derived create-info, and unlock; a failed creation returns its trapped code with no decoder held, the derived create-info cached and nothing further called; otherwise a header's trapped parse result is returned; the stage succeeds iff decoder creation succeeded and any header parse succeeded |
| InitDecode.FeedHeader | NVEncCore/src/CuvidDecode.cpp:229-236 | a failed decoder creation returns its code and changes nothing; after a successful one a non-empty header is sent next as a packet with no flag, the header as payload and its length as size, and its trapped parse result is returned; with no header the result is success and nothing changes |
| InitDecode.CreateParserAndDecoder | NVEncCore/src/CuvidDecode.cpp:187-191 | a failed parser creation returns its code with no parser and no decoder held; after a successful one, a failed decoder creation returns its trapped code and otherwise a header's trapped parse result is returned; success needs every later step to succeed |
| InitDecode.InitDecode | NVEncCore/src/CuvidDecode.cpp:147-237 | tears down first and sets the tolerance flag; returns CUDA_ERROR_NOT_FOUND with nothing created when the library is missing, and CUDA_ERROR_OUT_OF_MEMORY with the session closed when the queue allocation fails; then returns the parser-creation code when that fails, the trapped decoder-creation code when that fails, and the header's trapped parse result; succeeds iff every step succeeds, and then holds queue, parser and decoder |
| InitDecode.CreatedSession | NVEncCore/src/CuvidDecode.cpp:149-221 | the session just after decoder creation: teardown, queue, parser and decoder-creation calls in that order, the derived create-info cached, queue and parser held, the decoder held iff its creation succeeded, counters reset |
| InitDecode.InitReachesDecoder | NVEncCore/src/CuvidDecode.cpp:160-227 | once library, queue and parser are in place, InitDecode continues from the state with the derived create-info and the decoder creation recorded |
| InitDecode.InitEarlyExits | NVEncCore/src/CuvidDecode.cpp:154-191 | after the teardown, the calls made are none when the library is missing, only the queue allocation when it fails, and queue creation, queue init and parser creation when the parser fails |
| InitDecode.InitDecoderAfterParser | NVEncCore/src/CuvidDecode.cpp:194-227 | with the parser in place, lock, decoder creation and unlock follow directly; the trace stops there iff decoder creation failed or there is no header |
| InitDecode.InitFeedsHeaderLast | NVEncCore/src/CuvidDecode.cpp:229-234 | the header is sent right after the decoder is created, as a packet with no flag, the header as payload and its length as size |
| InitDecode.InitKeepsPartialResources | NVEncCore/src/CuvidDecode.cpp:187-191 | a failed parser creation returns its code with the frame queue still allocated |
| InitDecode.InitAcceptsItsOwnFormat | NVEncCore/src/CuvidDecode.cpp:195-201 | after a successful init without a header, the cached format is the derived one, the counters are reset, and the sequence callback accepts the derived format without any change |
| Invariants.DispatchKeepsWellFormed | NVEncCore/src/CuvidDecode.cpp:30-43 | every callback keeps the handles nested and every decode directly after a wait on its slot |
| Invariants.DecodePacketKeepsWellFormed | NVEncCore/src/CuvidDecode.cpp:239-283 | feeding or flushing keeps the session invariant |
| Invariants.DecVideoDataKeepsWellFormed | NVEncCore/src/CuvidDecode.cpp:56-70 | a packet from the video source keeps the session invariant |
| Invariants.CloseKeepsWellFormed | NVEncCore/src/CuvidDecode.cpp:117-134 | teardown keeps the session invariant |
| Invariants.InitKeepsWellFormed | NVEncCore/src/CuvidDecode.cpp:147-237 | initialisation keeps the session invariant whichever step fails |
| Invariants.ErrorStaysRaised | NVEncCore/src/CuvidDecode.cpp:56-134 | a raised error flag stays raised through every callback, DecodePacket, DecVideoData and flush that may be called, with or without the frame queue where the call does not need it, and only CloseDecoder lowers it |
| Invariants.FailedSourcePacketSticks | NVEncCore/src/CuvidDecode.cpp:56-70 | a source packet whose parse fails or faults is answered with 0 and raises the flag, which a later DecodePacket, even a successful one, does not lower |
| InitDecode.InitSucceedsWithErrorRaised | NVEncCore/src/CuvidDecode.cpp:229-236 | if the header's sequence callback reports a different format and the parse succeeds, InitDecode returns success with the error flag set and the new format cached |

## Left out

- `check_if_nvcuvid_dll_available` loads and frees a DLL, which is OS I/O. Its answer is the boolean
  `InitEngine.dllAvailable`.
- The `cuvid*` calls belong to a foreign library. They are represented only by their result codes (or a
  trapped fault) and by their place in the trace.
- `__try`/`__except` is platform fault trapping. A trapped fault is the `Faulted` outcome, which the guard
  turns into `CUDA_ERROR_UNKNOWN`.
- `CUVIDFrameQueue` is not part of this model. Its blocking wait, `enqueue`, `endDecode`, `init` and the slot
  bookkeeping are cross-thread synchronisation. The session's calls to it appear only as trace events. The
  frame queue's own slot bookkeeping (reserve, publish, FIFO hand-out, available count) is not modelled.
- `av_rescale_q` is not part of this model. It is the function parameter `toNative`, already bound to the
  stream and native time bases.
- `AddMessage` logging and `m_pPrintMes` have no behaviour to verify.
- The `memcpy` of the sequence header is not modelled: the header bytes are taken as the extra data itself.
  `InitDecode` requires the header to fit the 1024-byte `raw_seqhdr_data` buffer, because the code copies it
  unchecked.
- The value of the context-lock handle is not modelled, only the lock and unlock calls around decoder creation.
  The lock calls that are commented out in the source are not modelled.
- The callback function pointers and the user-data pointer are not modelled. The `Handle…` adapters are
  `Dispatch`.
- The decode and display callbacks, runs of callbacks that contain one of them, and `FlushParser` require the
  frame queue to be held. The code dereferences the queue unconditionally there, so a call without it is
  undefined behaviour. The sequence callback never touches the queue and requires nothing.
- `new CUVIDFrameQueue` returning null is the boolean `InitEngine.queueAllocated`. Standard C++ `new` throws
  instead of returning null.
- Callbacks.DecPictureDisplay: `m_decodedFrames` is an unbounded counter. The signed overflow of a C `int` is
  not modelled, because it is undefined behaviour.
- InitDecode.CreateInfoFor: the `int` additions in the display-area expressions are computed exactly. A
  signed overflow there is undefined behaviour. `ShortOfWrappedSum` shows that a wrapping evaluation gives
  the same `(short)`.
- Fields of the CUVID structures that the session neither sets nor reads are not modelled: they stay zero
  after the `memset`. The commented-out deinterlace mode is one of them.
- `vidLock`, which `InitDecode` sets to the context-lock handle, is not modelled, like the handle itself.
