# unreal_fpvcam, modelled in Dafny

This project models the deterministic core of unreal_fpvcam, an Unreal
Engine front end for a first-person-view camera rig. That core has two
parts.

The **control uplink** (`UCameraDataStreamer` and its worker
`FCameraDataStreamerRunnable`) works in two steps:

- The worker first calibrates the offset between its clock and the
  client's clock. It runs up to 20 timestamp probes for each accepted
  client and averages the samples with truncating integer division.
- On every game tick, the component advances its send timer. When the
  timer fires and both the worker and a camera manager exist, it unwraps
  the camera yaw into a continuous accumulated angle and queues one
  record of pitch, accumulated yaw and roll.

The **video downlink** exists in two versions:

- The threaded receiver (`FFmpegWorker` plus the `MyBlankVRProject`
  `ADynamicTextureActor`) has these pieces:
  - The worker retries stream initialisation.
  - It drains the decoder down to the newest frame.
  - It publishes that frame into a single slot buffer, freeing the
    buffer the slot held before.
  - The actor copies the slot through a pending-frame handoff into its
    854x480 texture, after checking the size.
  - The session description reaches the demuxer through an in-memory
    cursor reader.
- The older single-threaded actor (`unreal_fpvcam`) does everything
  within one tick. It reads a packet, drains the decoder and copies the
  newest frame into a 256x256 texture pixel by pixel.

The modules are:

| module | file | models |
|---|---|---|
| `Common`, `Memory` | `common.dfy` | an option type, bytes, and a ledger of `av_malloc` blocks (`Heap.live`), which turns "freed exactly once" and "leaked" into statements about sets |
| `ClockSync` | `clock_sync.dfy` | `FCameraDataStreamerRunnable::CalibrateClockOffset` and `Stop` |
| `CameraStreamer` | `camera_streamer.dfy` | `UCameraDataStreamer::BeginPlay` (yaw initialisation) and `TickComponent` |
| `Decoding` | `decoding.dfy` | what both actors share: stream selection, the drain loop, the buffer size |
| `VideoReceiver` | `video_receiver.dfy` | `FFmpegWorker`'s constructor, `Run`, `Stop`, `GetLatestFrame` and the destructor's release of the published buffer, and from the threaded `ADynamicTextureActor` `read_packet`, stream initialisation, `OnNewFrameAvailable`, `Tick`, `UpdateTexture`, and the worker's part of `EndPlay` |
| `FpvTexture` | `fpv_texture.dfy` | the older `ADynamicTextureActor`: stream initialisation, `Tick`, `UpdateTexture` |

Several things become inputs to the model:

- **Sockets, the camera manager and FFmpeg.** Their answers are
  parameters or input scripts. An `AcceptResult` carries the replies of
  one client's probes. An `InitEnv`/`OpenEnv` carries the outcomes of one
  initialisation attempt. A `DecodeStep` carries the buffer size, the
  allocation outcome, the packet read and the frames ready for one pass
  of the decode loop.
- **The stop flag.** Another thread raises it. The model raises it where
  the worker polls the flag and finds its input script exhausted.
- **Locked regions.** Each locked region is one method call.

## Model

| member | source | states |
|---|---|---|
| ClockSync.TruncDiv | Source/MyBlankVRProject/CameraDataStreamerRunnable.cpp:158 | the quotient rounds toward zero: the remainder has the dividend's sign and is smaller than the divisor |
| ClockSync.SampleOffset | Source/MyBlankVRProject/CameraDataStreamerRunnable.cpp:156-158 | the sample `((t_client - t1) + (t4 - t_client)) / 2` does not depend on the client's timestamp: it is the truncated half of `t4 - t1` |
| ClockSync.WholeSecondOffset | Source/MyBlankVRProject/CameraDataStreamerRunnable.cpp:131-158 | with t1 and t4 taken as whole seconds times 1000, the sample `((t_client - t1) + (t4 - t_client)) / 2` equals `500 * (t4s - t1s)`, so the client's timestamp cancels out and every sample is a multiple of 500 ms |
| ClockSync.Probe | Source/MyBlankVRProject/CameraDataStreamerRunnable.cpp:121-169 | one connection's probe loop records at most its budget of samples (20) and at most one per reply |
| ClockSync.ProbeShape | Source/MyBlankVRProject/CameraDataStreamerRunnable.cpp:121-166 | one connection's probe loop records at most 20 samples, exactly the offsets of the leading replies that were received with 8 bytes, and stops at the first stop request or at the first failed or short receive |
| ClockSync.MeanBetweenExtremes | Source/MyBlankVRProject/CameraDataStreamerRunnable.cpp:171-184 | the truncating mean of the samples lies between the smallest and the largest sample |
| ClockSync.MeanOffset | Source/MyBlankVRProject/CameraDataStreamerRunnable.cpp:175-184 | the summing loop followed by the truncating division yields the truncating mean of all samples |
| ClockSync.Calibrate | Source/MyBlankVRProject/CameraDataStreamerRunnable.cpp:111-204 | the accept loop reports calibration only with at least 20 samples in its list and after accepting at least one client; it accepts no more clients than the accept attempts that produce one |
| ClockSync.CalibratedIffEnoughSamples | Source/MyBlankVRProject/CameraDataStreamerRunnable.cpp:171-199 | the accept loop reports calibration exactly when its sample list holds at least 20 entries |
| ClockSync.EndsOnStopOrSuccess | Source/MyBlankVRProject/CameraDataStreamerRunnable.cpp:111-204 | the accept loop ends only with calibration done or the stop flag raised |
| ClockSync.SamplesNeverCleared | Source/MyBlankVRProject/CameraDataStreamerRunnable.cpp:105-199 | samples from earlier, dropped connections stay in the list, in order, as a prefix of the final list |
| ClockSync.SamplesHalfSeconds | Source/MyBlankVRProject/CameraDataStreamerRunnable.cpp:131-159 | every sample the accept loop ever records is a multiple of 500 ms |
| ClockSync.ClockSyncRunnable.constructor | Source/MyBlankVRProject/CameraDataStreamerRunnable.cpp:9-14 | the worker starts with the stop flag down and `average_offset` 0 |
| ClockSync.ClockSyncRunnable.Stop | Source/MyBlankVRProject/CameraDataStreamerRunnable.cpp:321 | `Stop` only raises the stop flag |
| ClockSync.ClockSyncRunnable.ProbeConnection | Source/MyBlankVRProject/CameraDataStreamerRunnable.cpp:121-169 | the probe loop appends exactly the samples of the probe specification and leaves the stop flag set exactly when a stop request ended it |
| ClockSync.ClockSyncRunnable.CalibrateClockOffset | Source/MyBlankVRProject/CameraDataStreamerRunnable.cpp:100-213 | the samples, the calibration result and the stop flag follow the accept-loop specification; on success `average_offset` is the truncating mean of at least 20 samples, otherwise it is unchanged; the number of clients accepted is the accept-loop specification's client count, and every accepted client socket is released exactly once, either when its connection is dropped or at cleanup |
| ClockSync.StaleSamplesCompleteCalibration | Source/MyBlankVRProject/CameraDataStreamerRunnable.cpp:105-199 | as written, a second client that answers a single probe completes calibration, because 19 samples of a dropped first client are still in the list |
| ClockSync.FreshCalibrationUsesOneClient | Source/MyBlankVRProject/CameraDataStreamerRunnable.cpp:105-199 | with a list started afresh for each client, a successful calibration averages exactly the 20 samples of one accepted connection |
| ClockSync.FreshRejectsShortSecondClient | Source/MyBlankVRProject/CameraDataStreamerRunnable.cpp:105-199 | with fresh lists, the short second client does not calibrate |
| CameraStreamer.CorrectDelta | Source/MyBlankVRProject/CameraDataStreamer.cpp:69-75 | at most one correction of 360 degrees is applied, none for a delta in [-180, 180], and a raw delta in [-540, 540] ends up in [-180, 180] |
| CameraStreamer.Accumulate | Source/MyBlankVRProject/CameraDataStreamer.cpp:69-78 | one accumulated yaw per send: the first adds the corrected change from the starting yaw, and each later one adds the corrected change between consecutive raw yaws to the one before |
| CameraStreamer.CrossingZeroExample | Source/MyBlankVRProject/CameraDataStreamer.cpp:69-78 | starting at yaw 350, raw yaws 355, 2 and 10 accumulate to 5, 12 and 20 |
| CameraStreamer.AccumulatedStepsBounded | Source/MyBlankVRProject/CameraDataStreamer.cpp:69-78 | for raw yaws in [0, 360), no step of the accumulated yaw exceeds 180 degrees |
| CameraStreamer.AccumulateWholeTurns | Source/MyBlankVRProject/CameraDataStreamer.cpp:69-78 | after any series of sends, the accumulated yaw differs from the raw yaw's net change by a whole number of turns |
| CameraStreamer.CameraDataStreamer.constructor | Source/MyBlankVRProject/CameraDataStreamer.h:29-34 | the timer starts at 0, the interval at 0.001 s, both yaws at 0, and the queue empty |
| CameraStreamer.CameraDataStreamer.BeginPlay | Source/MyBlankVRProject/CameraDataStreamer.cpp:13-31 | the worker is started; with a camera manager, `PreviousYaw` becomes the camera yaw and `AccumulatedYaw` 0, and without one both keep their values |
| CameraStreamer.CameraDataStreamer.TickComponent | Source/MyBlankVRProject/CameraDataStreamer.cpp:51-88 | the timer accumulates and, when it reaches the interval, is reset to 0; when it fires with a worker and a camera manager, the accumulated yaw grows by exactly the corrected delta, the raw yaw is remembered, and exactly one (pitch, accumulated yaw, roll) record is queued; otherwise yaw state and queue are unchanged; the accumulated yaw stays a whole number of turns away from the raw yaw's net change |
| Decoding.BgraBufferSize | Source/unreal_fpvcam/Private/DynamicTextureActor.cpp:188 | the BGRA buffer size is positive exactly for positive dimensions, and is then 4 bytes per pixel |
| Decoding.FirstVideo | Source/MyBlankVRProject/DynamicTextureActor.cpp:226-233 | the index the selection loop stops at is a video stream and no earlier stream is one |
| Decoding.ScaleToBgra | Source/MyBlankVRProject/FFmpegWorker.cpp:96-118 | the scaled buffer is exactly the destination size and starts with the picture's bytes |
| Decoding.SelectVideoStream | Source/MyBlankVRProject/DynamicTextureActor.cpp:225-238 | the index becomes that of the first video stream and the decoder lookup runs (`codec` is set) exactly when there is a video stream; with none the index keeps its previous value |
| Decoding.DrainToLatest | Source/MyBlankVRProject/FFmpegWorker.cpp:86-92 | after the drain loop the latest frame is the last one received, and `have_new_frame` is true exactly when at least one frame was received |
| VideoReceiver.BufferData.constructor | Source/MyBlankVRProject/DynamicTextureActor.cpp:178-180 | the cursor starts at the text's start with all of it to deliver |
| VideoReceiver.NewSdpReader | Source/MyBlankVRProject/DynamicTextureActor.cpp:164-180 | the reader set up over the embedded session description has `strlen` of it left to deliver |
| VideoReceiver.BufferData.ReadPacket | Source/MyBlankVRProject/DynamicTextureActor.cpp:148-157 | `min(buf_size, size)` bytes are copied from the cursor and the cursor advances by that many; with nothing to copy the result is `AVERROR_EOF` and nothing changes; the bytes delivered so far are always a prefix of the text, and end-of-file on a non-empty buffer means all of it was delivered |
| VideoReceiver.LastPublished | Source/MyBlankVRProject/FFmpegWorker.cpp:94-134 | the pass whose buffer the slot ends up holding publishes and no later pass publishes; there is none exactly when no pass publishes |
| VideoReceiver.FirstSuccess | Source/MyBlankVRProject/FFmpegWorker.cpp:39-50 | the attempt at which the retry loop stops succeeds and every earlier attempt fails; there is none exactly when every attempt fails |
| VideoReceiver.ReallocIfEmpty | Source/MyBlankVRProject/DynamicTextureActor.cpp:412-422 | a non-empty bulk buffer is kept; an empty one is reallocated to `num_bytes` bytes, and stays empty for a non-positive count |
| VideoReceiver.StandardRunFrameSize | Source/MyBlankVRProject/FFmpegWorker.cpp:58-64 | when every pass computes its buffer size from the owner's 854 x 480 texture, the frame the run leaves in the slot and hands the owner is exactly one 854 x 480 BGRA image |
| VideoReceiver.RunReachedStep | Source/MyBlankVRProject/FFmpegWorker.cpp:52-143 | one more decode pass extends the run's state: forwarded packets, slot and pending frame from the last publishing pass, and the ledger of live buffers |
| VideoReceiver.ForwardedAreVideo | Source/MyBlankVRProject/FFmpegWorker.cpp:74-84 | over any run, only packets of the video stream reach the decoder, at most one per pass |
| VideoReceiver.FFmpegWorker.constructor | Source/MyBlankVRProject/FFmpegWorker.cpp:6-13 | the worker starts with no published buffer, size 0 and the stop flag down |
| VideoReceiver.FFmpegWorker.Stop | Source/MyBlankVRProject/FFmpegWorker.cpp:148-151 | `Stop` only raises the stop flag |
| VideoReceiver.FFmpegWorker.Dispose | Source/MyBlankVRProject/FFmpegWorker.cpp:15-29 | the destructor frees a published buffer and nothing else |
| VideoReceiver.FFmpegWorker.GetLatestFrame | Source/MyBlankVRProject/FFmpegWorker.cpp:153-167 | the copy succeeds exactly when a non-empty buffer is published and the allocation succeeds; the output is then a fresh byte-equal copy with the slot's size; on a failed allocation the output pointer becomes null and the size is kept; the slot never changes |
| VideoReceiver.FFmpegWorker.DecodeIteration | Source/MyBlankVRProject/FFmpegWorker.cpp:52-143 | a bad size or a failed allocation skips the pass with no decoding and no slot change; otherwise a packet reaches the decoder exactly when it is of the video stream, the latest frame is the last one drained, and a pass that drained a frame publishes its scaled buffer, frees the buffer the slot held before and sets the size; each pass's buffer is released exactly once, either into the slot or freed |
| VideoReceiver.FFmpegWorker.RetryInitialize | Source/MyBlankVRProject/FFmpegWorker.cpp:39-50 | initialisation succeeds exactly when the stop flag was down and some attempt succeeds; the loop stops at the first successful attempt, leaving the owner initialised on that attempt's first video stream with the flag down; each attempt starts from the stream index the previous one left; otherwise the flag ends raised and the owner is not initialised |
| VideoReceiver.FFmpegWorker.DecodePass | Source/MyBlankVRProject/FFmpegWorker.cpp:54-139 | the decoder receives the pass's video packet; a publishing pass puts its scaled newest frame into the slot and notifies the owner, whose pending frame becomes a copy of it with the flag raised, or null when the copy allocation fails; a pass that does not publish leaves slot and owner alone; of the buffers allocated only the slot and the owner's copy remain |
| VideoReceiver.FFmpegWorker.DecodeNext | Source/MyBlankVRProject/FFmpegWorker.cpp:52-143 | the loop body: pass `j` takes the run's state after `j` passes to its state after `j + 1` |
| VideoReceiver.FFmpegWorker.DecodeLoop | Source/MyBlankVRProject/FFmpegWorker.cpp:52-143 | passes run until the stop flag is raised, and none runs when it is already raised; afterwards the decoder has received exactly the video packets of the passes that got a buffer; the slot holds the buffer of the last publishing pass and the owner's pending frame is its copy, or both are as before if none published; the only new live buffers are the slot and one copy per publishing pass whose copy allocation succeeded |
| VideoReceiver.FFmpegWorker.Run | Source/MyBlankVRProject/FFmpegWorker.cpp:37-146 | the decode loop runs exactly when the flag was down and some initialisation attempt succeeds, and the owner is then initialised on the first successful attempt's video stream; the decoder receives exactly the video packets of the passes that got a buffer; the slot holds the buffer of the last publishing pass and the owner's pending frame is its copy; only the slot and the owner's copies remain allocated; the owner's new-frame flag is raised exactly when it was already up or some copy was made, and with no publishing pass the slot, its size and the owner's pending frame, size and flag are unchanged; without a successful attempt nothing is decoded, no buffer is allocated and the slot, its size and the owner's pending frame, size and flag are unchanged; the owner's texture is untouched |
| VideoReceiver.DynamicTextureActor.constructor | Source/MyBlankVRProject/DynamicTextureActor.cpp:11-22 | the actor starts at 854x480 with no video stream selected (-1) and not initialised; with the reset and worker start of `BeginPlay` (lines 125-131) folded in, it has no pending frame and a fresh worker with an empty slot |
| VideoReceiver.DynamicTextureActor.InitializeUDPVideoStream | Source/MyBlankVRProject/DynamicTextureActor.cpp:159-271 | returns 0 exactly when every library call succeeds and this attempt finds a video stream, and only then sets `stream_initialized`; the index moves to the first video stream once the demuxer is open and has one, and otherwise keeps the value an earlier attempt left |
| VideoReceiver.DynamicTextureActor.OnNewFrameAvailable | Source/MyBlankVRProject/DynamicTextureActor.cpp:342-353 | the new-frame flag is raised only when `GetLatestFrame` succeeds, and the pending frame is then a copy of the slot; an earlier unconsumed pending copy is overwritten but stays allocated |
| VideoReceiver.DynamicTextureActor.UpdateTexture | Source/MyBlankVRProject/DynamicTextureActor.cpp:386-458 | nothing is written for a null or empty image, for missing mips, when the realloc or the lock fails, or when `num_bytes` is not `width*height*4`; an empty bulk buffer is first reallocated to `num_bytes`; otherwise exactly the first `num_bytes` bytes are copied and the rest of the bulk data is kept |
| VideoReceiver.DynamicTextureActor.Tick | Source/MyBlankVRProject/DynamicTextureActor.cpp:356-384 | without the flag nothing changes; with it the flag is cleared and a non-empty pending frame is taken, its fields cleared and its block freed; the frame reaches the texture exactly when the texture has mips, its bulk data (an empty one reallocated first) is non-empty and large enough, the lock succeeds and the frame is 854x480x4 bytes, and otherwise the bulk data is only reallocated |
| VideoReceiver.DynamicTextureActor.EndPlay | Source/MyBlankVRProject/DynamicTextureActor.cpp:273-296 | the worker is stopped and destroyed, which frees its published buffer; a pending copy stays allocated |
| FpvTexture.FpvTextureActor.constructor | Source/unreal_fpvcam/Private/DynamicTextureActor.cpp:12-26 | the actor starts with no video stream selected (-1) and not initialised |
| FpvTexture.FpvTextureActor.InitializeUDPVideoStream | Source/unreal_fpvcam/Private/DynamicTextureActor.cpp:64-131 | returns 0 exactly when the stream opens, its information is found, this attempt finds a video stream and the codec opens; the selected index is the first video stream's |
| FpvTexture.FpvTextureActor.BeginPlay | Source/unreal_fpvcam/Private/DynamicTextureActor.cpp:29-62 | one initialisation attempt and no retry on an actor not yet initialised: it is initialised exactly when the stream has a video stream and every call succeeds |
| FpvTexture.FpvTextureActor.UpdateTexture | Source/unreal_fpvcam/Private/DynamicTextureActor.cpp:238-278 | with no mips nothing is written; otherwise bytes `[0, 4*256*256)` of the image are copied byte for byte and the bytes beyond are untouched |
| FpvTexture.FpvTextureActor.Tick | Source/unreal_fpvcam/Private/DynamicTextureActor.cpp:174-236 | nothing happens before initialisation; afterwards a packet of the video stream reaches the decoder, the latest frame is the last drained, a new frame is scaled and copied into the texture, and the per-tick buffer is allocated and freed exactly once, leaving the set of live blocks as it was |

## Left out

- Network I/O is not modelled. This covers the HTTP announcement, socket creation, bind and listen, and the UDP/RTP reception inside FFmpeg. `Accept` and `Recv` become the `AcceptResult` and `ProbeReply` scripts.
- The result of the probe's `Send` is ignored by the source and is not modelled.
- `StreamControlData` is commented out in the source, so it has no live behaviour to model.
- The "%f,%f,%f" formatting of queued records is left out; a record keeps its three values.
- The mismatch between `CameraDataStreamer.cpp` and the runnable's header belongs to a different revision. Producer and consumer of the control queue are modelled separately.
- FFmpeg internals are foreign code and are not modelled: demuxing, decoding, `avcodec_find_decoder`, `sws_getContext` and the colour conversion. `ScaleToBgra` only stands in for `sws_scale`, giving the destination the picture's leading bytes.
- Failures of `avcodec_send_packet` only produce a log line, so they are not modelled.
- Threads, `FCriticalSection`, `FScopeLock` and `FThreadSafeBool` are not modelled. Each locked region is one atomic call, and `Sleep` calls are dropped.
- Without threads the model cannot interleave the worker's publish with the game thread's `Tick`.
- Engine scaffolding is not modelled: meshes, materials, logging, `UpdateResource`, and creating the texture. The texture's bulk data is a constructor parameter.
- FFmpeg teardown in `EndPlay` is not modelled. Only the worker's stop and destruction are.
- `FFmpegWorker::Init` only returns true and is not modelled; neither is the deletion of the `FRunnableThread` in the worker's destructor, since threads are not modelled.
- An initialisation attempt that finds no video stream after an earlier attempt chose one keeps the stale index. The source then reads that index's stream parameters, possibly past `nb_streams`, and calls `avcodec_open2` with a null codec, which fails. The model returns -1 for such an attempt and does not model the out-of-range read.
- Floating point is modelled as `real`: angles and times are exact.
- ClockSync.SampleOffset: `int64` overflow of the differences and the `uint64`-to-`int64` casts of the timestamps are not modelled. Integers are unbounded.
- ClockSync.ClockSyncRunnable.CalibrateClockOffset: the running sum is unbounded, so `int64` overflow of the sum is not modelled.
- FFmpeg contexts are not tracked. Repeated `InitializeUDPVideoStream` attempts allocate format, codec and scaler contexts without freeing earlier ones, and the avio buffer freed on a failed context allocation is not tracked either. The `Heap` ledger tracks only the frame buffers.
- `avformat_open_input` consuming the session description through `read_packet` is foreign. `BufferData.ReadPacket` is modelled on its own, over any buffer.
- VideoReceiver.DynamicTextureActor.UpdateTexture: a `memcpy` that would read past the image or write past the bulk data is undefined behaviour in the source. The model reports it as the `Overrun` outcome and writes nothing.
- VideoReceiver.DynamicTextureActor.UpdateTexture: a `Realloc` with a negative count is modelled as a failed reallocation.
- FpvTexture.FpvTextureActor.UpdateTexture: requires an image that holds a whole frame and bulk data that holds one, because the source checks neither.
- FpvTexture.FpvTextureActor.UpdateTexture: a failed `Lock` is not checked by the source and is not modelled.
- FpvTexture.FpvTextureActor.Tick: the source does not check the `av_malloc` result, so the model assumes the allocation succeeds.
- The decoder's source dimensions (`src_width`, `src_height`) are unused by the modelled logic.

## Findings

| source | as written | input that shows it | evidently intended | confidence | as-written member | corrected member |
|---|---|---|---|---|---|---|
| Source/MyBlankVRProject/CameraDataStreamerRunnable.cpp:105-199 | `sample_offsets` is declared once before the accept loop and never cleared when a client is dropped, so samples of failed connections count toward later ones | a first client answers 19 probes and then fails a receive; a second client answers one probe and fails: calibration completes on the second client with 20 samples, 19 from a dropped connection | every accepted client starts with an empty list, so calibration needs 20 samples from one connection | medium, not executed | ClockSync.StaleSamplesCompleteCalibration | ClockSync.FreshCalibrationUsesOneClient |
