/**
 * The threaded video receiver: `FFmpegWorker`, the decode thread that keeps
 * one published frame buffer (the slot), and `ADynamicTextureActor`, the
 * game-thread consumer that copies that slot through a pending-frame
 * handoff into its texture. Both live in one module because each calls the
 * other.
 *
 * Locks are left out: each locked region is one method call. The worker's
 * stop flag, raised from the game thread, is modelled by the scripts
 * running out. Buffers from `av_malloc`/`av_free` are blocks of a `Heap`
 * ledger, so "freed exactly once" and "leaked" are statements about
 * `heap.live`.
 */
module VideoReceiver {
  import opened Common
  import opened Memory
  import opened Decoding

  /** The texture size this actor creates. */
  const TextureWidth: int := 854
  const TextureHeight: int := 480

  /** `AVERROR_EOF`, the tag `FFERRTAG('E','O','F',' ')` negated. */
  const AvErrorEof: int := -0x20464F45

  /** The session description the receiver feeds to the demuxer. */
  const SdpDescription: string :=
    "v=0\no=- 0 0 IN IP4 0.0.0.0\ns=No Name\nc=IN IP4 0.0.0.0\nt=0 0\n" +
    "a=tool:libavformat\nm=video 5253 RTP/AVP 96\na=rtpmap:96 H264/90000\n"

  /** The bytes of an ASCII text, one per character. */
  function AsciiBytes(s: string): (r: seq<Byte>)
    ensures |r| == |s|
  {
    seq(|s|, i requires 0 <= i < |s| => (s[i] as int % 256) as Byte)
  }

  function Min(a: int, b: int): int
  {
    if a <= b then a else b
  }

  function SlotIds(slot: Option<Block>): set<nat>
  {
    if slot.Some? then {slot.value.id} else {}
  }

  // ---------------------------------------------------------------------
  // read_packet over the embedded session description
  // ---------------------------------------------------------------------

  /** `BufferData`: a cursor over a text, `ptr` bytes in with `size` to go. */
  class BufferData {
    const text: seq<Byte>
    var ptr: nat
    var size: nat
    /** Every byte handed out so far, in order. */
    ghost var delivered: seq<Byte>

    ghost predicate Valid()
      reads this
    {
      ptr + size == |text| && delivered == text[..ptr]
    }

    /** The cursor as the stream initialisation sets it up: at the start, `strlen` bytes to go. */
    constructor (text: seq<Byte>)
      ensures Valid() && this.text == text
      ensures ptr == 0 && size == |text| && delivered == []
    {
      this.text := text;
      ptr := 0;
      size := |text|;
      delivered := [];
    }

    /**
     * `read_packet`: copies `min(buf_size, size)` bytes from the cursor
     * into `buf` and advances the cursor by that many; with nothing to copy
     * it returns `AVERROR_EOF` and leaves cursor and buffer alone. The bytes
     * handed out so far are always a prefix of the text, every successful
     * call makes progress, and an end-of-file answer to a non-empty buffer
     * means the whole text has been handed out.
     */
    method ReadPacket(buf: array<Byte>) returns (ret: int)
      requires Valid()
      modifies this`ptr, this`size, this`delivered, buf
      ensures Valid()
      ensures Min(buf.Length, old(size)) == 0 ==>
                && ret == AvErrorEof
                && ptr == old(ptr) && size == old(size) && delivered == old(delivered)
                && buf[..] == old(buf[..])
      ensures Min(buf.Length, old(size)) > 0 ==>
                && ret == Min(buf.Length, old(size))
                && ptr == old(ptr) + ret && size == old(size) - ret
                && buf[..ret] == text[old(ptr)..old(ptr) + ret]
                && buf[ret..] == old(buf[ret..])
                && delivered == old(delivered) + buf[..ret]
      ensures ret == AvErrorEof && buf.Length > 0 ==> delivered == text
    {
      var len := Min(buf.Length, size);
      if len == 0 {
        return AvErrorEof;
      }
      forall k | 0 <= k < len {
        buf[k] := text[ptr + k];
      }
      assert buf[..len] == text[ptr..ptr + len];
      assert text[..ptr + len] == text[..ptr] + text[ptr..ptr + len];
      delivered := delivered + buf[..len];
      ptr := ptr + len;
      size := size - len;
      ret := len;
    }
  }

  /** The cursor over the session description starts with all of it to deliver. */
  method NewSdpReader() returns (bd: BufferData)
    ensures fresh(bd) && bd.Valid()
    ensures bd.text == AsciiBytes(SdpDescription) && bd.ptr == 0
    ensures bd.size == |SdpDescription|
  {
    bd := new BufferData(AsciiBytes(SdpDescription));
  }

  // ---------------------------------------------------------------------
  // What the foreign libraries answer
  // ---------------------------------------------------------------------

  /** The outcomes of the library calls made by one `InitializeUDPVideoStream`. */
  datatype InitEnv = InitEnv(
    avioOk: bool,            // avio buffer and context allocated
    openOk: bool,            // avformat_open_input returned 0
    streamInfoOk: bool,      // avformat_find_stream_info succeeded
    streams: seq<MediaType>, // codec types of the streams found
    codecOk: bool)           // a decoder exists for the stream and avcodec_open2 succeeded

  /**
   * An initialisation attempt that returns 0: every call succeeds and the
   * attempt itself finds a video stream, so `codec` is set.
   */
  predicate InitSucceeds(env: InitEnv)
  {
    env.avioOk && env.openOk && env.streamInfoOk && HasVideo(env.streams) && env.codecOk
  }

  /**
   * `videoStreamIndex` after one attempt: the first video stream once the
   * demuxer is open and has one, otherwise the index the attempt started with.
   */
  function IndexAfterInit(env: InitEnv, index: int): int
  {
    if env.avioOk && env.openOk && env.streamInfoOk && HasVideo(env.streams) then FirstVideo(env.streams)
    else index
  }

  /** `videoStreamIndex` after a series of attempts, each starting where the previous one left it. */
  function IndexAfterAttempts(inits: seq<InitEnv>, index: int): int
    decreases |inits|
  {
    if inits == [] then index
    else IndexAfterInit(inits[|inits| - 1], IndexAfterAttempts(inits[..|inits| - 1], index))
  }

  /** `IndexAfterAttempts` over one more attempt. */
  lemma IndexAfterAttemptsSnoc(inits: seq<InitEnv>, i: nat, index: int)
    requires i < |inits|
    ensures IndexAfterAttempts(inits[..i + 1], index) ==
            IndexAfterInit(inits[i], IndexAfterAttempts(inits[..i], index))
  {
    assert inits[..i + 1][..i] == inits[..i];
  }

  /** The position of the first attempt that succeeds, if any does. */
  function FirstSuccess(inits: seq<InitEnv>): (r: Option<nat>)
    ensures r.Some? ==>
              && r.value < |inits| && InitSucceeds(inits[r.value])
              && forall j :: 0 <= j < r.value ==> !InitSucceeds(inits[j])
    ensures r.None? <==> forall j :: 0 <= j < |inits| ==> !InitSucceeds(inits[j])
    decreases |inits|
  {
    if inits == [] then None
    else if InitSucceeds(inits[0]) then Some(0)
    else
      var rest := FirstSuccess(inits[1..]);
      assert forall j :: 1 <= j < |inits| ==> inits[j] == inits[1..][j - 1];
      if rest.None? then None else Some(rest.value + 1)
  }

  /** How many attempts the retry loop makes: up to the first success, or all of them. */
  function AttemptsMade(inits: seq<InitEnv>): (n: nat)
    ensures n <= |inits|
  {
    if FirstSuccess(inits).Some? then FirstSuccess(inits).value + 1 else |inits|
  }

  /**
   * The outcomes of the library calls made by one pass of the decode loop:
   * the buffer size (in the program always `BgraBufferSize` of the owner's
   * texture dimensions, see `StandardSteps`), whether `av_malloc` succeeded, the packet read (if
   * any), the frames the decoder then has ready, and whether the consumer's
   * copy allocation in `GetLatestFrame` succeeds.
   */
  datatype DecodeStep = DecodeStep(
    numBytes: int,
    allocOk: bool,
    packet: Option<Packet>,
    ready: seq<Picture>,
    copyAllocOk: bool)

  /** A pass of the decode loop that publishes a frame into the slot. */
  predicate Publishes(s: DecodeStep)
  {
    s.numBytes > 0 && s.allocOk && |s.ready| > 0
  }

  /** The slot contents a publishing pass leaves: its newest frame, scaled. */
  function PublishedBytes(s: DecodeStep): seq<Byte>
    requires Publishes(s)
  {
    ScaleToBgra(s.ready[|s.ready| - 1], s.numBytes)
  }

  /** Passes whose buffer size is the one the program computes for the owner's texture. */
  predicate StandardSteps(steps: seq<DecodeStep>)
  {
    forall i :: 0 <= i < |steps| ==> steps[i].numBytes == BgraBufferSize(TextureWidth, TextureHeight)
  }

  /** The last publishing pass of a run, if any. */
  function LastPublished(steps: seq<DecodeStep>): (r: Option<DecodeStep>)
    ensures r.Some? ==> Publishes(r.value) && r.value in steps
    ensures r.Some? ==> exists i :: 0 <= i < |steps| && steps[i] == r.value &&
                          forall j :: i < j < |steps| ==> !Publishes(steps[j])
    ensures r.None? <==> forall i :: 0 <= i < |steps| ==> !Publishes(steps[i])
    decreases |steps|
  {
    if steps == [] then None
    else if Publishes(steps[|steps| - 1]) then Some(steps[|steps| - 1])
    else LastPublished(steps[..|steps| - 1])
  }

  /** How many passes of a run hand the owner a copy of a newly published slot. */
  function CopiesMade(steps: seq<DecodeStep>): nat
    decreases |steps|
  {
    if steps == [] then 0
    else
      var s := steps[|steps| - 1];
      CopiesMade(steps[..|steps| - 1]) + (if Publishes(s) && s.copyAllocOk then 1 else 0)
  }

  /** `CopiesMade` over one more pass. */
  lemma CopiesMadeSnoc(steps: seq<DecodeStep>, j: nat)
    requires j < |steps|
    ensures CopiesMade(steps[..j + 1]) ==
            CopiesMade(steps[..j]) + (if Publishes(steps[j]) && steps[j].copyAllocOk then 1 else 0)
  {
    assert steps[..j + 1][..j] == steps[..j];
  }

  /**
   * The allocation ledger of a decode run: of the blocks live now, beyond
   * those live at the start (less the slot then), there are only the
   * current slot and the copies handed to the owner.
   */
  ghost predicate RunLedger(start: set<nat>, startSlot: Option<Block>, live: set<nat>,
                            slot: Option<Block>, copies: set<nat>)
  {
    && live == start - SlotIds(startSlot) + SlotIds(slot) + copies
    && SlotIds(slot) !! copies
    && (slot != startSlot ==> SlotIds(slot) !! start - SlotIds(startSlot))
  }

  /** One pass keeps the ledger: the slot may be replaced and at most one fresh copy added. */
  lemma RunLedgerStep(start: set<nat>, startSlot: Option<Block>, live: set<nat>, slot: Option<Block>,
                      copies: set<nat>, live': set<nat>, slot': Option<Block>, copied: set<nat>)
    requires RunLedger(start, startSlot, live, slot, copies)
    requires SlotIds(slot) <= live
    requires live' == live - SlotIds(slot) + SlotIds(slot') + copied
    requires copied !! live - SlotIds(slot) + SlotIds(slot')
    requires slot' != slot ==> SlotIds(slot') !! live
    ensures RunLedger(start, startSlot, live', slot', copies + copied)
    ensures copied !! copies
  {
    if slot' != slot {
      assert live - SlotIds(slot) == start - SlotIds(startSlot) + copies;
    } else {
      assert live - SlotIds(slot) + SlotIds(slot') == live;
    }
  }

  /** The packets a run of passes hands to the decoder, in order. */
  function AllForwarded(steps: seq<DecodeStep>, videoStreamIndex: int): seq<Packet>
    decreases |steps|
  {
    if steps == [] then []
    else
      var s := steps[|steps| - 1];
      AllForwarded(steps[..|steps| - 1], videoStreamIndex) +
      (if s.numBytes > 0 && s.allocOk then Forwarded(s.packet, videoStreamIndex) else [])
  }

  /** Only packets of the video stream reach the decoder, however a run goes. */
  lemma {:induction false} ForwardedAreVideo(steps: seq<DecodeStep>, videoStreamIndex: int)
    ensures forall p :: p in AllForwarded(steps, videoStreamIndex) ==> p.streamIndex == videoStreamIndex
    ensures |AllForwarded(steps, videoStreamIndex)| <= |steps|
    decreases |steps|
  {
    if steps != [] {
      ForwardedAreVideo(steps[..|steps| - 1], videoStreamIndex);
    }
  }

  /** `LastPublished` over one more pass. */
  lemma LastPublishedSnoc(steps: seq<DecodeStep>, j: nat)
    requires j < |steps|
    ensures LastPublished(steps[..j + 1]) ==
            if Publishes(steps[j]) then Some(steps[j]) else LastPublished(steps[..j])
  {
    assert steps[..j + 1][..j] == steps[..j];
  }

  /** `AllForwarded` over one more pass. */
  lemma AllForwardedSnoc(steps: seq<DecodeStep>, j: nat, videoStreamIndex: int)
    requires j < |steps|
    ensures AllForwarded(steps[..j + 1], videoStreamIndex) ==
            AllForwarded(steps[..j], videoStreamIndex) +
            (if steps[j].numBytes > 0 && steps[j].allocOk then Forwarded(steps[j].packet, videoStreamIndex) else [])
  {
    assert steps[..j + 1][..j] == steps[..j];
  }

  /** The parts of the worker's and the owner's state a decode run changes. */
  datatype RunState = RunState(
    decoderInput: seq<Packet>,
    slot: Option<Block>,
    frameSize: int,
    live: set<nat>,
    pending: Option<Block>,
    pendingSize: int,
    hasNewFrame: bool)

  /**
   * The slot and the owner's pending frame after the passes `done` of a run
   * that started in `start`: they come from the last publishing pass (its
   * copy being one of `copies`), or are as they were when none published.
   */
  ghost predicate OutputsReached(done: seq<DecodeStep>, start: RunState, now: RunState, copies: set<nat>)
  {
    && (LastPublished(done).Some? ==>
          var last := LastPublished(done).value;
          && now.slot.Some?
          && now.slot.value.bytes == PublishedBytes(last)
          && now.frameSize == last.numBytes
          && (last.copyAllocOk ==>
                && now.hasNewFrame && now.pending.Some?
                && now.pending.value.bytes == PublishedBytes(last)
                && now.pendingSize == last.numBytes
                && now.pending.value.id in copies)
          && (!last.copyAllocOk ==> now.pending.None?))
    && (LastPublished(done).None? ==>
          && now.slot == start.slot
          && now.frameSize == start.frameSize
          && now.pending == start.pending
          && now.pendingSize == start.pendingSize
          && now.hasNewFrame == start.hasNewFrame)
    && now.hasNewFrame == (start.hasNewFrame || CopiesMade(done) > 0)
  }

  /**
   * The state `now` after the passes `done` of a run that started in
   * `start`, having handed the owner the copies `copies`: the decoder got
   * the video-stream packets of those passes, slot and pending frame are as
   * `OutputsReached` says, and the ledger holds only the slot and one copy
   * per publishing pass whose copy allocation succeeded beyond what was live
   * at the start.
   */
  ghost predicate RunReached(done: seq<DecodeStep>, index: int, start: RunState, now: RunState, copies: set<nat>)
  {
    && now.decoderInput == start.decoderInput + AllForwarded(done, index)
    && OutputsReached(done, start, now, copies)
    && RunLedger(start.live, start.slot, now.live, now.slot, copies)
    && |copies| == CopiesMade(done)
  }

  /** What one decode pass with its notification does, `copied` being the copy it hands the owner. */
  ghost predicate PassEffect(step: DecodeStep, index: int, before: RunState, after: RunState, copied: set<nat>)
  {
    && after.decoderInput == before.decoderInput +
         (if step.numBytes > 0 && step.allocOk then Forwarded(step.packet, index) else [])
    && (Publishes(step) ==>
          && after.slot.Some?
          && after.slot.value.bytes == PublishedBytes(step)
          && after.frameSize == step.numBytes)
    && (!Publishes(step) ==>
          && after.slot == before.slot && after.frameSize == before.frameSize
          && after.pending == before.pending && after.pendingSize == before.pendingSize
          && after.hasNewFrame == before.hasNewFrame)
    && (Publishes(step) && step.copyAllocOk ==>
          && after.hasNewFrame && after.pending.Some?
          && after.pending.value.bytes == PublishedBytes(step)
          && after.pendingSize == step.numBytes
          && copied == {after.pending.value.id})
    && (Publishes(step) && !step.copyAllocOk ==>
          after.pending.None? && after.hasNewFrame == before.hasNewFrame)
    && (!(Publishes(step) && step.copyAllocOk) ==> copied == {})
    && after.live == before.live - SlotIds(before.slot) + SlotIds(after.slot) + copied
    && copied !! before.live - SlotIds(before.slot) + SlotIds(after.slot)
    && (after.slot != before.slot ==> SlotIds(after.slot) !! before.live)
  }

  /** A run with no passes yet is where it started. */
  lemma RunReachedStart(index: int, start: RunState)
    requires SlotIds(start.slot) <= start.live
    ensures RunReached([], index, start, start, {})
  {
    assert LastPublished([]).None? && CopiesMade([]) == 0 && AllForwarded([], index) == [];
    assert start.live - SlotIds(start.slot) + SlotIds(start.slot) == start.live;
  }

  /** A run that made no pass changed nothing and handed out no copy. */
  lemma RunReachedNothing(index: int, start: RunState, now: RunState, copies: set<nat>)
    requires SlotIds(start.slot) <= start.live
    requires RunReached([], index, start, now, copies)
    ensures copies == {} && now == start
  {
    assert start.live - SlotIds(start.slot) + SlotIds(start.slot) == start.live;
  }

  /** A run that made its passes, read field by field. */
  lemma RunOutcome(steps: seq<DecodeStep>, index: int, start: RunState, now: RunState, copies: set<nat>)
    requires RunReached(steps, index, start, now, copies)
    ensures now.decoderInput == start.decoderInput + AllForwarded(steps, index)
    ensures now.live == start.live - SlotIds(start.slot) + SlotIds(now.slot) + copies
    ensures |copies| == CopiesMade(steps)
    ensures now.hasNewFrame == (start.hasNewFrame || CopiesMade(steps) > 0)
    ensures LastPublished(steps).Some? ==>
              var last := LastPublished(steps).value;
              && now.slot.Some? && now.slot.value.bytes == PublishedBytes(last)
              && now.frameSize == last.numBytes
              && (last.copyAllocOk ==>
                    && now.pending.Some? && now.pending.value.bytes == PublishedBytes(last)
                    && now.pendingSize == last.numBytes && now.pending.value.id in copies)
              && (!last.copyAllocOk ==> now.pending.None?)
    ensures LastPublished(steps).None? ==>
              && now.slot == start.slot && now.frameSize == start.frameSize
              && now.pending == start.pending && now.pendingSize == start.pendingSize
              && now.hasNewFrame == start.hasNewFrame
  {
  }

  /** One more pass moves slot and pending frame as `OutputsReached` says. */
  lemma OutputsReachedStep(steps: seq<DecodeStep>, j: nat, index: int, start: RunState,
                           before: RunState, after: RunState, copies: set<nat>, copied: set<nat>)
    requires j < |steps|
    requires OutputsReached(steps[..j], start, before, copies)
    requires PassEffect(steps[j], index, before, after, copied)
    ensures OutputsReached(steps[..j + 1], start, after, copies + copied)
  {
    LastPublishedSnoc(steps, j);
    CopiesMadeSnoc(steps, j);
  }

  /** One more pass keeps the ledger and adds its copy, if any, to the count. */
  lemma LedgerReachedStep(steps: seq<DecodeStep>, j: nat, index: int, start: RunState,
                          before: RunState, after: RunState, copies: set<nat>, copied: set<nat>)
    requires j < |steps|
    requires RunLedger(start.live, start.slot, before.live, before.slot, copies)
    requires |copies| == CopiesMade(steps[..j])
    requires SlotIds(before.slot) <= before.live
    requires PassEffect(steps[j], index, before, after, copied)
    ensures RunLedger(start.live, start.slot, after.live, after.slot, copies + copied)
    ensures |copies + copied| == CopiesMade(steps[..j + 1])
  {
    CopiesMadeSnoc(steps, j);
    RunLedgerStep(start.live, start.slot, before.live, before.slot, copies, after.live, after.slot, copied);
  }

  /** A run extended by one pass reaches the state that pass leaves. */
  lemma RunReachedStep(steps: seq<DecodeStep>, j: nat, index: int, start: RunState,
                       before: RunState, after: RunState, copies: set<nat>, copied: set<nat>)
    requires j < |steps|
    requires RunReached(steps[..j], index, start, before, copies)
    requires SlotIds(before.slot) <= before.live
    requires PassEffect(steps[j], index, before, after, copied)
    ensures RunReached(steps[..j + 1], index, start, after, copies + copied)
  {
    AllForwardedSnoc(steps, j, index);
    OutputsReachedStep(steps, j, index, start, before, after, copies, copied);
    LedgerReachedStep(steps, j, index, start, before, after, copies, copied);
  }

  /**
   * With the buffer size the program computes, the frame a run leaves in the
   * slot, and hands the owner, is a whole 854 x 480 BGRA image, the size
   * the texture update accepts.
   */
  lemma StandardRunFrameSize(steps: seq<DecodeStep>)
    requires StandardSteps(steps)
    ensures LastPublished(steps).Some? ==>
              && LastPublished(steps).value.numBytes == TextureWidth * TextureHeight * 4
              && |PublishedBytes(LastPublished(steps).value)| == TextureWidth * TextureHeight * 4
  {
    if LastPublished(steps).Some? {
      var i :| 0 <= i < |steps| && steps[i] == LastPublished(steps).value;
      assert steps[i].numBytes == BgraBufferSize(TextureWidth, TextureHeight);
    }
  }

  /** The texture's update outcomes; `Overrun` is a copy the source would make past a buffer's end. */
  datatype TextureUpdate = NoImage | NoMips | ReallocFailed | LockFailed | SizeMismatch | Overrun | Written

  /** `BulkData.Realloc(num_bytes)` applied to an empty bulk buffer. */
  function ReallocIfEmpty(bulk: seq<Byte>, numBytes: int): (r: seq<Byte>)
    ensures |bulk| > 0 ==> r == bulk
    ensures |bulk| == 0 ==> |r| == if numBytes > 0 then numBytes else 0
  {
    if |bulk| > 0 then bulk
    else if numBytes > 0 then Zeros(numBytes)
    else []
  }

  // ---------------------------------------------------------------------
  // The decode worker
  // ---------------------------------------------------------------------

  class FFmpegWorker {
    const heap: Heap
    var stopThread: bool
    /** `LatestFrameData`: the published frame buffer, if any. */
    var latestFrameData: Option<Block>
    var frameDataSize: int
    /** The owner's `latest_frame`. */
    var latestFrame: Option<Picture>
    /** Every packet sent to the decoder so far. */
    var decoderInput: seq<Packet>

    /** A published buffer is allocated, non-empty and `frameDataSize` long. */
    ghost predicate Valid()
      reads this, heap
    {
      heap.Valid() &&
      (latestFrameData.Some? ==>
         latestFrameData.value.id in heap.live &&
         |latestFrameData.value.bytes| == frameDataSize > 0)
    }

    constructor (heap: Heap)
      requires heap.Valid()
      ensures Valid() && this.heap == heap
      ensures !stopThread && latestFrameData.None? && frameDataSize == 0
      ensures latestFrame.None? && decoderInput == []
    {
      this.heap := heap;
      stopThread := false;
      latestFrameData := None;
      frameDataSize := 0;
      latestFrame := None;
      decoderInput := [];
    }

    /** `Stop` only raises the flag. */
    method Stop()
      modifies this`stopThread
      ensures stopThread
    {
      stopThread := true;
    }

    /** The destructor frees a published buffer, and nothing else. */
    method Dispose()
      requires Valid()
      modifies this`latestFrameData, heap
      ensures heap.Valid() && latestFrameData.None?
      ensures heap.live == old(heap.live) - SlotIds(old(latestFrameData))
    {
      if latestFrameData.Some? {
        heap.Free(latestFrameData.value);
        latestFrameData := None;
      }
    }

    /**
     * `GetLatestFrame(OutData, OutSize)`: succeeds iff a non-empty buffer
     * is published and the copy allocation succeeds, and then hands out a
     * fresh byte-equal copy and its size. When the allocation fails,
     * `OutData` becomes null and `OutSize` keeps its value. The slot is
     * never changed.
     */
    method GetLatestFrame(outData: Option<Block>, outSize: int, allocOk: bool)
      returns (ok: bool, newOutData: Option<Block>, newOutSize: int)
      requires Valid()
      modifies heap
      ensures Valid()
      ensures ok <==> latestFrameData.Some? && frameDataSize > 0 && allocOk
      ensures ok ==>
                && newOutData.Some? && newOutData.value.id !in old(heap.live)
                && newOutData.value.bytes == latestFrameData.value.bytes
                && newOutSize == frameDataSize
                && heap.live == old(heap.live) + {newOutData.value.id}
      ensures !ok ==> heap.live == old(heap.live) && newOutSize == outSize
      ensures !ok && latestFrameData.Some? && frameDataSize > 0 ==> newOutData.None?
      ensures !(latestFrameData.Some? && frameDataSize > 0) ==> newOutData == outData
    {
      ok, newOutData, newOutSize := false, outData, outSize;
      if latestFrameData.Some? && frameDataSize > 0 {
        if allocOk {
          var copy := heap.Malloc(latestFrameData.value.bytes);
          newOutData, newOutSize, ok := Some(copy), frameDataSize, true;
        } else {
          newOutData := None;
        }
      }
    }

    /**
     * One pass of the decode loop. A non-positive buffer size or a failed
     * allocation skips the pass. Otherwise a packet of the video stream goes
     * to the decoder, the ready frames are drained, and if any arrived the
     * newest one, scaled into this pass's buffer, replaces the published
     * buffer, whose old block is freed. The pass's buffer is released
     * exactly once: handed to the slot, or freed.
     */
    method DecodeIteration(step: DecodeStep, videoStreamIndex: int) returns (published: bool)
      requires Valid()
      modifies this`latestFrameData, this`frameDataSize, this`latestFrame, this`decoderInput, heap
      ensures Valid()
      ensures published == Publishes(step)
      ensures !(step.numBytes > 0 && step.allocOk) ==>
                latestFrame == old(latestFrame) && decoderInput == old(decoderInput)
      ensures step.numBytes > 0 && step.allocOk ==>
                && decoderInput == old(decoderInput) + Forwarded(step.packet, videoStreamIndex)
                && latestFrame == if |step.ready| > 0 then Some(step.ready[|step.ready| - 1])
                                  else old(latestFrame)
      ensures published ==>
                && latestFrameData.Some?
                && latestFrameData.value.id !in old(heap.live)
                && latestFrameData.value.bytes == PublishedBytes(step)
                && frameDataSize == step.numBytes
                && heap.live == old(heap.live) - SlotIds(old(latestFrameData)) + {latestFrameData.value.id}
      ensures !published ==>
                && latestFrameData == old(latestFrameData) && frameDataSize == old(frameDataSize)
                && heap.live == old(heap.live)
    {
      published := false;
      var numBytes := step.numBytes;
      if numBytes <= 0 {
        return;
      }
      if !step.allocOk {
        return;
      }
      var block := heap.Malloc(Zeros(numBytes));
      var buffer: Option<Block> := Some(block);

      if step.packet.Some? {
        if step.packet.value.streamIndex == videoStreamIndex {
          decoderInput := decoderInput + [step.packet.value];
        }
      }

      var haveNewFrame;
      latestFrame, haveNewFrame := DrainToLatest(latestFrame, step.ready);

      if haveNewFrame {
        buffer := Some(Block(block.id, ScaleToBgra(latestFrame.value, numBytes)));
        if latestFrameData.Some? {
          heap.Free(latestFrameData.value);
        }
        latestFrameData := buffer;
        frameDataSize := numBytes;
        buffer := None;
        published := true;
      }

      if buffer.Some? {
        heap.Free(buffer.value);
      }
    }

    /**
     * The first loop of `Run`: retries the owner's stream initialisation
     * until it returns 0 or the stop flag is raised. It succeeds exactly
     * when the flag was down and some attempt succeeds; it then stops at the
     * first such attempt, which leaves the owner initialised on that
     * attempt's first video stream. Each attempt starts from the stream
     * index the previous one left.
     */
    method RetryInitialize(owner: DynamicTextureActor, inits: seq<InitEnv>) returns (initialized: bool)
      requires owner.Valid() && owner.worker == this
      modifies this`stopThread, owner`videoStreamIndex, owner`streamInitialized
      ensures owner.Valid()
      ensures initialized <==> !old(stopThread) && FirstSuccess(inits).Some?
      ensures initialized ==>
                && !stopThread && owner.streamInitialized
                && owner.videoStreamIndex == FirstVideo(inits[FirstSuccess(inits).value].streams)
      ensures !initialized ==> stopThread && owner.streamInitialized == old(owner.streamInitialized)
      ensures old(stopThread) ==> owner.videoStreamIndex == old(owner.videoStreamIndex)
      ensures !old(stopThread) ==>
                owner.videoStreamIndex ==
                  IndexAfterAttempts(inits[..AttemptsMade(inits)], old(owner.videoStreamIndex))
    {
      initialized := false;
      var i := 0;
      while !stopThread
        invariant 0 <= i <= |inits|
        invariant owner.Valid()
        invariant old(stopThread) ==> stopThread && i == 0
        invariant stopThread ==> old(stopThread) || i == |inits|
        invariant forall j :: 0 <= j < i ==> !InitSucceeds(inits[j])
        invariant owner.videoStreamIndex == IndexAfterAttempts(inits[..i], old(owner.videoStreamIndex))
        invariant owner.streamInitialized == old(owner.streamInitialized)
        decreases |inits| - i, if stopThread then 0 else 1
      {
        if i == |inits| {
          stopThread := true;
        } else {
          IndexAfterAttemptsSnoc(inits, i, old(owner.videoStreamIndex));
          var ret := owner.InitializeUDPVideoStream(inits[i]);
          i := i + 1;
          if ret == 0 {
            initialized := true;
            break;
          }
        }
      }
      assert !initialized && !old(stopThread) ==> inits[..i] == inits;
    }

    /**
     * One pass of the decode loop followed, when it published, by the
     * notification of the owner, which copies the new slot into its pending
     * frame (or, when that allocation fails, is left with none). The ghost
     * result names the copy made, if any. Besides the slot and that copy,
     * every buffer the pass allocated is freed.
     */
    method DecodePass(owner: DynamicTextureActor, step: DecodeStep) returns (ghost copied: set<nat>)
      requires owner.Valid() && owner.worker == this
      modifies this`latestFrameData, this`frameDataSize, this`latestFrame, this`decoderInput,
               heap, owner`pendingFrameData, owner`pendingFrameSize, owner`hasNewFrame
      ensures owner.Valid()
      ensures decoderInput == old(decoderInput) +
                (if step.numBytes > 0 && step.allocOk then Forwarded(step.packet, owner.videoStreamIndex) else [])
      ensures Publishes(step) ==>
                && latestFrameData.Some?
                && latestFrameData.value.bytes == PublishedBytes(step)
                && frameDataSize == step.numBytes
      ensures !Publishes(step) ==>
                && latestFrameData == old(latestFrameData) && frameDataSize == old(frameDataSize)
                && owner.pendingFrameData == old(owner.pendingFrameData)
                && owner.pendingFrameSize == old(owner.pendingFrameSize)
                && owner.hasNewFrame == old(owner.hasNewFrame)
      ensures Publishes(step) && step.copyAllocOk ==>
                && owner.hasNewFrame && owner.pendingFrameData.Some?
                && owner.pendingFrameData.value.bytes == PublishedBytes(step)
                && owner.pendingFrameSize == step.numBytes
                && copied == {owner.pendingFrameData.value.id}
      ensures Publishes(step) && !step.copyAllocOk ==>
                && owner.pendingFrameData.None?
                && owner.pendingFrameSize == old(owner.pendingFrameSize)
                && owner.hasNewFrame == old(owner.hasNewFrame)
      ensures !(Publishes(step) && step.copyAllocOk) ==> copied == {}
      ensures heap.live == old(heap.live) - SlotIds(old(latestFrameData)) + SlotIds(latestFrameData) + copied
      ensures copied !! old(heap.live) - SlotIds(old(latestFrameData)) + SlotIds(latestFrameData)
      ensures latestFrameData != old(latestFrameData) ==> SlotIds(latestFrameData) !! old(heap.live)
    {
      copied := {};
      var published := DecodeIteration(step, owner.videoStreamIndex);
      if published {
        owner.OnNewFrameAvailable(step.copyAllocOk);
        if step.copyAllocOk {
          copied := {owner.pendingFrameData.value.id};
        }
      }
    }

    /** The parts of the worker's and the owner's state a decode run changes. */
    ghost function Snapshot(owner: DynamicTextureActor): RunState
      reads this, owner, heap
    {
      RunState(decoderInput, latestFrameData, frameDataSize, heap.live,
               owner.pendingFrameData, owner.pendingFrameSize, owner.hasNewFrame)
    }

    /** The body of the decode loop: pass `j` extends the run by one step. */
    method DecodeNext(owner: DynamicTextureActor, steps: seq<DecodeStep>, j: nat,
                      ghost start: RunState, ghost copies: set<nat>) returns (ghost copies': set<nat>)
      requires owner.Valid() && owner.worker == this && j < |steps|
      requires RunReached(steps[..j], owner.videoStreamIndex, start, Snapshot(owner), copies)
      modifies this`latestFrameData, this`frameDataSize, this`latestFrame, this`decoderInput,
               heap, owner`pendingFrameData, owner`pendingFrameSize, owner`hasNewFrame
      ensures owner.Valid()
      ensures RunReached(steps[..j + 1], owner.videoStreamIndex, start, Snapshot(owner), copies')
    {
      ghost var before := Snapshot(owner);
      var copied := DecodePass(owner, steps[j]);
      assert PassEffect(steps[j], owner.videoStreamIndex, before, Snapshot(owner), copied);
      RunReachedStep(steps, j, owner.videoStreamIndex, start, before, Snapshot(owner), copies, copied);
      copies' := copies + copied;
    }

    /**
     * The second loop of `Run`: decode passes until the stop flag is
     * raised, telling the owner after each publish. Afterwards the decoder
     * has received exactly the video-stream packets of the passes that got
     * a buffer, the slot holds the buffer of the last publishing pass, and
     * the owner's pending frame is that pass's copy. Of the buffers
     * allocated, only the slot and the copies handed to the owner (one per
     * publishing pass whose copy allocation succeeds) are still live.
     */
    method DecodeLoop(owner: DynamicTextureActor, steps: seq<DecodeStep>) returns (ghost copies: set<nat>)
      requires owner.Valid() && owner.worker == this
      modifies this`stopThread, this`latestFrameData, this`frameDataSize, this`latestFrame,
               this`decoderInput, heap, owner`pendingFrameData, owner`pendingFrameSize, owner`hasNewFrame
      ensures owner.Valid() && stopThread
      ensures RunReached(if old(stopThread) then [] else steps, owner.videoStreamIndex,
                         old(Snapshot(owner)), Snapshot(owner), copies)
    {
      ghost var start := Snapshot(owner);
      RunReachedStart(owner.videoStreamIndex, start);
      copies := {};
      var j := 0;
      while !stopThread
        invariant 0 <= j <= |steps|
        invariant owner.Valid()
        invariant old(stopThread) ==> stopThread && j == 0
        invariant stopThread ==> old(stopThread) || j == |steps|
        invariant RunReached(steps[..j], owner.videoStreamIndex, start, Snapshot(owner), copies)
        decreases |steps| - j, if stopThread then 0 else 1
      {
        if j == |steps| {
          stopThread := true;
        } else {
          copies := DecodeNext(owner, steps, j, start, copies);
          j := j + 1;
        }
      }
      assert steps[..j] == if old(stopThread) then [] else steps;
    }

    /**
     * `Run`: retries the owner's stream initialisation until it returns 0
     * or the stop flag is raised, then runs decode passes until the flag is
     * raised, telling the owner after each publish. The decode loop runs
     * exactly when an initialisation attempt succeeds before the flag goes
     * up; afterwards the slot holds the last frame published, the owner's
     * pending frame is its copy, the decoder has received exactly the
     * video-stream packets read, and only the slot and the owner's copies
     * remain allocated.
     */
    method Run(owner: DynamicTextureActor, inits: seq<InitEnv>, steps: seq<DecodeStep>)
      returns (initialized: bool, ghost copies: set<nat>)
      requires owner.Valid() && owner.worker == this
      modifies this`stopThread, this`latestFrameData, this`frameDataSize, this`latestFrame,
               this`decoderInput, heap, owner`pendingFrameData, owner`pendingFrameSize,
               owner`hasNewFrame, owner`videoStreamIndex, owner`streamInitialized
      ensures owner.Valid() && stopThread
      ensures owner.mip == old(owner.mip)
      ensures initialized <==> !old(stopThread) && FirstSuccess(inits).Some?
      ensures initialized ==>
                && owner.streamInitialized
                && owner.videoStreamIndex == FirstVideo(inits[FirstSuccess(inits).value].streams)
      ensures !initialized ==> copies == {} && Snapshot(owner) == old(Snapshot(owner))
      ensures initialized ==>
                decoderInput == old(decoderInput) + AllForwarded(steps, owner.videoStreamIndex)
      ensures initialized && LastPublished(steps).Some? ==>
                var last := LastPublished(steps).value;
                && latestFrameData.Some?
                && latestFrameData.value.bytes == PublishedBytes(last)
                && frameDataSize == last.numBytes
                && (last.copyAllocOk ==>
                      && owner.hasNewFrame && owner.pendingFrameData.Some?
                      && owner.pendingFrameData.value.bytes == PublishedBytes(last)
                      && owner.pendingFrameSize == last.numBytes
                      && owner.pendingFrameData.value.id in copies)
                && (!last.copyAllocOk ==> owner.pendingFrameData.None?)
      ensures initialized && LastPublished(steps).None? ==>
                && latestFrameData == old(latestFrameData) && frameDataSize == old(frameDataSize)
                && owner.pendingFrameData == old(owner.pendingFrameData)
                && owner.pendingFrameSize == old(owner.pendingFrameSize)
                && owner.hasNewFrame == old(owner.hasNewFrame)
      ensures initialized ==> owner.hasNewFrame == (old(owner.hasNewFrame) || CopiesMade(steps) > 0)
      ensures heap.live == old(heap.live) - SlotIds(old(latestFrameData)) + SlotIds(latestFrameData) + copies
      ensures initialized ==> |copies| == CopiesMade(steps)
    {
      initialized := RetryInitialize(owner, inits);
      ghost var start := Snapshot(owner);
      assert start == old(Snapshot(owner));
      copies := DecodeLoop(owner, steps);
      ghost var now := Snapshot(owner);
      if !initialized {
        RunReachedNothing(owner.videoStreamIndex, start, now, copies);
      } else {
        RunOutcome(steps, owner.videoStreamIndex, start, now, copies);
      }
    }
  }

  // ---------------------------------------------------------------------
  // The texture actor
  // ---------------------------------------------------------------------

  class DynamicTextureActor {
    const worker: FFmpegWorker
    const heap: Heap
    var videoStreamIndex: int
    var streamInitialized: bool
    var hasNewFrame: bool
    /** `PendingFrameData`: the copy waiting for the next tick, if any. */
    var pendingFrameData: Option<Block>
    var pendingFrameSize: int
    /** The first mip level's bulk data; `None` when the texture has no platform data or mips. */
    var mip: Option<seq<Byte>>

    /** A pending copy is allocated, `pendingFrameSize` long, and not the worker's slot. */
    ghost predicate Valid()
      reads this, worker, heap
    {
      worker.heap == heap && worker.Valid() &&
      (pendingFrameData.Some? ==>
         && pendingFrameData.value.id in heap.live
         && |pendingFrameData.value.bytes| == pendingFrameSize
         && (worker.latestFrameData.Some? ==>
               worker.latestFrameData.value.id != pendingFrameData.value.id))
    }

    /**
     * The actor as constructed and started: an 854x480 texture, no stream
     * selected yet, no pending frame, and a fresh worker with an empty slot.
     */
    constructor (texture: Option<seq<Byte>>)
      ensures Valid() && fresh(worker) && fresh(heap)
      ensures videoStreamIndex == -1 && !streamInitialized
      ensures !hasNewFrame && pendingFrameData.None? && pendingFrameSize == 0
      ensures mip == texture && heap.live == {}
      ensures worker.latestFrameData.None? && !worker.stopThread && worker.decoderInput == []
    {
      var h := new Heap();
      heap := h;
      worker := new FFmpegWorker(h);
      videoStreamIndex := -1;
      streamInitialized := false;
      hasNewFrame := false;
      pendingFrameData := None;
      pendingFrameSize := 0;
      mip := texture;
    }

    /**
     * `InitializeUDPVideoStream`: returns 0 iff every library call succeeds
     * and this attempt finds a video stream. The selection, reached once
     * the demuxer is open, moves `videoStreamIndex` to the first video
     * stream and otherwise leaves it as it was. An index chosen by an
     * earlier attempt survives a later attempt without video, but that
     * attempt still fails: its `codec` stays null and the codec does not
     * open.
     */
    method InitializeUDPVideoStream(env: InitEnv) returns (ret: int)
      modifies this`videoStreamIndex, this`streamInitialized
      ensures ret == 0 || ret == -1
      ensures ret == 0 <==> InitSucceeds(env)
      ensures ret == 0 ==> streamInitialized
      ensures ret != 0 ==> streamInitialized == old(streamInitialized)
      ensures videoStreamIndex == IndexAfterInit(env, old(videoStreamIndex))
      ensures env.avioOk && env.openOk && env.streamInfoOk && HasVideo(env.streams) ==>
                IsFirstVideo(env.streams, videoStreamIndex)
    {
      if !env.avioOk || !env.openOk || !env.streamInfoOk {
        return -1;
      }
      var codecFound;
      videoStreamIndex, codecFound := SelectVideoStream(env.streams, videoStreamIndex);
      if videoStreamIndex == -1 {
        return -1;
      }
      if !codecFound || !env.codecOk {
        return -1;
      }
      streamInitialized := true;
      ret := 0;
    }

    /**
     * `OnNewFrameAvailable`: asks the worker for a copy of its slot. On
     * success the copy becomes the pending frame and the new-frame flag is
     * raised. A pending copy that was never consumed is overwritten, not
     * freed, and stays allocated; so does it when the copy allocation fails,
     * which leaves the pending frame null.
     */
    method OnNewFrameAvailable(allocOk: bool)
      requires Valid()
      modifies this`pendingFrameData, this`pendingFrameSize, this`hasNewFrame, heap
      ensures Valid()
      ensures old(pendingFrameData).Some? ==> old(pendingFrameData).value.id in heap.live
      ensures var ready := worker.latestFrameData.Some? && worker.frameDataSize > 0;
              && (ready && allocOk ==>
                    && hasNewFrame && pendingFrameData.Some?
                    && pendingFrameData.value.bytes == worker.latestFrameData.value.bytes
                    && pendingFrameSize == worker.frameDataSize
                    && pendingFrameData.value.id !in old(heap.live)
                    && heap.live == old(heap.live) + {pendingFrameData.value.id})
              && (ready && !allocOk ==>
                    && pendingFrameData.None? && pendingFrameSize == old(pendingFrameSize)
                    && hasNewFrame == old(hasNewFrame) && heap.live == old(heap.live))
              && (!ready ==>
                    && pendingFrameData == old(pendingFrameData)
                    && pendingFrameSize == old(pendingFrameSize)
                    && hasNewFrame == old(hasNewFrame) && heap.live == old(heap.live))
    {
      var ok;
      ok, pendingFrameData, pendingFrameSize :=
        worker.GetLatestFrame(pendingFrameData, pendingFrameSize, allocOk);
      if ok {
        hasNewFrame := true;
      }
    }

    /**
     * `UpdateTexture(img_data, num_bytes)`: writes nothing on a null or
     * empty image or a texture without mips; reallocates an empty bulk
     * buffer to `num_bytes`; writes nothing when that fails, when the lock
     * fails or when `num_bytes` is not `width*height*4`; and otherwise
     * copies exactly the first `num_bytes` image bytes over the bulk data.
     */
    method UpdateTexture(img: Option<seq<Byte>>, numBytes: int, lockOk: bool)
      returns (outcome: TextureUpdate)
      modifies this`mip
      ensures (outcome == NoImage) <==> img.None? || numBytes == 0
      ensures (outcome == NoMips) <==> img.Some? && numBytes != 0 && old(mip).None?
      ensures outcome in {NoImage, NoMips} ==> mip == old(mip)
      ensures old(mip).Some? && outcome != NoImage ==>
                var bulk := ReallocIfEmpty(old(mip).value, numBytes);
                && (outcome == Written <==>
                      |bulk| > 0 && lockOk && numBytes == TextureWidth * TextureHeight * 4 &&
                      numBytes <= |bulk| && numBytes <= |img.value|)
                && (outcome == Written ==>
                      && mip.Some? && |mip.value| == |bulk|
                      && mip.value[..numBytes] == img.value[..numBytes]
                      && mip.value[numBytes..] == bulk[numBytes..])
                && (outcome != Written ==> mip == Some(bulk))
    {
      if img.None? || numBytes == 0 {
        return NoImage;
      }
      if mip.None? {
        return NoMips;
      }
      var bulk := mip.value;
      if |bulk| == 0 {
        bulk := if numBytes > 0 then Zeros(numBytes) else [];
        mip := Some(bulk);
        if |bulk| == 0 {
          return ReallocFailed;
        }
      }
      if !lockOk {
        return LockFailed;
      }
      var totalPixels := TextureWidth * TextureHeight;
      if totalPixels * 4 != numBytes {
        return SizeMismatch;
      }
      if numBytes > |bulk| || numBytes > |img.value| {
        return Overrun;
      }
      mip := Some(img.value[..numBytes] + bulk[numBytes..]);
      outcome := Written;
    }

    /**
     * `Tick`: with the new-frame flag raised, takes the pending copy
     * (clearing it, its size and the flag), passes it to `UpdateTexture`
     * and frees it. The copy reaches the texture exactly when
     * `UpdateTexture` writes: the texture has mips, its bulk data (after
     * the reallocation of an empty one) is non-empty and large enough, the
     * lock succeeds and the copy is one 854x480 BGRA frame. Without the
     * flag nothing changes.
     */
    method Tick(lockOk: bool) returns (update: Option<TextureUpdate>)
      requires Valid()
      modifies this`hasNewFrame, this`pendingFrameData, this`pendingFrameSize, this`mip, heap
      ensures Valid()
      ensures !old(hasNewFrame) ==>
                && update.None? && !hasNewFrame
                && pendingFrameData == old(pendingFrameData)
                && pendingFrameSize == old(pendingFrameSize)
                && mip == old(mip) && heap.live == old(heap.live)
      ensures old(hasNewFrame) ==> !hasNewFrame
      ensures old(hasNewFrame) && old(pendingFrameData).Some? && old(pendingFrameSize) > 0 ==>
                var frame := old(pendingFrameData).value.bytes;
                var n := old(pendingFrameSize);
                && pendingFrameData.None? && pendingFrameSize == 0
                && heap.live == old(heap.live) - {old(pendingFrameData).value.id}
                && update.Some?
                && (old(mip).None? ==> update.value == NoMips && mip == old(mip))
                && (old(mip).Some? ==>
                      var bulk := ReallocIfEmpty(old(mip).value, n);
                      && (update.value == Written <==>
                            |bulk| > 0 && lockOk && n == TextureWidth * TextureHeight * 4 && n <= |bulk|)
                      && (update.value == Written ==>
                            && mip.Some? && |mip.value| == |bulk|
                            && mip.value[..n] == frame && mip.value[n..] == bulk[n..])
                      && (update.value != Written ==> mip == Some(bulk)))
      ensures old(hasNewFrame) && !(old(pendingFrameData).Some? && old(pendingFrameSize) > 0) ==>
                && update.None?
                && pendingFrameData == old(pendingFrameData)
                && pendingFrameSize == old(pendingFrameSize)
                && mip == old(mip) && heap.live == old(heap.live)
    {
      update := None;
      if hasNewFrame {
        var frameData: Option<Block> := None;
        var frameSize := 0;
        if pendingFrameData.Some? && pendingFrameSize > 0 {
          frameData, frameSize := pendingFrameData, pendingFrameSize;
          pendingFrameData, pendingFrameSize := None, 0;
        }
        hasNewFrame := false;

        if frameData.Some? && frameSize > 0 {
          var outcome := UpdateTexture(Some(frameData.value.bytes), frameSize, lockOk);
          update := Some(outcome);
          heap.Free(frameData.value);
        }
      }
    }

    /**
     * The worker's part of `EndPlay`: stop it, then destroy it, which
     * frees its published buffer. A pending copy is not freed.
     */
    method EndPlay()
      requires Valid()
      modifies worker`stopThread, worker`latestFrameData, heap
      ensures worker.stopThread && worker.latestFrameData.None?
      ensures heap.live == old(heap.live) - SlotIds(old(worker.latestFrameData))
      ensures pendingFrameData.Some? ==> pendingFrameData.value.id in heap.live
    {
      worker.Stop();
      worker.Dispose();
    }
  }
}
