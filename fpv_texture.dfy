/**
 * The older, single-threaded texture actor (`unreal_fpvcam`): it opens the
 * UDP stream once at start-up, and every tick it reads one packet,
 * drains the decoder, and copies the newest frame pixel by pixel into a
 * 256x256 texture, using a per-tick buffer that is allocated and freed
 * within the tick.
 */
module FpvTexture {
  import opened Common
  import opened Memory
  import opened Decoding

  /** The texture size this actor creates. */
  const TextureWidth: int := 256
  const TextureHeight: int := 256

  /** The bytes of a 256x256 BGRA picture. */
  const FrameBytes: int := 4 * (TextureWidth * TextureHeight)

  /** The outcomes of the library calls made by one `InitializeUDPVideoStream`. */
  datatype OpenEnv = OpenEnv(
    openOk: bool,            // avformat_open_input returned 0
    streamInfoOk: bool,      // avformat_find_stream_info succeeded
    streams: seq<MediaType>, // codec types of the streams found
    codecOk: bool)           // a decoder exists for the stream and avcodec_open2 succeeded

  class FpvTextureActor {
    const heap: Heap
    /** The first mip level's bulk data, locked for writing during an update. */
    const pixels: array<Byte>
    /** Whether the texture has platform data with at least one mip. */
    const hasMips: bool
    var videoStreamIndex: int
    var streamInitialized: bool
    /** `latest_frame`. */
    var latestFrame: Option<Picture>
    /** Every packet sent to the decoder so far. */
    var decoderInput: seq<Packet>

    /** The texture's bulk data holds at least a whole frame. */
    ghost predicate Valid()
      reads this, heap
    {
      heap.Valid() && pixels.Length >= FrameBytes
    }

    /** The actor as constructed: no stream selected, nothing decoded. */
    constructor (heap: Heap, pixels: array<Byte>, hasMips: bool)
      requires heap.Valid() && pixels.Length >= FrameBytes
      ensures Valid() && this.heap == heap && this.pixels == pixels && this.hasMips == hasMips
      ensures videoStreamIndex == -1 && !streamInitialized
      ensures latestFrame.None? && decoderInput == []
    {
      this.heap := heap;
      this.pixels := pixels;
      this.hasMips := hasMips;
      videoStreamIndex := -1;
      streamInitialized := false;
      latestFrame := None;
      decoderInput := [];
    }

    /**
     * `InitializeUDPVideoStream`: returns 0 iff the stream opens, its
     * information is found, this attempt finds a video stream (so the
     * decoder lookup runs and `codec` is set) and the codec opens. The
     * selection moves `videoStreamIndex` to the first video stream and
     * otherwise leaves it as it was; an index left by an earlier attempt
     * does not make an attempt without video succeed, since `codec` then
     * stays null and `avcodec_open2` refuses it.
     */
    method InitializeUDPVideoStream(env: OpenEnv) returns (ret: int)
      modifies this`videoStreamIndex, this`streamInitialized
      ensures ret == 0 || ret == -1
      ensures ret == 0 <==> env.openOk && env.streamInfoOk && HasVideo(env.streams) && env.codecOk
      ensures ret == 0 ==> streamInitialized
      ensures ret != 0 ==> streamInitialized == old(streamInitialized)
      ensures env.openOk && env.streamInfoOk && HasVideo(env.streams) ==>
                IsFirstVideo(env.streams, videoStreamIndex)
      ensures !(env.openOk && env.streamInfoOk && HasVideo(env.streams)) ==>
                videoStreamIndex == old(videoStreamIndex)
    {
      if !env.openOk || !env.streamInfoOk {
        return -1;
      }
      var codecFound;
      videoStreamIndex, codecFound := SelectVideoStream(env.streams, videoStreamIndex);
      if videoStreamIndex == -1 {
        return -1;
      }
      if !codecFound || !env.codecOk {
        return -1;
      }
      streamInitialized := true;
      ret := 0;
    }

    /**
     * `UpdateTexture`: with no platform data or mips nothing is written;
     * otherwise the pixel loop copies bytes `[0, 4*width*height)` of the
     * image into the texture, four per pixel, and leaves the bytes past
     * them alone. `num_bytes` is not checked: the image must hold a whole
     * frame.
     */
    method UpdateTexture(img: seq<Byte>, numBytes: int)
      requires Valid()
      requires |img| >= FrameBytes
      modifies pixels
      ensures !hasMips ==> pixels[..] == old(pixels[..])
      ensures hasMips ==> forall k :: 0 <= k < FrameBytes ==> pixels[k] == img[k]
      ensures hasMips ==> forall k :: FrameBytes <= k < pixels.Length ==> pixels[k] == old(pixels[k])
    {
      if !hasMips {
        return;
      }
      var totalPixels := TextureWidth * TextureHeight;
      var i := 0;
      while i < totalPixels
        invariant 0 <= i <= totalPixels
        invariant forall k :: 0 <= k < 4 * i ==> pixels[k] == img[k]
        invariant forall k :: 4 * i <= k < pixels.Length ==> pixels[k] == old(pixels[k])
      {
        var pixelIndex := i * 4;
        pixels[pixelIndex + 0] := img[pixelIndex + 0];
        pixels[pixelIndex + 1] := img[pixelIndex + 1];
        pixels[pixelIndex + 2] := img[pixelIndex + 2];
        pixels[pixelIndex + 3] := img[pixelIndex + 3];
        i := i + 1;
      }
    }

    /**
     * `Tick`: does nothing until the stream is initialised. Then it
     * allocates a frame-sized buffer, hands a packet of the video stream to
     * the decoder, drains the decoder to its newest frame and, if one
     * arrived, scales it into the buffer and copies that into the texture;
     * the buffer is freed at the end either way.
     */
    method Tick(packet: Option<Packet>, ready: seq<Picture>)
      requires Valid()
      modifies this`latestFrame, this`decoderInput, heap, pixels
      ensures Valid() && heap.live == old(heap.live)
      ensures !streamInitialized ==>
                && latestFrame == old(latestFrame) && decoderInput == old(decoderInput)
                && pixels[..] == old(pixels[..])
      ensures streamInitialized ==>
                && decoderInput == old(decoderInput) + Forwarded(packet, videoStreamIndex)
                && latestFrame == if |ready| > 0 then Some(ready[|ready| - 1]) else old(latestFrame)
      ensures !(streamInitialized && |ready| > 0 && hasMips) ==> pixels[..] == old(pixels[..])
      ensures streamInitialized && |ready| > 0 && hasMips ==>
                && (forall k :: 0 <= k < FrameBytes ==>
                      pixels[k] == ScaleToBgra(ready[|ready| - 1], FrameBytes)[k])
                && (forall k :: FrameBytes <= k < pixels.Length ==> pixels[k] == old(pixels[k]))
    {
      if !streamInitialized {
        return;
      }
      var numBytes := BgraBufferSize(TextureWidth, TextureHeight);
      var buffer := heap.Malloc(Zeros(numBytes));

      if packet.Some? {
        if packet.value.streamIndex == videoStreamIndex {
          decoderInput := decoderInput + [packet.value];
        }
      }

      var haveNewFrame;
      latestFrame, haveNewFrame := DrainToLatest(latestFrame, ready);

      if haveNewFrame {
        buffer := Block(buffer.id, ScaleToBgra(latestFrame.value, numBytes));
        UpdateTexture(buffer.bytes, numBytes);
      }

      heap.Free(buffer);
    }

    /**
     * `BeginPlay`'s part in the stream: one initialisation attempt on the
     * freshly constructed actor, with no retry; when it fails the actor
     * ticks idly for good.
     */
    method BeginPlay(env: OpenEnv) returns (ret: int)
      requires Valid() && !streamInitialized
      modifies this`videoStreamIndex, this`streamInitialized
      ensures Valid()
      ensures streamInitialized <==> ret == 0
      ensures ret == 0 <==> env.openOk && env.streamInfoOk && HasVideo(env.streams) && env.codecOk
    {
      ret := InitializeUDPVideoStream(env);
    }
  }
}
