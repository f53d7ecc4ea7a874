/**
 * Pieces of the video path that both texture actors share: the search for
 * the first video stream, the loop that drains the decoder keeping only the
 * newest frame, and the packet filter in front of the decoder. The demuxer,
 * the decoder and the scaler are foreign libraries; they appear here only
 * as the packets and pictures they produce.
 */
module Decoding {
  import opened Common

  /** A decoded picture, as bytes. */
  type Picture = seq<Byte>

  /** A demuxed packet; only its stream index matters to the model. */
  datatype Packet = Packet(streamIndex: int)

  /** `codecpar->codec_type` of a stream. */
  datatype MediaType = Video | Audio | Data | Subtitle | Attachment | Unknown

  /** `AVERROR(EINVAL)`, which the buffer-size query returns for bad dimensions. */
  const AvErrorInvalid: int := -22

  /**
   * `av_image_get_buffer_size(AV_PIX_FMT_BGRA, width, height, 1)`: four
   * bytes per pixel and no row padding, or an error for empty dimensions.
   */
  function BgraBufferSize(width: int, height: int): (n: int)
    ensures n > 0 <==> width > 0 && height > 0
    ensures n > 0 ==> n == 4 * (width * height)
  {
    if width <= 0 || height <= 0 then AvErrorInvalid else 4 * (width * height)
  }

  /**
   * What `sws_scale` leaves in an `n`-byte destination buffer. The colour
   * conversion itself is not modelled: the buffer receives the decoded
   * picture's leading bytes, zero-filled when the picture is shorter.
   */
  function ScaleToBgra(p: Picture, n: nat): (r: seq<Byte>)
    ensures |r| == n
    ensures forall i :: 0 <= i < n && i < |p| ==> r[i] == p[i]
  {
    if n <= |p| then p[..n] else p + Zeros(n - |p|)
  }

  /** Some stream is a video stream. */
  predicate HasVideo(streams: seq<MediaType>)
  {
    exists i :: 0 <= i < |streams| && streams[i] == Video
  }

  /** `i` is the index of the first video stream. */
  predicate IsFirstVideo(streams: seq<MediaType>, i: int)
  {
    0 <= i < |streams| && streams[i] == Video &&
    forall j :: 0 <= j < i ==> streams[j] != Video
  }

  /** The index of the first video stream, when there is one. */
  function FirstVideo(streams: seq<MediaType>): (i: int)
    requires HasVideo(streams)
    ensures IsFirstVideo(streams, i)
    decreases |streams|
  {
    if streams[0] == Video then 0
    else
      assert HasVideo(streams[1..]) by {
        var k :| 0 <= k < |streams| && streams[k] == Video;
        assert streams[1..][k - 1] == Video;
      }
      var rest := FirstVideo(streams[1..]);
      assert forall j :: 1 <= j <= rest ==> streams[j] == streams[1..][j - 1];
      1 + rest
  }

  /**
   * The stream-selection loop: `videoStreamIndex` becomes the index of the
   * first video stream and `found` (the decoder lookup having run) is set;
   * with no video stream the loop leaves the index at its `current` value
   * (initially -1) and `found` unset.
   */
  method SelectVideoStream(streams: seq<MediaType>, current: int) returns (index: int, found: bool)
    ensures found <==> HasVideo(streams)
    ensures found ==> IsFirstVideo(streams, index) && index == FirstVideo(streams)
    ensures !found ==> index == current
  {
    index, found := current, false;
    var i := 0;
    while i < |streams|
      invariant 0 <= i <= |streams|
      invariant forall j :: 0 <= j < i ==> streams[j] != Video
      invariant index == current
    {
      if streams[i] == Video {
        index, found := i, true;
        break;
      }
      i := i + 1;
    }
  }

  /**
   * The drain loop: receive every frame the decoder has ready, each one
   * replacing the previous `latest_frame`. Afterwards the latest frame is
   * the last one received, and `haveNewFrame` says whether any was.
   */
  method DrainToLatest(latest: Option<Picture>, ready: seq<Picture>)
    returns (newLatest: Option<Picture>, haveNewFrame: bool)
    ensures haveNewFrame <==> |ready| > 0
    ensures haveNewFrame ==> newLatest == Some(ready[|ready| - 1])
    ensures !haveNewFrame ==> newLatest == latest
  {
    newLatest := latest;
    haveNewFrame := false;
    var received := 0;
    while received < |ready|
      invariant 0 <= received <= |ready|
      invariant haveNewFrame <==> received > 0
      invariant received > 0 ==> newLatest == Some(ready[received - 1])
      invariant received == 0 ==> newLatest == latest
    {
      newLatest := Some(ready[received]);
      haveNewFrame := true;
      received := received + 1;
    }
  }

  /** The packets a read hands to the decoder: only one of the video stream. */
  function Forwarded(packet: Option<Packet>, videoStreamIndex: int): seq<Packet>
  {
    if packet.Some? && packet.value.streamIndex == videoStreamIndex then [packet.value] else []
  }
}
