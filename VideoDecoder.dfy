/**
 * The video decode worker (src/core/VideoDecoder.cpp): a bounded packet
 * FIFO, the running and paused flags of its decode thread, the seek entry
 * points, the evenly spaced frame-index table, the decode-forward step of an
 * exact seek, the search for a hardware decoder and the pixel-format
 * conversion decision.
 *
 * The decode thread itself is not modelled; `running` and `paused` are the
 * flags it would read. What libav answers arrives as parameters or as the
 * fields of the `Stream` the decoder was initialised with.
 */
module VideoDecoder {
  import opened CppMath
  import opened QtText
  import opened Media

  /** `VideoDecoder::MAX_QUEUE_SIZE`. */
  const MaxQueueSize: nat := 100

  /** The platform the player was built for: it fixes the hardware types tried. */
  datatype Platform = Windows | Apple | OtherPlatform

  /** `hwTypes` of `initHardwareDecoding`, without its terminating `AV_HWDEVICE_TYPE_NONE`. */
  function HwTypes(p: Platform): (types: seq<HwType>)
    ensures |types| >= 2 && types[|types| - 1] == CUDA
    ensures forall i, j :: 0 <= i < j < |types| ==> types[i] != types[j]
  {
    match p
    case Windows => [D3D11VA, DXVA2, CUDA]
    case Apple => [VideoToolbox, CUDA]
    case OtherPlatform => [VAAPI, VDPAU, CUDA]
  }

  /** A config the decoder can use for device type `t`. */
  predicate Usable(c: HwConfig, t: HwType)
  {
    c.byDeviceContext && c.deviceType == t
  }

  /** The pixel format of the first config of the codec usable for `t`. */
  function FirstConfig(configs: seq<HwConfig>, t: HwType): (r: Option<int>)
    ensures r.None? <==> forall j :: 0 <= j < |configs| ==> !Usable(configs[j], t)
    decreases |configs|
  {
    if configs == [] then None
    else if Usable(configs[0], t) then Some(configs[0].pixelFormat)
    else
      var r := FirstConfig(configs[1..], t);
      assert forall j :: 1 <= j < |configs| ==> configs[j] == configs[1..][j - 1];
      r
  }

  /** The hardware decoder chosen: a device type and the pixel format it delivers. */
  datatype HwChoice = HwChoice(device: HwType, pixelFormat: int)

  /**
   * The first device type of `types` that has a usable config and whose
   * device context can be created (`creatable`).
   */
  function HardwareChoice(types: seq<HwType>, configs: seq<HwConfig>, creatable: set<HwType>): (r: Option<HwChoice>)
    ensures r.None? <==> forall i :: 0 <= i < |types| ==> types[i] !in creatable || FirstConfig(configs, types[i]).None?
    ensures r.Some? ==> r.value.device in types && r.value.device in creatable
                        && FirstConfig(configs, r.value.device) == Some(r.value.pixelFormat)
    decreases |types|
  {
    if types == [] then None
    else if types[0] in creatable && FirstConfig(configs, types[0]).Some? then
      Some(HwChoice(types[0], FirstConfig(configs, types[0]).value))
    else
      var r := HardwareChoice(types[1..], configs, creatable);
      assert forall i :: 1 <= i < |types| ==> types[i] == types[1..][i - 1];
      r
  }

  /** The choice follows the list order: the first type that can work is taken. */
  lemma {:induction false} HardwareChoiceIsFirst(types: seq<HwType>, configs: seq<HwConfig>, creatable: set<HwType>, i: int)
    requires 0 <= i < |types| && types[i] in creatable && FirstConfig(configs, types[i]).Some?
    requires forall k :: 0 <= k < i ==> types[k] !in creatable || FirstConfig(configs, types[k]).None?
    ensures HardwareChoice(types, configs, creatable) == Some(HwChoice(types[i], FirstConfig(configs, types[i]).value))
    decreases i
  {
    if i > 0 {
      HardwareChoiceIsFirst(types[1..], configs, creatable, i - 1);
    }
  }

  /** The frame timestamps of `buildFrameIndex`: `duration * i / nb_frames` for each frame. */
  function EvenIndex(duration: int, count: int): (idx: seq<int>)
    ensures |idx| == if count > 0 && duration > 0 then count else 0
  {
    if count > 0 && duration > 0 then seq(count, i requires 0 <= i < count => duration * i / count)
    else []
  }

  /** The index has one entry per frame, starts at 0, never decreases and stays below the duration. */
  lemma EvenIndexShape(duration: int, count: int)
    requires count > 0 && duration > 0
    ensures var idx := EvenIndex(duration, count);
            && |idx| == count && idx[0] == 0
            && (forall i, j :: 0 <= i <= j < count ==> idx[i] <= idx[j])
            && (forall i :: 0 <= i < count ==> 0 <= idx[i] < duration)
  {
    var idx := EvenIndex(duration, count);
    forall i, j | 0 <= i <= j < count
      ensures idx[i] <= idx[j]
    {
      MulMonotone(i, j, duration);
      assert duration * i <= duration * j;
      DivMonotone(duration * i, duration * j, count);
    }
    forall i | 0 <= i < count
      ensures 0 <= idx[i] < duration
    {
      MulMonotone(i, count - 1, duration);
      assert duration * i < duration * count;
      DivBelow(duration * i, count, duration);
    }
  }

  /** What `av_read_frame` and the decoder give for one read during decode-forward. */
  datatype ReadResult =
    | ReadFailed                       // end of file or an error: the read loop stops
    | OtherStream                      // a packet of another stream, skipped
    | SendRejected                     // `avcodec_send_packet` refused the packet
    | Decoded(frames: seq<Frame>)      // the frames `avcodec_receive_frame` yields for it

  /** The frames decoded from `input` before the first failed read. */
  function DecodedFrames(input: seq<ReadResult>): (frames: seq<Frame>)
    ensures forall k :: 0 <= k < |frames| ==> exists i :: 0 <= i < |input| && ReadBefore(input, i) && frames[k] in input[i].frames
    decreases |input|
  {
    if input == [] then []
    else
      var rest := DecodedFrames(input[1..]);
      assert forall i :: 0 <= i < |input[1..]| && ReadBefore(input[1..], i) && !input[0].ReadFailed? ==> ReadBefore(input, i + 1);
      match input[0]
      case ReadFailed => []
      case OtherStream => rest
      case SendRejected => rest
      case Decoded(fs) => fs + rest
  }

  /** Read `i` decoded frames and no read before it failed. */
  predicate ReadBefore(input: seq<ReadResult>, i: int)
    requires 0 <= i < |input|
  {
    input[i].Decoded? && forall j :: 0 <= j < i ==> !input[j].ReadFailed?
  }

  /** `convertFrame`'s output: the source converted to YUV420P, with its timestamps. */
  function Converted(src: Frame, id: int): Frame
  {
    Frame(id, PixFmtYuv420p, src.pts, src.dts)
  }

  /** The frame the decode loop emits: the converted one when there is one, else the source. */
  function EmittedFrame(src: Frame, converted: Option<Frame>): Frame
  {
    if converted.Some? then converted.value else src
  }

  /** `m_fps` after `initialize`: the guessed rate when it is a proper fraction. */
  function StreamFps(s: Stream, previous: real): (fps: real)
    ensures s.frameRate.num > 0 && s.frameRate.den > 0 ==> fps > 0.0
    ensures !(s.frameRate.num > 0 && s.frameRate.den > 0) ==> fps == previous
  {
    if s.frameRate.num > 0 && s.frameRate.den > 0 then s.frameRate.num as real / s.frameRate.den as real
    else previous
  }

  /**
   * `m_frameCount` after `initialize`: `nb_frames` when known, else the
   * container duration times the rate, truncated.
   */
  function StreamFrameCount(s: Stream, containerDuration: int, fps: real, previous: int): (count: int)
    ensures s.nbFrames > 0 ==> count == s.nbFrames
    ensures s.nbFrames <= 0 && (containerDuration == AvNoPtsValue || fps <= 0.0) ==> count == previous
  {
    if s.nbFrames > 0 then s.nbFrames
    else if containerDuration != AvNoPtsValue && fps > 0.0 then
      Trunc(containerDuration as real / AvTimeBase as real * fps)
    else previous
  }

  class VideoDecoder {
    /** `m_formatContext` and `m_stream`. */
    var container: Option<Container>
    var stream: Option<Stream>
    /** Whether `m_codec`, `m_codecContext` and `m_swsContext` are set. */
    var hasCodec: bool
    var hasCodecContext: bool
    var hasScaler: bool
    /** The device of `m_hwDeviceContext`, if one is held. */
    var hwDevice: Option<HwType>
    var hwPixelFormat: int
    var useHardware: bool
    var frameIndex: seq<int>
    var frameCount: int
    var fps: real
    var running: bool
    var paused: bool
    var queue: seq<Packet>
    var currentFrame: int
    var currentPosition: real

    /** The packet queue never holds more than its capacity. */
    ghost predicate Valid()
      reads this
    {
      |queue| <= MaxQueueSize && (stream.Some? ==> container.Some?)
    }

    constructor ()
      ensures Valid()
      ensures container.None? && stream.None? && !hasCodec && !hasCodecContext && !hasScaler
      ensures hwDevice.None? && hwPixelFormat == PixFmtNone && !useHardware
      ensures frameIndex == [] && frameCount == 0 && fps == 0.0
      ensures !running && !paused && queue == [] && currentFrame == 0 && currentPosition == 0.0
    {
      container := None;
      stream := None;
      hasCodec := false;
      hasCodecContext := false;
      hasScaler := false;
      hwDevice := None;
      hwPixelFormat := PixFmtNone;
      useHardware := false;
      frameIndex := [];
      frameCount := 0;
      fps := 0.0;
      running := false;
      paused := false;
      queue := [];
      currentFrame := 0;
      currentPosition := 0.0;
    }

    /**
     * `processPacket`: the packet is appended; when the queue is full the
     * oldest packet is dequeued first and freed (returned as `evicted`).
     */
    method ProcessPacket(p: Packet) returns (evicted: Option<Packet>)
      requires Valid()
      modifies this`queue
      ensures Valid()
      ensures queue == Enqueue(old(queue), p, MaxQueueSize)
      ensures evicted == Evicted(old(queue), MaxQueueSize)
    {
      evicted := None;
      if |queue| >= MaxQueueSize {
        evicted := Some(queue[0]);
        queue := queue[1..];
      }
      queue := queue + [p];
    }

    /** The drain loop of `cleanup`: every queued packet is freed, oldest first. */
    method DrainQueue() returns (freed: seq<Packet>)
      modifies this`queue
      ensures queue == [] && freed == old(queue)
    {
      freed := [];
      while queue != []
        invariant freed + queue == old(queue)
        decreases |queue|
      {
        var p := queue[0];
        queue := queue[1..];
        freed := freed + [p];
      }
    }

    /**
     * `cleanup`: stops the worker, frees the scaler, the hardware device and
     * the codec context, and frees every queued packet.
     */
    method Cleanup() returns (freed: seq<Packet>)
      requires Valid()
      modifies this`running, this`paused, this`hasScaler, this`hwDevice, this`hasCodecContext, this`queue
      ensures Valid()
      ensures !running && paused == (old(paused) && !old(running))
      ensures !hasScaler && hwDevice.None? && !hasCodecContext
      ensures queue == [] && freed == old(queue)
    {
      Stop();
      hasScaler := false;
      hwDevice := None;
      hasCodecContext := false;
      freed := DrainQueue();
    }

    /** `start`: a running worker is left alone; otherwise it runs, unpaused. */
    method Start()
      modifies this`running, this`paused
      ensures old(running) ==> running && paused == old(paused)
      ensures !old(running) ==> running && !paused
    {
      if running {
        return;
      }
      running := true;
      paused := false;
    }

    /** `stop`: a stopped worker is left alone; otherwise both flags drop. */
    method Stop()
      modifies this`running, this`paused
      ensures !old(running) ==> !running && paused == old(paused)
      ensures old(running) ==> !running && !paused
    {
      if !running {
        return;
      }
      running := false;
      paused := false;
    }

    /** `pause`. */
    method Pause()
      modifies this`paused
      ensures paused
    {
      paused := true;
    }

    /** `resume`. */
    method Resume()
      modifies this`paused
      ensures !paused
    {
      paused := false;
    }

    /**
     * `seekToPosition`: a negative position is refused; otherwise, when the
     * demuxer seek succeeds (`seekOk`), the position and the frame under it
     * are recorded. The packet queue is not flushed.
     */
    method SeekToPosition(position: real, seekOk: bool) returns (ok: bool)
      requires container.Some?
      modifies this`currentPosition, this`currentFrame
      ensures ok <==> position >= 0.0 && seekOk
      ensures ok ==> currentPosition == position && currentFrame == Trunc(position * fps)
      ensures !ok ==> currentPosition == old(currentPosition) && currentFrame == old(currentFrame)
    {
      if position < 0.0 {
        return false;
      }
      if seekOk {
        currentPosition := position;
        currentFrame := Trunc(position * fps);
        return true;
      }
      return false;
    }

    /**
     * `seekToFrame`: a frame outside `[0, frameCount)` is refused. An exact
     * seek to an indexed frame seeks to its index entry and then decodes
     * forward to it (`input`); any other seek goes through `SeekToPosition`
     * at `frame / fps`.
     */
    method SeekToFrame(frameNumber: int, exact: bool, seekOk: bool, input: seq<ReadResult>)
      returns (ok: bool, delivered: Option<Frame>)
      requires container.Some? && stream.Some?
      requires 0 <= frameNumber < frameCount && !(exact && frameNumber < |frameIndex|) ==> fps > 0.0
      modifies this`currentPosition, this`currentFrame
      ensures frameNumber < 0 || frameNumber >= frameCount ==>
        !ok && delivered.None? && currentFrame == old(currentFrame) && currentPosition == old(currentPosition)
      ensures 0 <= frameNumber < frameCount && exact && frameNumber < |frameIndex| ==>
        currentPosition == old(currentPosition)
        && currentFrame == (if seekOk then frameNumber else old(currentFrame))
        && ok == (seekOk && frameNumber < |DecodedFrames(input)|)
        && delivered == (if ok then Some(DecodedFrames(input)[frameNumber]) else None)
      ensures 0 <= frameNumber < frameCount && !(exact && frameNumber < |frameIndex|) ==>
        var position := frameNumber as real / fps;
        && delivered.None? && ok == seekOk
        && currentPosition == (if ok then position else old(currentPosition))
        && currentFrame == (if ok then Trunc(position * fps) else old(currentFrame))
    {
      delivered := None;
      if frameNumber < 0 || frameNumber >= frameCount {
        return false, None;
      }
      if exact && frameNumber < |frameIndex| {
        if seekOk {
          currentFrame := frameNumber;
          ok, delivered := DecodeToTargetFrame(frameNumber, input);
          return;
        }
      } else {
        var position := frameNumber as real / fps;
        ok := SeekToPosition(position, seekOk);
        return;
      }
      return false, None;
    }

    /**
     * `buildFrameIndex`: without a container or stream nothing happens;
     * otherwise the index is rebuilt, evenly spaced over the stream duration
     * when the frame count and the duration are known, empty otherwise.
     */
    method BuildFrameIndex()
      modifies this`frameIndex
      ensures container.None? || stream.None? ==> frameIndex == old(frameIndex)
      ensures container.Some? && stream.Some? ==>
        frameIndex == EvenIndex(stream.value.duration, stream.value.nbFrames)
    {
      if container.None? || stream.None? {
        return;
      }
      var s := stream.value;
      frameIndex := [];
      if s.nbFrames > 0 {
        var duration := s.duration;
        if duration > 0 {
          var i := 0;
          while i < s.nbFrames
            invariant 0 <= i <= s.nbFrames
            invariant frameIndex == EvenIndex(duration, s.nbFrames)[..i]
          {
            frameIndex := frameIndex + [duration * i / s.nbFrames];
            i := i + 1;
          }
        }
      }
    }

    /**
     * `decodeToTargetFrame`: a negative target is refused; otherwise frames
     * are decoded and discarded until the one at 0-based position `target`,
     * which is delivered. Running out of input first fails.
     */
    method DecodeToTargetFrame(target: int, input: seq<ReadResult>) returns (found: bool, delivered: Option<Frame>)
      ensures found <==> 0 <= target < |DecodedFrames(input)|
      ensures delivered == if found then Some(DecodedFrames(input)[target]) else None
    {
      found, delivered := DecodeForward(target, input);
    }

    /**
     * `initHardwareDecoding`: device types are tried in the platform's order,
     * each against the codec's configs in order; the first type with a
     * usable config whose device context can be created is taken. When none
     * works the decoder stays on software decoding.
     */
    method InitHardwareDecoding(platform: Platform, creatable: set<HwType>) returns (ok: bool)
      requires stream.Some?
      modifies this`hwDevice, this`hwPixelFormat, this`useHardware
      ensures var choice := HardwareChoice(HwTypes(platform), stream.value.hwConfigs, creatable);
              && ok == choice.Some?
              && (ok ==> hwDevice == Some(choice.value.device) && hwPixelFormat == choice.value.pixelFormat && useHardware)
              && (!ok ==> hwDevice == old(hwDevice) && hwPixelFormat == old(hwPixelFormat) && useHardware == old(useHardware))
    {
      var choice := SearchHardware(HwTypes(platform), stream.value.hwConfigs, creatable);
      if choice.Some? {
        hwDevice := Some(choice.value.device);
        hwPixelFormat := choice.value.pixelFormat;
        useHardware := true;
        return true;
      }
      return false;
    }

    /**
     * `convertFrame`: nothing to convert for a missing frame or one already
     * in YUV420P; otherwise the scaler is created on first use
     * (`scalerCreates`) and, when the output buffer can be allocated, a new
     * YUV420P frame with the source's timestamps is returned.
     */
    method ConvertFrame(src: Option<Frame>, scalerCreates: bool, bufferOk: bool, newId: int) returns (out: Option<Frame>)
      modifies this`hasScaler
      ensures out.Some? <==> src.Some? && src.value.format != PixFmtYuv420p && (old(hasScaler) || scalerCreates) && bufferOk
      ensures out.Some? ==> out.value == Converted(src.value, newId)
      ensures hasScaler == (old(hasScaler) || (src.Some? && src.value.format != PixFmtYuv420p && scalerCreates))
    {
      if src.None? {
        return None;
      }
      var f := src.value;
      if f.format == PixFmtYuv420p {
        return None;
      }
      if !hasScaler {
        hasScaler := scalerCreates;
        if !hasScaler {
          return None;
        }
      }
      if !bufferOk {
        return None;
      }
      return Some(Converted(f, newId));
    }

    /**
     * `initialize`: refuses a missing container or a negative stream index,
     * then fails when no decoder is found, no context can be allocated, the
     * parameters cannot be copied or the codec does not open (the last two
     * after `cleanup`). On the way it tries hardware decoding; on success it
     * reads the rate and frame count and builds the frame index.
     */
    method Initialize(ctx: Option<Container>, streamIndex: int, platform: Platform, creatable: set<HwType>)
      returns (ok: bool)
      requires Valid()
      requires ctx.Some? && streamIndex >= 0 ==> streamIndex < |ctx.value.streams|
      modifies this
      ensures Valid()
      ensures ctx.None? || streamIndex < 0 ==> !ok && unchanged(this)
      ensures ctx.Some? && streamIndex >= 0 ==>
        var s := ctx.value.streams[streamIndex];
        && container == ctx && stream == Some(s)
        && ok == (s.codecFound && s.contextAllocates && s.parametersCopy && s.codecOpens)
        && (ok ==> fps == StreamFps(s, old(fps))
                   && frameCount == StreamFrameCount(s, ctx.value.duration, fps, old(frameCount))
                   && frameIndex == EvenIndex(s.duration, s.nbFrames)
                   && hasCodecContext && queue == old(queue) && running == old(running))
        && (ok ==> var choice := HardwareChoice(HwTypes(platform), s.hwConfigs, creatable);
                   useHardware == (choice.Some? || old(useHardware))
                   && (choice.Some? ==> hwDevice == Some(choice.value.device)))
    {
      if ctx.None? || streamIndex < 0 {
        return false;
      }
      container := ctx;
      var s := ctx.value.streams[streamIndex];
      stream := Some(s);
      ok := OpenCodec(s, platform, creatable);
      if ok {
        ReadStreamInfo(s, ctx.value.duration);
      }
    }

    /**
     * The codec steps of `initialize`: find the decoder, allocate its
     * context, copy the parameters, try hardware decoding, open the codec.
     */
    method OpenCodec(s: Stream, platform: Platform, creatable: set<HwType>) returns (ok: bool)
      requires Valid() && stream == Some(s)
      modifies this`hasCodec, this`hasCodecContext, this`hasScaler, this`hwDevice, this`hwPixelFormat,
               this`useHardware, this`running, this`paused, this`queue
      ensures Valid()
      ensures ok == (s.codecFound && s.contextAllocates && s.parametersCopy && s.codecOpens)
      ensures ok ==> hasCodecContext && queue == old(queue) && running == old(running)
      ensures ok ==> var choice := HardwareChoice(HwTypes(platform), s.hwConfigs, creatable);
                     useHardware == (choice.Some? || old(useHardware))
                     && (choice.Some? ==> hwDevice == Some(choice.value.device))
    {
      if !s.codecFound {
        return false;
      }
      hasCodec := true;
      if !s.contextAllocates {
        return false;
      }
      hasCodecContext := true;
      if !s.parametersCopy {
        var _ := Cleanup();
        return false;
      }
      ghost var choice := HardwareChoice(HwTypes(platform), s.hwConfigs, creatable);
      ghost var before := useHardware;
      var _ := InitHardwareDecoding(platform, creatable);
      assert useHardware == (choice.Some? || before);
      if !s.codecOpens {
        var _ := Cleanup();
        return false;
      }
      return true;
    }

    /** The tail of `initialize`: the rate, the frame count and the frame index. */
    method ReadStreamInfo(s: Stream, containerDuration: int)
      requires container.Some? && stream == Some(s)
      modifies this`fps, this`frameCount, this`frameIndex
      ensures fps == StreamFps(s, old(fps))
      ensures frameCount == StreamFrameCount(s, containerDuration, fps, old(frameCount))
      ensures frameIndex == EvenIndex(s.duration, s.nbFrames)
    {
      fps := StreamFps(s, fps);
      frameCount := StreamFrameCount(s, containerDuration, fps, frameCount);
      BuildFrameIndex();
    }
  }

  /**
   * The decode-forward loop of `decodeToTargetFrame`: frames are counted
   * from 0 after the seek, and the one numbered `target` is delivered.
   */
  method DecodeForward(target: int, input: seq<ReadResult>) returns (found: bool, delivered: Option<Frame>)
    ensures found <==> 0 <= target < |DecodedFrames(input)|
    ensures delivered == if found then Some(DecodedFrames(input)[target]) else None
  {
    if target < 0 {
      return false, None;
    }
    ghost var all := DecodedFrames(input);
    var current := 0;
    var k := 0;
    ghost var seen: seq<Frame> := [];
    while current <= target
      invariant 0 <= k <= |input| && current <= target && |seen| == current
      invariant all == seen + DecodedFrames(input[k..])
      decreases |input| - k
    {
      DecodedFrom(input, k);
      if k == |input| || input[k].ReadFailed? {
        break;
      }
      var r := input[k];
      k := k + 1;
      if r.Decoded? {
        var fs := r.frames;
        var next, hit := TakeFrames(fs, current, target, seen, DecodedFrames(input[k..]), all);
        if hit.Some? {
          return true, hit;
        }
        seen := seen + fs;
        current := next;
      }
    }
    return false, None;
  }

  /**
   * The inner loop of `decodeToTargetFrame`: the frames one packet yields,
   * counted on from `current`; the one numbered `target` is the hit.
   */
  method TakeFrames(fs: seq<Frame>, current: int, target: int, ghost seen: seq<Frame>,
                    ghost rest: seq<Frame>, ghost all: seq<Frame>) returns (next: int, hit: Option<Frame>)
    requires 0 <= current <= target && |seen| == current && all == seen + fs + rest
    ensures hit.Some? <==> target < current + |fs|
    ensures hit.Some? ==> hit.value == all[target]
    ensures hit.None? ==> next == current + |fs|
  {
    next := current;
    var m := 0;
    while m < |fs|
      invariant 0 <= m <= |fs| && next == current + m <= target
    {
      if next == target {
        assert all[target] == fs[m];
        return next, Some(fs[m]);
      }
      next := next + 1;
      m := m + 1;
    }
    return next, None;
  }

  /** How `DecodedFrames` continues from read `k`. */
  lemma DecodedFrom(input: seq<ReadResult>, k: int)
    requires 0 <= k <= |input|
    ensures k == |input| ==> DecodedFrames(input[k..]) == []
    ensures k < |input| && input[k].ReadFailed? ==> DecodedFrames(input[k..]) == []
    ensures k < |input| && input[k].Decoded? ==>
      DecodedFrames(input[k..]) == input[k].frames + DecodedFrames(input[k + 1..])
    ensures k < |input| && (input[k].OtherStream? || input[k].SendRejected?) ==>
      DecodedFrames(input[k..]) == DecodedFrames(input[k + 1..])
  {
    if k < |input| {
      assert input[k..][0] == input[k];
      assert input[k..][1..] == input[k + 1..];
    }
  }

  /**
   * The loops of `initHardwareDecoding`: each device type in order, each
   * config of the codec in order, until a device context is created.
   */
  method SearchHardware(types: seq<HwType>, configs: seq<HwConfig>, creatable: set<HwType>) returns (choice: Option<HwChoice>)
    ensures choice == HardwareChoice(types, configs, creatable)
  {
    var i := 0;
    while i < |types|
      invariant 0 <= i <= |types|
      invariant HardwareChoice(types, configs, creatable) == HardwareChoice(types[i..], configs, creatable)
    {
      var t := types[i];
      var format := TryDeviceType(configs, t, creatable);
      assert types[i..][0] == t && types[i..][1..] == types[i + 1..];
      if format.Some? {
        return Some(HwChoice(t, format.value));
      }
      i := i + 1;
    }
    return None;
  }

  /** The inner loop: the configs usable for `t`, each tried by creating a device context. */
  method TryDeviceType(configs: seq<HwConfig>, t: HwType, creatable: set<HwType>) returns (format: Option<int>)
    ensures format == if t in creatable then FirstConfig(configs, t) else None
  {
    var j := 0;
    while j < |configs|
      invariant 0 <= j <= |configs|
      invariant t in creatable ==> FirstConfig(configs, t) == FirstConfig(configs[j..], t)
    {
      var c := configs[j];
      assert configs[j..][0] == c && configs[j..][1..] == configs[j + 1..];
      if c.byDeviceContext && c.deviceType == t {
        if t in creatable {
          return Some(c.pixelFormat);
        }
      }
      j := j + 1;
    }
    return None;
  }

  /**
   * The emitted frame keeps the decoded frame's timestamps whether or not a
   * conversion took place.
   */
  lemma EmittedKeepsTimestamps(src: Frame, converted: Option<Frame>, id: int)
    requires converted.None? || converted.value == Converted(src, id)
    ensures EmittedFrame(src, converted).pts == src.pts && EmittedFrame(src, converted).dts == src.dts
    ensures converted.Some? ==> EmittedFrame(src, converted).format == PixFmtYuv420p
  {
  }
}
