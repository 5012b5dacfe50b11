/**
 * What the FFmpeg back end passes between its parts: compressed packets and
 * decoded frames, known only by identity and the few fields the engine reads,
 * and the container and codec facts the decoders are initialised from. Every
 * answer a libav call would give is a field here or a method parameter.
 *
 * The bounded packet FIFO both decode workers keep (`QQueue<AVPacket*>` with
 * a drop-oldest rule on overflow) is specified once, by `Enqueue`.
 */
module Media {
  import opened QtText

  /** A compressed packet (`AVPacket*`). */
  datatype Packet = Packet(id: int)

  /** A decoded frame (`AVFrame*`): identity, pixel or sample format, timestamps. */
  datatype Frame = Frame(id: int, format: int, pts: int, dts: int)

  /** `AV_TIME_BASE`: container timestamps are in microseconds. */
  const AvTimeBase: int := 1000000

  /** `AV_NOPTS_VALUE`: the container does not know its duration. */
  const AvNoPtsValue: int := -0x8000_0000_0000_0000

  /** `AV_PIX_FMT_NONE`, `AV_PIX_FMT_YUV420P` and `AV_SAMPLE_FMT_S16`. */
  const PixFmtNone: int := -1
  const PixFmtYuv420p: int := 0
  const SampleFmtS16: int := 1

  /** Hardware device types (`AVHWDeviceType`); `OtherDevice` stands for the rest. */
  datatype HwType = D3D11VA | DXVA2 | VideoToolbox | VAAPI | VDPAU | CUDA | OtherDevice(code: int)

  /** One entry of `avcodec_get_hw_config`. */
  datatype HwConfig = HwConfig(byDeviceContext: bool, deviceType: HwType, pixelFormat: int)

  /** `AVRational`. */
  datatype Rational = Rational(num: int, den: int)

  /**
   * One stream of a container, with what the libav calls made on its behalf
   * answer: whether a decoder exists, whether a context can be allocated, the
   * parameters copied and the codec opened; the codec's hardware configs; the
   * guessed frame rate, `nb_frames` and `duration` (stream time base); for
   * audio the sample format, rate, channels, layout name and whether the
   * resampler can be allocated and initialised.
   */
  datatype Stream = Stream(
    index: int,
    codecFound: bool, contextAllocates: bool, parametersCopy: bool, codecOpens: bool,
    hwConfigs: seq<HwConfig>,
    frameRate: Rational, nbFrames: int, duration: int,
    sampleFormat: int, sampleRate: int, channels: int, layoutName: Option<string>,
    resamplerAllocates: bool, resamplerInitialises: bool)

  /** An opened container (`AVFormatContext`): its streams and duration in `AV_TIME_BASE` units. */
  datatype Container = Container(streams: seq<Stream>, duration: int)

  // -------------------------------------------------------- the packet FIFO

  /**
   * `processPacket`: when the queue already holds `capacity` packets the
   * oldest is dequeued and freed, then the new packet is enqueued.
   */
  function Enqueue(queue: seq<Packet>, p: Packet, capacity: nat): (q: seq<Packet>)
    requires capacity > 0
    ensures |queue| <= capacity ==> |q| <= capacity
    ensures |q| > 0 && q[|q| - 1] == p
    ensures |queue| < capacity ==> q[..|q| - 1] == queue
    ensures |queue| >= capacity ==> q[..|q| - 1] == queue[1..]
  {
    var kept := if |queue| >= capacity then queue[1..] else queue;
    assert (kept + [p])[..|kept|] == kept;
    kept + [p]
  }

  /** The packet `Enqueue` frees, if any: the oldest, exactly when the queue is full. */
  function Evicted(queue: seq<Packet>, capacity: nat): (e: Option<Packet>)
    ensures e.Some? <==> |queue| >= capacity && |queue| > 0
    ensures e.Some? ==> e.value == queue[0]
  {
    if |queue| >= capacity && |queue| > 0 then Some(queue[0]) else None
  }

  /** Nothing is lost but what is evicted: the old queue is the evicted packet and the kept ones. */
  lemma EnqueueKeepsOrder(queue: seq<Packet>, p: Packet, capacity: nat)
    requires capacity > 0
    ensures var q := Enqueue(queue, p, capacity);
            (if Evicted(queue, capacity).Some? then [queue[0]] else []) + q[..|q| - 1] == queue
  {
    var q := Enqueue(queue, p, capacity);
    if |queue| >= capacity {
      assert [queue[0]] + queue[1..] == queue;
    }
  }

  /** A run of packets pushed in order, each with `Enqueue`. */
  function EnqueueAll(queue: seq<Packet>, ps: seq<Packet>, capacity: nat): seq<Packet>
    requires capacity > 0
    decreases |ps|
  {
    if ps == [] then queue
    else EnqueueAll(Enqueue(queue, ps[0], capacity), ps[1..], capacity)
  }

  /** The newest `capacity` packets of a run, in order. */
  function Newest(all: seq<Packet>, capacity: nat): (r: seq<Packet>)
    ensures |r| <= capacity && |r| <= |all|
    ensures |all| <= capacity ==> r == all
  {
    if |all| <= capacity then all else all[|all| - capacity..]
  }

  /**
   * Pushing packets into a queue within its capacity keeps exactly the
   * newest `capacity` of the queued and pushed packets, in the order they
   * came: overflow drops only the oldest.
   */
  lemma {:induction false} EnqueueAllKeepsNewest(queue: seq<Packet>, ps: seq<Packet>, capacity: nat)
    requires capacity > 0 && |queue| <= capacity
    ensures EnqueueAll(queue, ps, capacity) == Newest(queue + ps, capacity)
    decreases |ps|
  {
    if ps == [] {
      assert queue + ps == queue;
    } else {
      var q := Enqueue(queue, ps[0], capacity);
      assert EnqueueAll(queue, ps, capacity) == EnqueueAll(q, ps[1..], capacity);
      EnqueueAllKeepsNewest(q, ps[1..], capacity);
      if |queue| >= capacity {
        assert q == queue[1..] + [ps[0]];
        ShiftedRun(queue, ps);
        NewestOfTail(queue + ps, capacity);
      } else {
        assert q == queue + [ps[0]];
        assert q + ps[1..] == queue + ps;
      }
    }
  }

  /** A run longer than the capacity has the same newest packets as its tail. */
  lemma NewestOfTail(all: seq<Packet>, capacity: nat)
    requires 0 < capacity < |all|
    ensures Newest(all[1..], capacity) == Newest(all, capacity)
  {
  }

  /** Dropping the oldest packet and pushing the next one is the run of packets without its first. */
  lemma ShiftedRun(queue: seq<Packet>, ps: seq<Packet>)
    requires |queue| > 0 && ps != []
    ensures (queue[1..] + [ps[0]]) + ps[1..] == (queue + ps)[1..]
  {
    assert [ps[0]] + ps[1..] == ps;
  }
}
