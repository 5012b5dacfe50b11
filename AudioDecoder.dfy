/**
 * The audio decode worker (src/core/AudioDecoder.cpp): the same bounded
 * packet FIFO and running/paused flags as the video worker, a seek that also
 * flushes the queue, the checks of `initialize`, and the decision to
 * resample to signed 16-bit samples.
 *
 * The decode thread is not modelled. What libav answers arrives as
 * parameters or as the fields of the `Stream` the decoder is initialised
 * with.
 */
module AudioDecoder {
  import opened QtText
  import opened Media

  /** `AudioDecoder::MAX_QUEUE_SIZE`. */
  const MaxQueueSize: nat := 200

  /** `resampleFrame`'s output: the source's samples as S16, with its timestamps. */
  function Resampled(src: Frame, id: int): Frame
  {
    Frame(id, SampleFmtS16, src.pts, src.dts)
  }

  /** The layout text of `initialize`: the described layout, or "unknown" without channels. */
  function LayoutText(layoutName: Option<string>): string
  {
    if layoutName.Some? then layoutName.value else "unknown"
  }

  class AudioDecoder {
    /** `m_formatContext` and `m_stream`. */
    var container: Option<Container>
    var stream: Option<Stream>
    /** Whether `m_codec`, `m_codecContext` and `m_swrContext` are set. */
    var hasCodec: bool
    var hasCodecContext: bool
    var hasResampler: bool
    var sampleRate: int
    var channels: int
    var channelLayout: string
    var running: bool
    var paused: bool
    var queue: seq<Packet>

    /** The packet queue never holds more than its capacity; a stream comes with its container. */
    ghost predicate Valid()
      reads this
    {
      |queue| <= MaxQueueSize && (container.Some? <==> stream.Some?)
    }

    constructor ()
      ensures Valid()
      ensures container.None? && stream.None? && !hasCodec && !hasCodecContext && !hasResampler
      ensures sampleRate == 0 && channels == 0 && channelLayout == ""
      ensures !running && !paused && queue == []
    {
      container := None;
      stream := None;
      hasCodec := false;
      hasCodecContext := false;
      hasResampler := false;
      sampleRate := 0;
      channels := 0;
      channelLayout := "";
      running := false;
      paused := false;
      queue := [];
    }

    /**
     * `processPacket`: the packet is appended; when the queue is full the
     * oldest packet is dequeued first and freed (returned as `evicted`).
     */
    method ProcessPacket(p: Packet) returns (evicted: Option<Packet>)
      requires Valid()
      modifies this`queue
      ensures Valid()
      ensures queue == Enqueue(old(queue), p, MaxQueueSize)
      ensures evicted == Evicted(old(queue), MaxQueueSize)
    {
      evicted := None;
      if |queue| >= MaxQueueSize {
        evicted := Some(queue[0]);
        queue := queue[1..];
      }
      queue := queue + [p];
    }

    /** The drain loop of `cleanup` and `seekToPosition`: every queued packet is freed, oldest first. */
    method DrainQueue() returns (freed: seq<Packet>)
      modifies this`queue
      ensures queue == [] && freed == old(queue)
    {
      freed := [];
      while queue != []
        invariant freed + queue == old(queue)
        decreases |queue|
      {
        var p := queue[0];
        queue := queue[1..];
        freed := freed + [p];
      }
    }

    /** `cleanup`: stops the worker, frees the resampler and the codec context, and every queued packet. */
    method Cleanup() returns (freed: seq<Packet>)
      requires Valid()
      modifies this`running, this`paused, this`hasResampler, this`hasCodecContext, this`queue
      ensures Valid()
      ensures !running && paused == (old(paused) && !old(running))
      ensures !hasResampler && !hasCodecContext
      ensures queue == [] && freed == old(queue)
    {
      Stop();
      hasResampler := false;
      hasCodecContext := false;
      freed := DrainQueue();
    }

    /** `start`: a running worker is left alone; otherwise it runs, unpaused. */
    method Start()
      modifies this`running, this`paused
      ensures old(running) ==> running && paused == old(paused)
      ensures !old(running) ==> running && !paused
    {
      if running {
        return;
      }
      running := true;
      paused := false;
    }

    /** `stop`: a stopped worker is left alone; otherwise both flags drop. */
    method Stop()
      modifies this`running, this`paused
      ensures !old(running) ==> !running && paused == old(paused)
      ensures old(running) ==> !running && !paused
    {
      if !running {
        return;
      }
      running := false;
      paused := false;
    }

    /** `pause`. */
    method Pause()
      modifies this`paused
      ensures paused
    {
      paused := true;
    }

    /** `resume`. */
    method Resume()
      modifies this`paused
      ensures !paused
    {
      paused := false;
    }

    /**
     * `seekToPosition`: refused without a container or for a negative
     * position; when the demuxer seek succeeds (`seekOk`) the codec is
     * flushed and every queued packet is freed.
     */
    method SeekToPosition(position: real, seekOk: bool) returns (ok: bool, freed: seq<Packet>)
      requires Valid()
      modifies this`queue
      ensures Valid()
      ensures ok <==> container.Some? && position >= 0.0 && seekOk
      ensures ok ==> queue == [] && freed == old(queue)
      ensures !ok ==> queue == old(queue) && freed == []
    {
      if container.None? || position < 0.0 {
        return false, [];
      }
      if seekOk {
        freed := DrainQueue();
        return true, freed;
      }
      return false, [];
    }

    /**
     * `resampleFrame`: nothing without a resampler or a frame, or when the
     * output frame, its buffer or the conversion fails; otherwise a new S16
     * frame carrying the source's `pts` and `pkt_dts`.
     */
    method ResampleFrame(src: Option<Frame>, allocOk: bool, bufferOk: bool, convertOk: bool, newId: int)
      returns (out: Option<Frame>)
      ensures out.Some? <==> hasResampler && src.Some? && allocOk && bufferOk && convertOk
      ensures out.Some? ==> out.value.pts == src.value.pts && out.value.dts == src.value.dts
      ensures out.Some? ==> out.value == Resampled(src.value, newId)
    {
      if !hasResampler || src.None? {
        return None;
      }
      if !allocOk {
        return None;
      }
      if !bufferOk {
        return None;
      }
      if !convertOk {
        return None;
      }
      return Some(Resampled(src.value, newId));
    }

    /**
     * `initialize`: refuses a missing container or a negative stream index,
     * then fails when no decoder is found, no context can be allocated, the
     * parameters cannot be copied or the codec does not open, and, for a
     * sample format other than S16, when the resampler cannot be allocated
     * or initialised (after `cleanup` from the copy step on).
     */
    method Initialize(ctx: Option<Container>, streamIndex: int) returns (ok: bool)
      requires Valid()
      requires ctx.Some? && streamIndex >= 0 ==> streamIndex < |ctx.value.streams|
      modifies this
      ensures Valid()
      ensures ctx.None? || streamIndex < 0 ==> !ok && unchanged(this)
      ensures ctx.Some? && streamIndex >= 0 ==>
        var s := ctx.value.streams[streamIndex];
        && container == ctx && stream == Some(s)
        && ok == (s.codecFound && s.contextAllocates && s.parametersCopy && s.codecOpens
                  && (s.sampleFormat != SampleFmtS16 ==> s.resamplerAllocates && s.resamplerInitialises))
        && (ok ==> hasCodecContext && sampleRate == s.sampleRate && channels == s.channels
                   && channelLayout == LayoutText(s.layoutName) && queue == old(queue))
        && (ok ==> hasResampler == (s.sampleFormat != SampleFmtS16 || old(hasResampler)))
    {
      if ctx.None? || streamIndex < 0 {
        return false;
      }
      container := ctx;
      var s := ctx.value.streams[streamIndex];
      stream := Some(s);
      ok := OpenCodec(s);
      if !ok {
        return;
      }
      sampleRate := s.sampleRate;
      channels := s.channels;
      channelLayout := LayoutText(s.layoutName);
      if s.sampleFormat != SampleFmtS16 {
        ok := SetUpResampler(s);
      }
    }

    /** The codec steps of `initialize`. */
    method OpenCodec(s: Stream) returns (ok: bool)
      requires Valid() && stream == Some(s)
      modifies this`hasCodec, this`hasCodecContext, this`hasResampler, this`running, this`paused, this`queue
      ensures Valid()
      ensures ok == (s.codecFound && s.contextAllocates && s.parametersCopy && s.codecOpens)
      ensures ok ==> hasCodecContext && queue == old(queue) && hasResampler == old(hasResampler)
    {
      if !s.codecFound {
        return false;
      }
      hasCodec := true;
      if !s.contextAllocates {
        return false;
      }
      hasCodecContext := true;
      if !s.parametersCopy {
        var _ := Cleanup();
        return false;
      }
      if !s.codecOpens {
        var _ := Cleanup();
        return false;
      }
      return true;
    }

    /** The resampler steps of `initialize`, taken for a sample format other than S16. */
    method SetUpResampler(s: Stream) returns (ok: bool)
      requires Valid() && stream == Some(s) && hasCodecContext
      modifies this`hasResampler, this`hasCodecContext, this`running, this`paused, this`queue
      ensures Valid()
      ensures ok == (s.resamplerAllocates && s.resamplerInitialises)
      ensures ok ==> hasResampler && hasCodecContext && queue == old(queue)
    {
      if !s.resamplerAllocates {
        hasResampler := false;
        var _ := Cleanup();
        return false;
      }
      hasResampler := true;
      if !s.resamplerInitialises {
        var _ := Cleanup();
        return false;
      }
      return true;
    }
  }
}
