/**
 * The audio side of the segmentation engine: the thread that drains
 * captured samples into a buffer, feeds them to the decoder stream, and,
 * once enough new audio has arrived, decodes, routes the phrase and
 * recycles the buffer. The decoder is abstract: `fed` is the audio the
 * current stream has been given and the decoded tokens are an input.
 */
module Driver {
  import opened Wrappers
  import opened Config
  import opened Speech
  import opened Command

  /** `TARGET_SAMPLE_RATE`: samples per second of the captured audio. */
  const TargetSampleRate: nat := 16000

  /** `buffer.len() / (TARGET_SAMPLE_RATE / 1_000)`: the whole milliseconds of buffered audio. */
  function LengthMs(buffer: seq<int>): (ms: nat)
    ensures ms * 16 <= |buffer| < (ms + 1) * 16
  {
    |buffer| / (TargetSampleRate / 1000)
  }

  /** `last_gap_end_ms * TARGET_SAMPLE_RATE / 1000`: the sample at which the last gap ends. */
  function GapStartSample(meta: MetadataResult): (g: nat)
    ensures g == meta.lastGapEndMs * 16
    ensures meta.lastGapEndMs == 0 <==> g == 0
  {
    meta.lastGapEndMs * TargetSampleRate / 1000
  }

  /** `buffer[buffer.len() - n..]`: the last `n` samples. */
  function Tail(buffer: seq<int>, n: nat): (c: seq<int>)
    requires n <= |buffer|
    ensures |c| == n && buffer == buffer[..|buffer| - n] + c
  {
    buffer[|buffer| - n..]
  }

  /** The audio from sample `g` on: what the not-safe branch means to keep. */
  function GapCarryover(buffer: seq<int>, g: nat): (c: seq<int>)
    requires g <= |buffer|
    ensures |c| == |buffer| - g && buffer == buffer[..g] + c
    ensures forall i :: g <= i < |buffer| ==> c[i - g] == buffer[i]
  {
    buffer[g..]
  }

  /**
   * The not-safe branch as written: `buffer[buffer.len() - gap_start_sample..]`,
   * the last `g` samples, where `g` counts from the start of the buffer.
   */
  function UnsafeCarryoverAsWritten(buffer: seq<int>, meta: MetadataResult): (c: Option<seq<int>>)
    ensures c.Some? <==> GapStartSample(meta) <= |buffer|
    ensures c.Some? ==> |c.value| == GapStartSample(meta) && buffer == buffer[..|buffer| - |c.value|] + c.value
  {
    var g := GapStartSample(meta);
    if g <= |buffer| then Some(Tail(buffer, g)) else None
  }

  /**
   * Where the two differ. In a 60 ms buffer (960 samples) whose gap ends at
   * 40 ms (sample 640) the branch as written keeps samples 320 to 959, half
   * of them from before the gap end, and not the 320 samples the capacity
   * `buffer.len() - gap_start_sample` sizes; when the gap end is 0 it keeps
   * nothing at all, dropping the unfinished phrase, where the corrected
   * branch keeps the whole buffer.
   */
  lemma UnsafeCarryoverAsWrittenDiffers(config: Config)
    ensures var buffer := seq(960, i => i);
      var gapAt40 := MetadataResult(false, "", "", 0, 40);
      var noGap := MetadataResult(false, "", "", 0, 0);
      && UnsafeCarryoverAsWritten(buffer, gapAt40).value[0] == 320
      && |UnsafeCarryoverAsWritten(buffer, gapAt40).value| == 640
      && Carryover(buffer, gapAt40, config).value[0] == 640
      && |Carryover(buffer, gapAt40, config).value| == 320
      && UnsafeCarryoverAsWritten(buffer, noGap) == Some([])
      && Carryover(buffer, noGap, config) == Some(buffer)
  {
    var buffer := seq(960, i => i);
    assert buffer[..0] == [];
  }

  /** The audio carried into the next decode cycle; `None` where the slice underflows and the thread panics. */
  function Carryover(buffer: seq<int>, meta: MetadataResult, config: Config): (c: Option<seq<int>>)
    ensures meta.safeToRefresh ==> (c.Some? <==> config.carryoverBufferSize <= |buffer|)
    ensures !meta.safeToRefresh ==> (c.Some? <==> GapStartSample(meta) <= |buffer|)
    ensures c.Some? ==> |c.value| <= |buffer| && buffer == buffer[..|buffer| - |c.value|] + c.value
    ensures c.Some? && meta.safeToRefresh ==> |c.value| == config.carryoverBufferSize
    ensures c.Some? && !meta.safeToRefresh ==> |c.value| == |buffer| - GapStartSample(meta)
  {
    if meta.safeToRefresh then
      if config.carryoverBufferSize <= |buffer| then Some(Tail(buffer, config.carryoverBufferSize)) else None
    else
      var g := GapStartSample(meta);
      if g <= |buffer| then Some(GapCarryover(buffer, g)) else None
  }

  /**
   * A not-safe cycle with gap end 0 (no gap found, or a gap at timestep 1)
   * keeps all its audio; otherwise it drops exactly the audio before the gap end.
   */
  lemma UnsafeCarryoverKeepsPhrase(buffer: seq<int>, meta: MetadataResult, config: Config)
    requires !meta.safeToRefresh && GapStartSample(meta) <= |buffer|
    ensures meta.lastGapEndMs == 0 ==> Carryover(buffer, meta, config) == Some(buffer)
    ensures Carryover(buffer, meta, config) == Some(buffer[meta.lastGapEndMs * 16..])
  {
    var c := Carryover(buffer, meta, config).value;
    assert buffer[GapStartSample(meta)..] == c;
  }

  /** What one call to the refresh step did. */
  datatype RefreshOutcome =
    | Waiting
    | Refreshed(meta: MetadataResult, log: seq<Dispatch>)
    | CarryoverUnderflow(meta: MetadataResult, log: seq<Dispatch>)

  /** The dispatches of one decode cycle: commands run only when the phrase is complete. */
  function CycleLog(meta: MetadataResult, config: Config): seq<Dispatch> {
    if meta.safeToRefresh then Dispatches(meta, config.commands) else []
  }

  /**
   * The state of `process_audio_loop`: the sample buffer, the length of
   * the last carryover, the audio fed to the current decoder stream, and
   * the commands run so far. `panicked` records that an out-of-range
   * carryover slice ended the thread.
   */
  class Driver {
    const config: Config
    var buffer: seq<int>
    var lastCarryover: nat
    var fed: seq<int>
    var dispatched: seq<Dispatch>
    var panicked: bool

    /**
     * `buffer.len() - last_carryover` never underflows, and while the
     * thread runs the decoder stream holds exactly the buffered audio.
     */
    ghost predicate Valid()
      reads this
    {
      lastCarryover <= |buffer| && (!panicked ==> fed == buffer)
    }

    /** The loop's initial state: an empty buffer and a fresh stream. */
    constructor(config: Config)
      ensures Valid() && this.config == config
      ensures buffer == [] && lastCarryover == 0 && fed == [] && dispatched == [] && !panicked
    {
      this.config := config;
      buffer := [];
      lastCarryover := 0;
      fed := [];
      dispatched := [];
      panicked := false;
    }

    /**
     * `process_audio(.., casl_config.carryover_buffer_size)`: `incoming` is
     * what the sample channel yields before it disconnects. At most `max`
     * samples are appended, the old buffer is kept as a prefix, and the new
     * samples go to the stream. When more than `max` are available the
     * receive that ends the loop takes one more, which is lost.
     */
    method ProcessAudio(incoming: seq<int>) returns (consumed: nat)
      requires Valid() && !panicked
      modifies this
      ensures Valid() && !panicked
      ensures |old(buffer)| <= |buffer| <= |old(buffer)| + |incoming|
      ensures |buffer| - |old(buffer)| <= config.carryoverBufferSize
      ensures buffer == old(buffer) + incoming[..|buffer| - |old(buffer)|]
      ensures |incoming| > config.carryoverBufferSize ==>
        |buffer| == |old(buffer)| + config.carryoverBufferSize && consumed == config.carryoverBufferSize + 1
      ensures |incoming| <= config.carryoverBufferSize ==>
        buffer == old(buffer) + incoming && consumed == |incoming|
      ensures lastCarryover == old(lastCarryover) && dispatched == old(dispatched)
    {
      var max := config.carryoverBufferSize;
      var count := 0;
      var pos := 0;
      var ok := pos < |incoming|;
      var sample := 0;
      if ok {
        sample := incoming[pos];
        pos := pos + 1;
      }
      var start := |buffer|;
      while ok && count < max
        invariant count <= max && count <= |incoming|
        invariant |buffer| == start + count && buffer == old(buffer) + incoming[..count]
        invariant ok ==> pos == count + 1 && pos <= |incoming| && sample == incoming[count]
        invariant !ok ==> pos == count == |incoming|
        invariant lastCarryover == old(lastCarryover) && dispatched == old(dispatched)
        invariant fed == old(fed) && !panicked
        decreases max - count
      {
        assert incoming[..count + 1] == incoming[..count] + [sample];
        buffer := buffer + [sample];
        ok := pos < |incoming|;
        if ok {
          sample := incoming[pos];
          pos := pos + 1;
        }
        count := count + 1;
      }
      fed := fed + buffer[start..];
      assert buffer == old(buffer) + buffer[start..];
      consumed := pos;
      if |incoming| <= max {
        assert incoming[..count] == incoming;
      }
    }

    /**
     * One pass of `process_audio_loop` after the drain (lines 21-44): when
     * at least `refresh_buffer_threshold` samples arrived since the last
     * carryover, decode the stream into `tokens`, segment them over the
     * buffered length, and recycle. Otherwise nothing changes.
     */
    method Refresh(tokens: seq<Token>) returns (outcome: RefreshOutcome)
      requires Valid() && !panicked
      requires Ordered(tokens) && LastSound(tokens) * TimestepToMs <= LengthMs(buffer)
      modifies this
      ensures Valid()
      ensures outcome.Waiting? <==> |old(buffer)| - old(lastCarryover) < config.refreshBufferThreshold
      ensures outcome.Waiting? ==>
        && buffer == old(buffer) && lastCarryover == old(lastCarryover)
        && fed == old(fed) && dispatched == old(dispatched) && !panicked
      ensures !outcome.Waiting? ==>
        && outcome.meta == Segmented(tokens, LengthMs(old(buffer)), config)
        && outcome.log == CycleLog(outcome.meta, config)
        && dispatched == old(dispatched) + outcome.log
      ensures outcome.Refreshed? ==>
        && Carryover(old(buffer), outcome.meta, config) == Some(buffer)
        && lastCarryover == |buffer| && fed == buffer && !panicked
      ensures outcome.CarryoverUnderflow? ==>
        && Carryover(old(buffer), outcome.meta, config).None?
        && panicked && buffer == old(buffer) && lastCarryover == old(lastCarryover) && fed == []
    {
      if |buffer| - lastCarryover < config.refreshBufferThreshold {
        return Waiting;
      }
      var meta := ProcessMetadata(tokens, |buffer| / (TargetSampleRate / 1000), config);
      outcome := Recycle(meta);
    }

    /**
     * Lines 28-44 on a decoded `meta`: a fresh stream; if the phrase is
     * complete, run the commands and keep the last `carryover_buffer_size`
     * samples; otherwise run nothing and keep the audio from the gap end
     * on; then remember the carryover length and feed it to the stream.
     */
    method Recycle(meta: MetadataResult) returns (outcome: RefreshOutcome)
      requires Valid() && !panicked
      modifies this
      ensures Valid()
      ensures !outcome.Waiting? && outcome.meta == meta && outcome.log == CycleLog(meta, config)
      ensures dispatched == old(dispatched) + outcome.log
      ensures outcome.Refreshed? <==> Carryover(old(buffer), meta, config).Some?
      ensures outcome.Refreshed? ==>
        && buffer == Carryover(old(buffer), meta, config).value
        && lastCarryover == |buffer| && fed == buffer && !panicked
      ensures outcome.CarryoverUnderflow? ==>
        && panicked && buffer == old(buffer) && lastCarryover == old(lastCarryover) && fed == []
    {
      fed := [];
      var log := [];
      var carryover: seq<int>;
      if meta.safeToRefresh {
        log := ProcessCommands(meta, config);
        dispatched := dispatched + log;
        if |buffer| < config.carryoverBufferSize {
          panicked := true;
          return CarryoverUnderflow(meta, log);
        }
        carryover := buffer[|buffer| - config.carryoverBufferSize..];
      } else {
        var gapStartSample := meta.lastGapEndMs * TargetSampleRate / 1000;
        if |buffer| < gapStartSample {
          panicked := true;
          return CarryoverUnderflow(meta, log);
        }
        carryover := buffer[gapStartSample..];
      }
      buffer := carryover;
      lastCarryover := |buffer|;
      fed := fed + buffer;
      outcome := Refreshed(meta, log);
    }
  }
}
