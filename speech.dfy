/**
 * The segmentation engine: one scan over the tokens of a decode cycle decides
 * where the current phrase began (after the last long enough silence), when
 * sound was last heard, and whether the buffer ends in enough silence to
 * reset the decoder. Timesteps are in units of 20 ms.
 */
module Speech {
  import opened Wrappers
  import opened Strings
  import opened Config
  import opened Preprocessor

  const TimestepToMs: nat := 20

  /** One decoded token: its text and the timestep at which it was heard. */
  datatype Token = Token(text: string, timestep: nat)

  /** `MetadataResult`: the outcome of one decode cycle. */
  datatype MetadataResult = MetadataResult(
    safeToRefresh: bool,
    phraseRaw: string,
    phrase: string,
    lastGapStartMs: nat,
    lastGapEndMs: nat)

  /** A token carries sound when its text is not all whitespace. */
  predicate Sounds(t: Token) {
    !IsBlank(t.text)
  }

  /** `last_sound` after scanning `tokens`: the latest timestep of a sounding token, 0 if none. */
  function LastSound(tokens: seq<Token>): nat {
    if tokens == [] then 0
    else
      var prev := LastSound(tokens[..|tokens| - 1]);
      var t := tokens[|tokens| - 1];
      if t.timestep > prev && Sounds(t) then t.timestep else prev
  }

  /**
   * `last_sound` is the largest timestep of a token that is not all
   * whitespace: no sounding token is later, and it is 0 or the timestep of
   * one of them.
   */
  lemma {:induction false} LastSoundIsLatestSound(tokens: seq<Token>)
    ensures forall i :: 0 <= i < |tokens| && Sounds(tokens[i]) ==> tokens[i].timestep <= LastSound(tokens)
    ensures LastSound(tokens) == 0
         || exists i :: 0 <= i < |tokens| && Sounds(tokens[i]) && tokens[i].timestep == LastSound(tokens)
  {
    if tokens != [] {
      var init := tokens[..|tokens| - 1];
      LastSoundIsLatestSound(init);
      assert forall i :: 0 <= i < |init| ==> init[i] == tokens[i];
      if LastSound(tokens) != 0 && LastSound(tokens) == LastSound(init) {
        var i :| 0 <= i < |init| && Sounds(init[i]) && init[i].timestep == LastSound(init);
        assert tokens[i] == init[i];
      }
    }
  }

  /** `last_sound` never decreases as the scan goes on. */
  lemma {:induction false} LastSoundMonotone(tokens: seq<Token>, n: nat, m: nat)
    requires n <= m <= |tokens|
    ensures LastSound(tokens[..n]) <= LastSound(tokens[..m])
    decreases m - n
  {
    if n < m {
      LastSoundMonotone(tokens, n, m - 1);
      assert tokens[..m][..m - 1] == tokens[..m - 1];
    }
  }

  /**
   * The decoder never reports a token earlier than an earlier sounding token,
   * so the unsigned `timestep - last_sound` does not underflow.
   */
  predicate Ordered(tokens: seq<Token>) {
    forall j, i :: 0 <= j < i < |tokens| && Sounds(tokens[j]) ==> tokens[j].timestep <= tokens[i].timestep
  }

  /** Token `i` resets the phrase: the silence since the last sound before it exceeds the threshold. */
  predicate Resets(tokens: seq<Token>, gapMs: nat, i: nat)
    requires i < |tokens|
  {
    (tokens[i].timestep - LastSound(tokens[..i])) * TimestepToMs > gapMs
  }

  /** The last token that resets the phrase, if any. */
  function LastReset(tokens: seq<Token>, gapMs: nat): (r: Option<nat>)
    ensures r.Some? ==> r.value < |tokens| && Resets(tokens, gapMs, r.value)
    ensures r.Some? ==> forall j :: r.value < j < |tokens| ==> !Resets(tokens, gapMs, j)
    ensures r.None? ==> forall j :: 0 <= j < |tokens| ==> !Resets(tokens, gapMs, j)
  {
    if tokens == [] then None
    else if Resets(tokens, gapMs, |tokens| - 1) then Some(|tokens| - 1)
    else
      var init := tokens[..|tokens| - 1];
      assert forall j :: 0 <= j < |init| ==> init[..j] == tokens[..j] && init[j] == tokens[j];
      assert forall j :: 0 <= j < |init| ==> (Resets(init, gapMs, j) <==> Resets(tokens, gapMs, j));
      LastReset(init, gapMs)
  }

  /** Where the current phrase starts: at the last resetting token, or at the first token. */
  function PhraseStart(tokens: seq<Token>, gapMs: nat): (s: nat)
    ensures s <= |tokens|
  {
    match LastReset(tokens, gapMs)
    case None => 0
    case Some(i) => i
  }

  /** The texts of `tokens`, concatenated. */
  function TextOf(tokens: seq<Token>): string {
    if tokens == [] then "" else TextOf(tokens[..|tokens| - 1]) + tokens[|tokens| - 1].text
  }

  /** `last_gap` after the scan: the timestep of the last resetting token, 0 if none. */
  function LastGap(tokens: seq<Token>, gapMs: nat): nat {
    match LastReset(tokens, gapMs)
    case None => 0
    case Some(i) => tokens[i].timestep
  }

  /** `last_gap_end_ms`: the gap, moved back one timestep, in milliseconds; 0 when there was none. */
  function GapEndMs(tokens: seq<Token>, gapMs: nat): nat {
    var g := LastGap(tokens, gapMs);
    if g != 0 then (g - 1) * TimestepToMs else 0
  }

  /** What `process_metadata` computes, field by field. */
  function Segmented(tokens: seq<Token>, lengthMs: nat, config: Config): MetadataResult {
    var raw := TextOf(tokens[PhraseStart(tokens, config.gapDetectionMs)..]);
    MetadataResult(
      lengthMs - LastSound(tokens) * TimestepToMs > config.gapDetectionMs,
      raw,
      Chain(config.preprocessors, raw),
      (LastSound(tokens) + 1) * TimestepToMs,
      GapEndMs(tokens, config.gapDetectionMs))
  }

  /** A token that is not all whitespace is never earlier than the last sound before it. */
  lemma LastSoundNotAfter(tokens: seq<Token>, i: nat)
    requires Ordered(tokens) && i < |tokens|
    ensures LastSound(tokens[..i]) <= tokens[i].timestep
  {
    LastSoundIsLatestSound(tokens[..i]);
    if LastSound(tokens[..i]) != 0 {
      var j :| 0 <= j < i && Sounds(tokens[..i][j]) && tokens[..i][j].timestep == LastSound(tokens[..i]);
      assert tokens[..i][j] == tokens[j];
    }
  }

  /** One step of the scan: how `last_sound`, the phrase start, `last_gap` and the text move on by one token. */
  lemma ScanStep(tokens: seq<Token>, gapMs: nat, i: nat)
    requires i < |tokens|
    ensures var t := tokens[i];
      var prev := LastSound(tokens[..i]);
      && LastSound(tokens[..i + 1]) == (if t.timestep > prev && Sounds(t) then t.timestep else prev)
      && PhraseStart(tokens[..i], gapMs) <= i
      && ((t.timestep - prev) * TimestepToMs > gapMs ==>
            PhraseStart(tokens[..i + 1], gapMs) == i && LastGap(tokens[..i + 1], gapMs) == t.timestep)
      && (!((t.timestep - prev) * TimestepToMs > gapMs) ==>
            PhraseStart(tokens[..i + 1], gapMs) == PhraseStart(tokens[..i], gapMs)
            && LastGap(tokens[..i + 1], gapMs) == LastGap(tokens[..i], gapMs))
  {
    var pre := tokens[..i + 1];
    assert pre[..i] == tokens[..i] && pre[i] == tokens[i];
    assert pre[..|pre| - 1] == tokens[..i];
  }

  /** Appending a token to a stretch of the scan appends its text. */
  lemma TextOfExtend(tokens: seq<Token>, s: nat, i: nat)
    requires s <= i < |tokens|
    ensures TextOf(tokens[s..i + 1]) == TextOf(tokens[s..i]) + tokens[i].text
  {
    assert tokens[s..i + 1][..i - s] == tokens[s..i];
  }

  /** The loop body of the scan carries its three variables from `tokens[..i]` to `tokens[..i + 1]`. */
  lemma ScanAdvance(tokens: seq<Token>, gapMs: nat, i: nat, text: string, lastSound: nat, lastGap: nat)
    requires Ordered(tokens) && i < |tokens|
    requires lastSound == LastSound(tokens[..i])
    requires lastGap == LastGap(tokens[..i], gapMs)
    requires text == TextOf(tokens[PhraseStart(tokens[..i], gapMs)..i])
    ensures var t := tokens[i];
      var resets := (t.timestep - lastSound) * TimestepToMs > gapMs;
      && (if resets then "" else text) + t.text == TextOf(tokens[PhraseStart(tokens[..i + 1], gapMs)..i + 1])
      && (if resets then t.timestep else lastGap) == LastGap(tokens[..i + 1], gapMs)
      && (if t.timestep > lastSound && Sounds(t) then t.timestep else lastSound) == LastSound(tokens[..i + 1])
  {
    LastSoundNotAfter(tokens, i);
    ScanStep(tokens, gapMs, i);
    var start := PhraseStart(tokens[..i + 1], gapMs);
    TextOfExtend(tokens, start, i);
    if (tokens[i].timestep - lastSound) * TimestepToMs > gapMs {
      assert start == i && tokens[start..i] == [];
    }
  }

  /**
   * The token loop of `process_metadata`: accumulates the text, clearing it
   * at every token preceded by more silence than the threshold, and tracks
   * `last_sound` and `last_gap`.
   */
  method Scan(tokens: seq<Token>, gapMs: nat) returns (text: string, lastSound: nat, lastGap: nat)
    requires Ordered(tokens)
    ensures text == TextOf(tokens[PhraseStart(tokens, gapMs)..])
    ensures lastSound == LastSound(tokens)
    ensures lastGap == LastGap(tokens, gapMs)
  {
    text, lastSound, lastGap := "", 0, 0;
    var i := 0;
    while i < |tokens|
      invariant 0 <= i <= |tokens|
      invariant lastSound == LastSound(tokens[..i])
      invariant lastGap == LastGap(tokens[..i], gapMs)
      invariant text == TextOf(tokens[PhraseStart(tokens[..i], gapMs)..i])
    {
      var token := tokens[i];
      ScanAdvance(tokens, gapMs, i, text, lastSound, lastGap);
      if (token.timestep - lastSound) * TimestepToMs > gapMs {
        text := "";
        lastGap := token.timestep;
      }
      text := text + token.text;
      if token.timestep > lastSound && !IsBlank(token.text) {
        lastSound := token.timestep;
      }
      i := i + 1;
    }
    assert tokens[..|tokens|] == tokens;
  }

  /** The preprocessor loop of `process_metadata`: each preprocessor rewrites the previous one's output. */
  method Preprocess(pres: seq<PreprocessorConfig>, text: string) returns (processed: string)
    ensures processed == Chain(pres, text)
  {
    processed := text;
    for k := 0 to |pres|
      invariant processed == Chain(pres[..k], text)
    {
      assert pres[..k + 1][..k] == pres[..k];
      processed := Process(PreprocessorOf(pres[k]), processed);
    }
    assert pres[..|pres|] == pres;
  }

  /**
   * `process_metadata`: the scan, the end-of-buffer silence test, the
   * preprocessing chain and the one-timestep backoff of the gap.
   */
  method ProcessMetadata(tokens: seq<Token>, lengthMs: nat, config: Config) returns (r: MetadataResult)
    requires Ordered(tokens)
    requires LastSound(tokens) * TimestepToMs <= lengthMs
    ensures r == Segmented(tokens, lengthMs, config)
  {
    var text, lastSound, lastGap := Scan(tokens, config.gapDetectionMs);
    var endsWithGap := lengthMs - lastSound * TimestepToMs > config.gapDetectionMs;
    var processed := Preprocess(config.preprocessors, text);
    if lastGap != 0 {
      lastGap := lastGap - 1;
    }
    r := MetadataResult(endsWithGap, text, processed, (lastSound + 1) * TimestepToMs, lastGap * TimestepToMs);
  }

  /**
   * The phrase starts at the last token preceded by more silence than the
   * threshold: that token resets, none after it does, and when none resets
   * the phrase is the text of every token.
   */
  lemma PhraseFollowsLastGap(tokens: seq<Token>, gapMs: nat)
    ensures var s := PhraseStart(tokens, gapMs);
      && (forall j :: s < j < |tokens| ==> !Resets(tokens, gapMs, j))
      && (s > 0 ==> Resets(tokens, gapMs, s))
      && ((forall j :: 0 <= j < |tokens| ==> !Resets(tokens, gapMs, j)) ==> s == 0)
  {
  }

  /**
   * The gap boundary: a resetting token always lies at timestep 1 or later,
   * so `last_gap != 0` holds exactly when a gap was found, and then the end
   * of the gap is one timestep before that token.
   */
  lemma GapEndBackoff(tokens: seq<Token>, gapMs: nat)
    ensures LastReset(tokens, gapMs).None? ==> GapEndMs(tokens, gapMs) == 0
    ensures LastReset(tokens, gapMs).Some? ==>
      var t := tokens[LastReset(tokens, gapMs).value].timestep;
      t >= 1 && GapEndMs(tokens, gapMs) == (t - 1) * TimestepToMs
  {
  }

  /**
   * `last_gap_end_ms` is 0 exactly when no token resets or the last one
   * that does sits at timestep 1: the backoff then reaches timestep 0.
   */
  lemma GapEndZero(tokens: seq<Token>, gapMs: nat)
    ensures GapEndMs(tokens, gapMs) == 0
        <==> LastReset(tokens, gapMs).None? || tokens[LastReset(tokens, gapMs).value].timestep == 1
  {
    GapEndBackoff(tokens, gapMs);
  }

  /** With a threshold under one timestep, a first token at timestep 1 resets, yet the gap end is 0 ms. */
  lemma GapAtFirstTimestep()
    ensures LastReset([Token("a", 1)], 10) == Some(0)
    ensures GapEndMs([Token("a", 1)], 10) == 0
  {
    assert [Token("a", 1)][..0] == [];
    assert Resets([Token("a", 1)], 10, 0);
  }

  /**
   * Safe to refresh exactly when the buffer ends in more silence than the
   * threshold; the start of that silence is one timestep after the last sound.
   */
  lemma RefreshWhenSilent(tokens: seq<Token>, lengthMs: nat, config: Config)
    ensures Segmented(tokens, lengthMs, config).safeToRefresh
        <==> lengthMs - TimestepToMs * LastSound(tokens) > config.gapDetectionMs
    ensures Segmented(tokens, lengthMs, config).lastGapStartMs == TimestepToMs * (LastSound(tokens) + 1)
    ensures config.preprocessors == [] ==>
      Segmented(tokens, lengthMs, config).phrase == Segmented(tokens, lengthMs, config).phraseRaw
  {
  }

  /**
   * With a 500 ms threshold, "hi " at timesteps 0 to 2 and "yo" at 40 and
   * 41: the silence before timestep 40 is 780 ms, so only "yo" is kept, and
   * a 3000 ms buffer ends in 3000 - 820 = 2180 ms of silence.
   */
  lemma GapExample(config: Config)
    requires config.gapDetectionMs == 500 && config.preprocessors == []
    ensures var r := Segmented([Token("h", 0), Token("i", 1), Token(" ", 2), Token("y", 40), Token("o", 41)], 3000, config);
      r.phraseRaw == "yo" && r.phrase == "yo" && r.safeToRefresh && r.lastGapEndMs == 780
  {
    GapExampleScan();
  }

  /** The scan of the example tokens: last sound at 41, the phrase restarting at "y" (timestep 40). */
  lemma GapExampleScan()
    ensures var ts := [Token("h", 0), Token("i", 1), Token(" ", 2), Token("y", 40), Token("o", 41)];
      && LastSound(ts) == 41 && LastReset(ts, 500) == Some(3)
      && PhraseStart(ts, 500) == 3 && TextOf(ts[3..]) == "yo" && GapEndMs(ts, 500) == 780
  {
    var ts := [Token("h", 0), Token("i", 1), Token(" ", 2), Token("y", 40), Token("o", 41)];
    ExampleSounds();
    assert ts[..3] == [Token("h", 0), Token("i", 1), Token(" ", 2)];
    assert ts[..4] == [Token("h", 0), Token("i", 1), Token(" ", 2), Token("y", 40)];
    assert !Resets(ts, 500, 4);
    assert Resets(ts, 500, 3);
    assert LastReset(ts, 500) == Some(3);
    ExampleText();
  }

  /** `last_sound` over the prefixes of the example tokens: 1 after "h", "i", " "; then 40; then 41. */
  lemma ExampleSounds()
    ensures LastSound([Token("h", 0), Token("i", 1), Token(" ", 2)]) == 1
    ensures LastSound([Token("h", 0), Token("i", 1), Token(" ", 2), Token("y", 40)]) == 40
    ensures LastSound([Token("h", 0), Token("i", 1), Token(" ", 2), Token("y", 40), Token("o", 41)]) == 41
  {
    ExampleSoundsUpToBlank();
    var pre, y, o := [Token("h", 0), Token("i", 1), Token(" ", 2)], Token("y", 40), Token("o", 41);
    assert Sounds(y) && Sounds(o) by {
      assert !IsWhitespace("y"[0]) && !IsWhitespace("o"[0]);
    }
    LastSoundSnoc(pre, y);
    assert pre + [y] == [Token("h", 0), Token("i", 1), Token(" ", 2), Token("y", 40)];
    LastSoundSnoc(pre + [y], o);
    assert pre + [y] + [o] == [Token("h", 0), Token("i", 1), Token(" ", 2), Token("y", 40), Token("o", 41)];
  }

  /** The blank token at timestep 2 leaves `last_sound` at 1. */
  lemma ExampleSoundsUpToBlank()
    ensures LastSound([Token("h", 0), Token("i", 1), Token(" ", 2)]) == 1
  {
    var h, i, sp := Token("h", 0), Token("i", 1), Token(" ", 2);
    assert Sounds(h) && Sounds(i) && !Sounds(sp) by {
      assert !IsWhitespace("h"[0]) && !IsWhitespace("i"[0]) && IsBlank(" ");
    }
    LastSoundSnoc([], h);
    assert [] + [h] == [h];
    LastSoundSnoc([h], i);
    assert [h] + [i] == [h, i];
    LastSoundSnoc([h, i], sp);
    assert [h, i] + [sp] == [h, i, sp];
  }

  /** The text of the example's last two tokens. */
  lemma ExampleText()
    ensures TextOf([Token("h", 0), Token("i", 1), Token(" ", 2), Token("y", 40), Token("o", 41)][3..]) == "yo"
  {
    var ts := [Token("h", 0), Token("i", 1), Token(" ", 2), Token("y", 40), Token("o", 41)];
    assert ts[3..] == [Token("y", 40), Token("o", 41)];
    assert [Token("y", 40), Token("o", 41)][..1] == [Token("y", 40)];
    assert TextOf([Token("y", 40)]) == "y";
  }

  /** `last_sound` after one more token. */
  lemma LastSoundSnoc(tokens: seq<Token>, t: Token)
    ensures LastSound(tokens + [t]) == if t.timestep > LastSound(tokens) && Sounds(t) then t.timestep else LastSound(tokens)
  {
    assert (tokens + [t])[..|tokens|] == tokens;
  }
}
