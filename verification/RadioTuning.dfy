/** The frequency the chip is told, and over whole runs when it is the one the driver caches. */
module RadioTuning {
  import opened RadioTypes
  import opened Wrappers
  import opened Radio
  import opened RadioInit
  import opened RadioRuns
  import opened RadioShared

  /** The command that calibrates the image, if the band of the cached frequency is left. */
  function Recalibrated(c: Ctx, freq: nat): seq<(Cmd, bool)> {
    if FreqBand(c.radioFreqHz) == FreqBand(freq) || FreqBand(freq).None? then [] else [(CalibrateImage(FreqBand(freq).value), true)]
  }

  /** Tuning is asked of a radio in standby, for a band it knows. */
  predicate Tunable(c: Ctx, freq: nat) {
    c.radioState == Standby && FreqBand(freq).Some?
  }

  /** The chip answers well to the commands of a tuning, of which there are two if the band changes. */
  predicate TuningAnswers(c: Ctx, env: Env, freq: nat) {
    env(c.drawn) && (FreqBand(c.radioFreqHz) != FreqBand(freq) ==> env(c.drawn + 1))
  }

  /** The tuning command itself is sent and fails. */
  predicate TuningFails(c: Ctx, env: Env, freq: nat) {
    if FreqBand(c.radioFreqHz) == FreqBand(freq) then !env(c.drawn) else env(c.drawn) && !env(c.drawn + 1)
  }

  /** When a frequency is accepted, what the chip is then told, and what a refusal says. */
  lemma FrequencySent(c: Ctx, env: Env, freq: nat)
    requires c.radioState != Scan
    ensures
      var (r, err) := SetFrequency(c, env, freq);
      && (err == NoError <==> Tunable(c, freq) && TuningAnswers(c, env, freq))
      && (err == NoError ==>
          r == c.(radioFreqHz := freq, drawn := c.drawn + |Recalibrated(c, freq)| + 1,
                  trace := c.trace + Recalibrated(c, freq) + [(SetRfFreq(freq), true)]))
      && (err == InvalidState <==> c.radioState != Standby)
      && (err == InvalidParams <==> c.radioState == Standby && FreqBand(freq).None?)
      && (err == HardwareError <==> Tunable(c, freq) && !TuningAnswers(c, env, freq))
  {
    hide Observe, FreqBand;
    assert c.trace + [] == c.trace;
  }

  // ------------------------------------------------------------- cache and chip

  /** A tuned driver caches the frequency the chip has. */
  predicate Tuned(c: Ctx) {
    c.radioFreqHz != 0 ==> Observe(c.trace).tuned == Some(c.radioFreqHz)
  }

  /** The call tells the chip a frequency, and the driver caches it. */
  predicate Tunes(c: Ctx, env: Env, call: Call) {
    && (call.FrequencyCall? || call.WaveCall?)
    && Tunable(c, call.freq) && TuningAnswers(c, env, call.freq)
  }

  /** A tuned radio fails to tune, or is reset: the cached frequency stays. */
  predicate Detunes(c: Ctx, env: Env, call: Call) {
    && c.radioFreqHz != 0
    && (call.FrequencyCall? || call.WaveCall? ==> Tunable(c, call.freq) && TuningFails(c, env, call.freq))
    && (call.FrequencyCall? || call.WaveCall? || (call.InitCall? && call.valid && ResetsChip(env, c.drawn)))
  }

  lemma FrequencyStep(c: Ctx, env: Env, freq: nat)
    ensures
      var r := SetFrequency(c, env, freq).0;
      Tuned(r) <==> Tunes(c, env, FrequencyCall(freq)) || (Tuned(c) && !Detunes(c, env, FrequencyCall(freq)))
  {
    hide Observe, FreqBand;
    assert FreqBand(0) == None by { NoBandAtZero(); }
  }

  lemma NoBandAtZero()
    ensures FreqBand(0) == None
  {
  }

  lemma WaveStep(c: Ctx, env: Env, freq: nat, cfg: int)
    ensures
      var r := TxContinuousWave(c, env, freq, cfg).0;
      Tuned(r) <==> Tunes(c, env, WaveCall(freq, cfg)) || (Tuned(c) && !Detunes(c, env, WaveCall(freq, cfg)))
  {
    hide SetFrequency, Carrier, Observe, FreqBand, Tunable, TuningAnswers, TuningFails;
    FrequencyStep(c, env, freq);
  }

  lemma InitStep(c: Ctx, env: Env, call: Call)
    requires call.InitCall?
    ensures Tuned(Apply(c, env, call)) <==> Tuned(c) && !Detunes(c, env, call)
  {
    hide Init, ResetsChip, Observe;
    InitImage(c, env, call.valid, call.config, call.cfg);
  }

  /** After any call cache and chip are in step exactly if it tuned the chip, or they were and it did not part them. */
  lemma Step(c: Ctx, env: Env, call: Call)
    ensures Tuned(Apply(c, env, call)) <==> Tunes(c, env, call) || (Tuned(c) && !Detunes(c, env, call))
  {
    hide IrqProcess, Init, HoldScan, Perform, SetModemMode, SetFrequency, TxContinuousWave, Observe;
    match call
    case InitCall(_, _, _) => InitStep(c, env, call);
    case FrequencyCall(freq) => FrequencyStep(c, env, freq);
    case WaveCall(freq, cfg) => WaveStep(c, env, freq, cfg);
    case ReleaseCall => if c.radioState == Scan { ReleasePutsBack(c, env); }
    case _ =>
  }

  // ------------------------------------------------------------------- whole runs

  predicate MoveTunes(c: Ctx, env: Env, m: Move) {
    match m
    case Own(call) => Tunes(c, env, call)
    case Foreign(cmd) => c.radioState == Scan && env(c.drawn) && cmd == SetRfFreq(c.radioFreqHz)
  }

  /** The location modem, in a scan, tunes the chip elsewhere, fails to tune it or resets it. */
  predicate MoveDetunes(c: Ctx, env: Env, m: Move) {
    match m
    case Own(call) => Detunes(c, env, call)
    case Foreign(cmd) =>
      && c.radioState == Scan && c.radioFreqHz != 0
      && (cmd.SetRfFreq? || (cmd.Reset? && env(c.drawn))) && !MoveTunes(c, env, m)
  }

  lemma MoveStep(c: Ctx, env: Env, m: Move)
    ensures Tuned(Make(c, env, m)) <==> MoveTunes(c, env, m) || (Tuned(c) && !MoveDetunes(c, env, m))
  {
    hide Apply, Tunes, Detunes, Observe;
    match m
    case Own(call) => Step(c, env, call);
    case Foreign(cmd) =>
  }

  predicate TunesAt(c: Ctx, env: Env, ms: seq<Move>, k: nat)
    requires k < |ms|
  {
    MoveTunes(SharedRun(c, env, ms[..k]), env, ms[k])
  }

  predicate DetunesAt(c: Ctx, env: Env, ms: seq<Move>, k: nat)
    requires k < |ms|
  {
    MoveDetunes(SharedRun(c, env, ms[..k]), env, ms[k])
  }

  /** From move `k` on nothing parts cache and chip. */
  predicate KeptFrom(c: Ctx, env: Env, ms: seq<Move>, k: nat) {
    forall j: nat :: k <= j < |ms| ==> !DetunesAt(c, env, ms, j)
  }

  /** The run tunes the chip, and parts it from the cache at no later move; or it does so at no move at all. */
  predicate KeptInStep(c: Ctx, env: Env, ms: seq<Move>) {
    || (Tuned(c) && KeptFrom(c, env, ms, 0))
    || exists k: nat :: k < |ms| && TunesAt(c, env, ms, k) && KeptFrom(c, env, ms, k + 1)
  }

  lemma KeptShorter(c: Ctx, env: Env, ms: seq<Move>, n: nat, k: nat)
    requires |ms| == n + 1 && k <= n
    ensures KeptFrom(c, env, ms, k) <==> KeptFrom(c, env, ms[..n], k) && !DetunesAt(c, env, ms, n)
  {
    hide SharedRun, MoveDetunes;
    forall j: nat | j < n ensures DetunesAt(c, env, ms[..n], j) == DetunesAt(c, env, ms, j) {
      assert ms[..n][..j] == ms[..j];
    }
  }

  lemma KeptInStepShorter(c: Ctx, env: Env, ms: seq<Move>, n: nat)
    requires |ms| == n + 1
    ensures KeptInStep(c, env, ms) <==> TunesAt(c, env, ms, n) || (KeptInStep(c, env, ms[..n]) && !DetunesAt(c, env, ms, n))
  {
    hide MoveTunes, MoveDetunes, KeptFrom, Tuned, SharedRun;
    KeptShorter(c, env, ms, n, 0);
    assert KeptFrom(c, env, ms, n + 1) by { NothingLeft(c, env, ms); }
    forall k: nat | k < n
      ensures TunesAt(c, env, ms[..n], k) == TunesAt(c, env, ms, k)
      ensures KeptFrom(c, env, ms, k + 1) <==> KeptFrom(c, env, ms[..n], k + 1) && !DetunesAt(c, env, ms, n)
    {
      assert ms[..n][..k] == ms[..k];
      KeptShorter(c, env, ms, n, k + 1);
    }
    if TunesAt(c, env, ms, n) { assert KeptInStep(c, env, ms); }
    if KeptInStep(c, env, ms[..n]) && !DetunesAt(c, env, ms, n) && !(Tuned(c) && KeptFrom(c, env, ms[..n], 0)) {
      var k: nat :| k < n && TunesAt(c, env, ms[..n], k) && KeptFrom(c, env, ms[..n], k + 1);
      assert TunesAt(c, env, ms, k) && KeptFrom(c, env, ms, k + 1);
    }
    if KeptInStep(c, env, ms) && !TunesAt(c, env, ms, n) && !(Tuned(c) && KeptFrom(c, env, ms, 0)) {
      var k: nat :| k < |ms| && TunesAt(c, env, ms, k) && KeptFrom(c, env, ms, k + 1);
      assert k < n;
      assert TunesAt(c, env, ms[..n], k) && KeptFrom(c, env, ms[..n], k + 1);
    }
  }

  lemma NothingLeft(c: Ctx, env: Env, ms: seq<Move>)
    ensures KeptFrom(c, env, ms, |ms|)
  {
  }

  /** After any run of calls and commands of the location modem the cached frequency of a tuned radio is the
      chip's if and only if, since the last tuning that succeeded, none has failed, the chip has not been reset,
      and the location modem has not tuned it elsewhere. */
  lemma {:induction false} TunedInRunExactly(c: Ctx, env: Env, ms: seq<Move>)
    ensures Tuned(SharedRun(c, env, ms)) <==> KeptInStep(c, env, ms)
    decreases |ms|
  {
    hide Make, MoveTunes, MoveDetunes, Tuned, KeptFrom;
    if ms == [] {
      NothingLeft(c, env, ms);
    } else {
      var n := |ms| - 1;
      TunedInRunExactly(c, env, ms[..n]);
      KeptInStepShorter(c, env, ms, n);
      MoveStep(SharedRun(c, env, ms[..n]), env, ms[n]);
    }
  }

  /** A frequency the location modem sets in a scan outlasts the release, which puts packet type and interrupt
      mask back and no frequency. */
  lemma ForeignTuningStays(c: Ctx, env: Env, freq: nat)
    requires c.radioState == Scan && c.radioFreqHz != 0 && env(c.drawn)
    ensures
      var r := ReleaseScan(Make(c, env, Foreign(SetRfFreq(freq))), env);
      r.radioFreqHz == c.radioFreqHz && Observe(r.trace).tuned == Some(freq)
  {
    hide Observe, ReleaseScan;
    ReleasePutsBack(Make(c, env, Foreign(SetRfFreq(freq))), env);
  }
}
