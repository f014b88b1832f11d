/** The cached frequency stands for the image calibration of the chip: when the two agree over a run. */
module RadioCalibration {
  import opened Wrappers
  import opened Radio
  import opened RadioInit
  import opened RadioRuns
  import opened RadioShared

  lemma OneBand(freq: nat, i: nat, j: nat)
    requires InBand(freq, i) && InBand(freq, j)
    ensures i == j && freq != 0
  {
  }

  /** The frequencies that can be tuned to, in units of one megahertz. */
  lemma BandsInMegahertz(freq: nat)
    ensures
      var mhz := 1000000;
      FreqBand(freq).Some? <==>
        || 430 * mhz <= freq <= 440 * mhz || 470 * mhz <= freq <= 510 * mhz || 779 * mhz <= freq <= 787 * mhz
        || 863 * mhz <= freq <= 879 * mhz || 902 * mhz <= freq <= 928 * mhz || 2400 * mhz <= freq <= 2480 * mhz
  {
  }

  /** The bands the image is good for after the chip has started and after the general calibration of init;
      nothing in the driver says which these are. */
  datatype Coverage = Coverage(startup: set<nat>, general: set<nat>)
  {
    predicate Covers(image: Image, band: nat) {
      match image
      case Uncalibrated => false
      case Startup => band in startup
      case General => band in general
      case Band(b) => b == band
    }
  }

  const NOTHING := Coverage({}, {})

  /** A tuned radio has an image calibration that is good for the band it is tuned to. */
  predicate Agrees(c: Ctx, cov: Coverage) {
    c.radioFreqHz != 0 ==> FreqBand(c.radioFreqHz).Some? && cov.Covers(Observe(c.trace).calibrated, FreqBand(c.radioFreqHz).value)
  }

  /** A new band is calibrated and then cannot be tuned to. */
  predicate StrandsTuning(c: Ctx, env: Env, freq: nat) {
    && c.radioState == Standby && c.radioFreqHz != 0
    && FreqBand(freq).Some? && FreqBand(freq) != FreqBand(c.radioFreqHz)
    && env(c.drawn) && !env(c.drawn + 1)
  }

  /** A tuned radio is reset, and what init then calibrates, if anything, does not cover the band: init does not
      forget the frequency. */
  predicate StrandsReset(c: Ctx, env: Env, call: Call, cov: Coverage) {
    && call.InitCall? && call.valid && c.radioFreqHz != 0 && FreqBand(c.radioFreqHz).Some? && ResetsChip(env, c.drawn)
    && FreqBand(c.radioFreqHz).value !in if CalibratesAll(env, c.drawn + 3, call.config) then cov.general else cov.startup
  }

  predicate Strands(c: Ctx, env: Env, call: Call, cov: Coverage) {
    || ((call.FrequencyCall? || call.WaveCall?) && StrandsTuning(c, env, call.freq))
    || StrandsReset(c, env, call, cov)
  }

  lemma TuningStep(c: Ctx, env: Env, freq: nat, cov: Coverage)
    requires Agrees(c, cov)
    ensures
      var r := SetFrequency(c, env, freq).0;
      && (Agrees(r, cov) <==> !StrandsTuning(c, env, freq))
      && (Observe(r.trace).faultless ==> !StrandsTuning(c, env, freq))
  {
    hide Observe;
  }

  lemma WaveStep(c: Ctx, env: Env, freq: nat, cfg: int, cov: Coverage)
    requires Agrees(c, cov)
    ensures
      var r := TxContinuousWave(c, env, freq, cfg).0;
      && (Agrees(r, cov) <==> !StrandsTuning(c, env, freq))
      && (Observe(r.trace).faultless ==> !StrandsTuning(c, env, freq))
  {
    hide SetFrequency, Carrier, Observe;
    TuningStep(c, env, freq, cov);
  }

  lemma InitStep(c: Ctx, env: Env, call: Call, cov: Coverage)
    requires Agrees(c, cov) && call.InitCall?
    ensures Agrees(Apply(c, env, call), cov) <==> !Strands(c, env, call, cov)
  {
    hide Init, ResetsChip, CalibratesAll, Observe;
    InitImage(c, env, call.valid, call.config, call.cfg);
  }

  /** Every call keeps the agreement except the two kinds named, and those always break it. */
  lemma Step(c: Ctx, env: Env, call: Call, cov: Coverage)
    requires Agrees(c, cov)
    ensures Agrees(Apply(c, env, call), cov) <==> !Strands(c, env, call, cov)
    ensures Observe(Apply(c, env, call).trace).faultless && Strands(c, env, call, cov) ==> call.InitCall?
  {
    hide IrqProcess, Init, HoldScan, Perform, SetModemMode, SetFrequency, TxContinuousWave, Observe;
    match call
    case InitCall(_, _, _) => InitStep(c, env, call, cov);
    case FrequencyCall(freq) => TuningStep(c, env, freq, cov);
    case WaveCall(freq, cfg) => WaveStep(c, env, freq, cfg, cov);
    case _ =>
  }

  // --------------------------------------------------------------------- whole runs

  /** The location modem, in a scan, replaces the image of a tuned radio by one that is not good for its band. */
  predicate StrandsForeign(c: Ctx, env: Env, cmd: Cmd, cov: Coverage) {
    && c.radioState == Scan && env(c.drawn) && !SparesImage(cmd)
    && c.radioFreqHz != 0 && FreqBand(c.radioFreqHz).Some?
    && !cov.Covers(ImageAfter(cmd, Uncalibrated), FreqBand(c.radioFreqHz).value)
  }

  predicate MoveStrands(c: Ctx, env: Env, m: Move, cov: Coverage) {
    match m
    case Own(call) => Strands(c, env, call, cov)
    case Foreign(cmd) => StrandsForeign(c, env, cmd, cov)
  }

  lemma MoveStep(c: Ctx, env: Env, m: Move, cov: Coverage)
    requires Agrees(c, cov)
    ensures Agrees(Make(c, env, m), cov) <==> !MoveStrands(c, env, m, cov)
    ensures Observe(Make(c, env, m).trace).faultless ==> Observe(c.trace).faultless
    ensures Observe(Make(c, env, m).trace).faultless && MoveStrands(c, env, m, cov) ==> m.Own? ==> m.call.InitCall?
  {
    hide Apply, Strands, Observe;
    match m
    case Own(call) =>
      Step(c, env, call, cov);
      TraceGrows(c, env, call);
    case Foreign(cmd) =>
  }

  /** Move `k` breaks the agreement. */
  predicate StrandsAt(c: Ctx, env: Env, ms: seq<Move>, k: nat, cov: Coverage)
    requires k < |ms|
  {
    MoveStrands(SharedRun(c, env, ms[..k]), env, ms[k], cov)
  }

  lemma {:induction false} AgreesInRun(c: Ctx, env: Env, ms: seq<Move>, cov: Coverage)
    requires Agrees(c, cov)
    requires forall k: nat :: k < |ms| ==> !StrandsAt(c, env, ms, k, cov)
    ensures Agrees(SharedRun(c, env, ms), cov)
    decreases |ms|
  {
    hide Make, MoveStrands, Agrees;
    if ms != [] {
      var n := |ms| - 1;
      forall k: nat | k < n ensures !StrandsAt(c, env, ms[..n], k, cov) {
        assert ms[..n][..k] == ms[..k];
        assert !StrandsAt(c, env, ms, k, cov);
      }
      AgreesInRun(c, env, ms[..n], cov);
      assert !StrandsAt(c, env, ms, n, cov);
      MoveStep(SharedRun(c, env, ms[..n]), env, ms[n], cov);
    }
  }

  /** One init, first, on an untuned radio, no command that fails, and a location modem that leaves the image
      alone: whenever the radio is tuned it is so to exactly one band, and the last image calibration was made
      for that band. */
  lemma {:induction false} CalibratedForItsBand(c: Ctx, env: Env, ms: seq<Move>)
    requires c.radioFreqHz == 0
    requires forall k :: 1 <= k < |ms| && ms[k].Own? ==> !ms[k].call.InitCall?
    requires forall k :: 0 <= k < |ms| && ms[k].Foreign? ==> SparesImage(ms[k].cmd)
    requires Observe(SharedRun(c, env, ms).trace).faultless
    ensures
      var r := SharedRun(c, env, ms);
      && Agrees(r, NOTHING)
      && (r.radioFreqHz != 0 ==> exists i: nat :: InBand(r.radioFreqHz, i) && Observe(r.trace).calibrated == Band(i))
    decreases |ms|
  {
    hide Make, Observe;
    if ms != [] {
      var n := |ms| - 1;
      var before := SharedRun(c, env, ms[..n]);
      MoveGrows(before, env, ms[n]);
      CalibratedForItsBand(c, env, ms[..n]);
      MoveStep(before, env, ms[n], NOTHING);
    }
  }

  lemma MoveGrows(c: Ctx, env: Env, m: Move)
    ensures Observe(Make(c, env, m).trace).faultless ==> Observe(c.trace).faultless
  {
    hide Apply, Observe;
    if m.Own? { TraceGrows(c, env, m.call); }
  }

  /** An image calibration for another band, sent in a scan, outlasts the release. */
  lemma ForeignCalibrationStays(c: Ctx, env: Env, band: nat, cov: Coverage)
    requires c.radioState == Scan && c.radioFreqHz != 0 && FreqBand(c.radioFreqHz).Some? && env(c.drawn)
    ensures Agrees(ReleaseScan(Make(c, env, Foreign(CalibrateImage(band))), env), cov) <==> FreqBand(c.radioFreqHz) == Some(band)
  {
    hide Observe, FreqBand, ReleaseScan;
    ReleasePutsBack(Make(c, env, Foreign(CalibrateImage(band))), env);
  }

  lemma TraceGrows(c: Ctx, env: Env, call: Call)
    ensures Observe(Apply(c, env, call).trace).faultless ==> Observe(c.trace).faultless
  {
    hide IrqProcess, Init, HoldScan, Perform, SetModemMode, SetFrequency, TxContinuousWave, Observe;
  }

  // ------------------------------------------------------------- a second init

  /** A second init keeps the frequency and replaces the calibration made for its band, exactly if it reaches
      the reset: by the chip's own as it starts or, with an oscillator to set up, by the general one. */
  lemma ReinitReplacesCalibration(c: Ctx, env: Env, call: Call)
    requires call.InitCall? && c.radioFreqHz != 0 && Agrees(c, NOTHING)
    ensures
      var r := Apply(c, env, call);
      && r.radioFreqHz == c.radioFreqHz
      && (Observe(r.trace).calibrated.Band? <==> !(call.valid && ResetsChip(env, c.drawn)))
      && (Observe(r.trace).calibrated == General <==> call.valid && ResetsChip(env, c.drawn) && CalibratesAll(env, c.drawn + 3, call.config))
  {
    hide Init, ResetsChip, CalibratesAll, Observe;
    InitImage(c, env, call.valid, call.config, call.cfg);
  }

  /** Tuning within the band of the cached frequency leaves the image as it is, whatever it is. */
  lemma TuningInBandSkips(c: Ctx, env: Env, freq: nat)
    requires FreqBand(freq) == FreqBand(c.radioFreqHz)
    ensures Observe(SetFrequency(c, env, freq).0.trace).calibrated == Observe(c.trace).calibrated
  {
    hide Observe, FreqBand;
  }

  /** The driver's context before anything has been called. */
  const ZEROED := Ctx(Unknown, Fsk, CsOnly, SimOff, 0, MaskNone, 0, 0, map[], false, 0, [], [])

  /** Every answer is good: initialised, tuned, initialised again and tuned within the same band, the radio is
      tuned without ever having been calibrated for that band since its reset. */
  lemma TunedUncalibrated(env: Env, config: Config, cfg: int)
    requires forall i :: env(i)
    ensures
      var init := InitCall(true, config, cfg);
      var r := Run(ZEROED, env, [init, FrequencyCall(915000000), init, FrequencyCall(916000000)]);
      r.radioFreqHz == 916000000 && Observe(r.trace).calibrated == if config.tcxo then General else Startup
  {
    hide Run, Apply, Init, SetFrequency, Observe;
    var init := InitCall(true, config, cfg);
    RunFour(ZEROED, env, init, FrequencyCall(915000000), init, FrequencyCall(916000000));
    var c1 := Init(ZEROED, env, true, config, cfg).0;
    InitReady(ZEROED, env, config, cfg);
    var c2 := SetFrequency(c1, env, 915000000).0;
    TuneSucceeds(c1, env, 915000000);
    var c3 := Init(c2, env, true, config, cfg).0;
    InitReady(c2, env, config, cfg);
    InitImage(c2, env, true, config, cfg);
    TuneSucceeds(c3, env, 916000000);
    TuningInBandSkips(c3, env, 916000000);
    Applied(ZEROED, env, config, cfg, c1, c2, c3);
  }

  lemma Applied(c: Ctx, env: Env, config: Config, cfg: int, c1: Ctx, c2: Ctx, c3: Ctx)
    requires c1 == Init(c, env, true, config, cfg).0 && c2 == SetFrequency(c1, env, 915000000).0 && c3 == Init(c2, env, true, config, cfg).0
    ensures
      var init := InitCall(true, config, cfg);
      Apply(Apply(Apply(Apply(c, env, init), env, FrequencyCall(915000000)), env, init), env, FrequencyCall(916000000))
      == SetFrequency(c3, env, 916000000).0
  {
    hide Init, SetFrequency;
  }

  lemma TuneSucceeds(c: Ctx, env: Env, freq: nat)
    requires c.radioState == Standby && FreqBand(freq).Some? && forall i :: env(i)
    ensures SetFrequency(c, env, freq).0.radioFreqHz == freq
  {
    hide Observe;
  }
}
