/** What sid_pal_radio_init does, told by the answers it draws. */
module RadioInit {
  import opened RadioTypes
  import opened Wrappers
  import opened Radio

  /** Pins and bus, pin switches, reset: the first three answers, from `d`. */
  predicate ResetsChip(env: Env, d: nat) {
    env(d) && env(d + 1) && env(d + 2)
  }

  /** Where the answers stand after the interrupt of the reset, drawn from `d`, has been dealt with. */
  function AfterStartup(env: Env, d: nat): nat {
    if !env(d) then d + 1 else if env(d + 2) then d + 5 else d + 3
  }

  /** The version is read and recent enough, and an interrupt of the reset can be cleared. */
  predicate ChipAnswers(env: Env, d: nat) {
    env(d) && env(d + 1) && (env(d + 2) ==> env(d + 3))
  }

  predicate ClocksAnswer(env: Env, d: nat, config: Config) {
    if config.tcxo then env(d) && env(d + 1) && env(d + 2) && env(d + 3) else env(d)
  }

  /** The reset and everything up to the clocks succeeds. */
  predicate Boots(env: Env, d: nat, config: Config) {
    ResetsChip(env, d) && ChipAnswers(env, d + 3) && ClocksAnswer(env, AfterStartup(env, d + 5), config)
  }

  /** After the reset, the general calibration is reached and succeeds. */
  predicate CalibratesAll(env: Env, d: nat, config: Config) {
    var n := AfterStartup(env, d + 2);
    ChipAnswers(env, d) && config.tcxo && env(n) && env(n + 1)
  }

  /** What init leaves of the image calibration. */
  function ImageAfterInit(env: Env, d: nat, config: Config, image: Image): Image {
    if !ResetsChip(env, d) then image else if CalibratesAll(env, d + 3, config) then General else Startup
  }

  // ----------------------------------------------------------- step by step

  lemma ResetStep(c: Ctx, env: Env)
    ensures
      var (r, err) := InitReset(c, env);
      && (err == NoError <==> ResetsChip(env, c.drawn)) && (err == NoError ==> r.drawn == c.drawn + 3)
      && Observe(r.trace).calibrated == (if err == NoError then Startup else Observe(c.trace).calibrated)
      && Observe(r.trace).tuned == if err == NoError then None else Observe(c.trace).tuned
  {
    hide Observe;
  }

  lemma VersionStep(c: Ctx, env: Env)
    ensures
      var (r, err) := InitVersion(c, env);
      (err == NoError <==> env(c.drawn) && env(c.drawn + 1)) && (err == NoError ==> r.drawn == c.drawn + 2)
  {
    hide Observe;
  }

  lemma StartupStep(c: Ctx, env: Env)
    ensures
      var (r, err) := ClearStartup(c, env);
      (err == NoError <==> (env(c.drawn) ==> env(c.drawn + 1))) && (err == NoError ==> r.drawn == AfterStartup(env, c.drawn))
  {
    hide Observe;
  }

  lemma TcxoImage(c: Ctx, env: Env)
    ensures Observe(InitTcxo(c, env).0.trace).calibrated ==
            if env(c.drawn) && env(c.drawn + 1) then General else Observe(c.trace).calibrated
  {
    hide Observe;
  }

  lemma TcxoStep(c: Ctx, env: Env)
    ensures
      var (r, err) := InitTcxo(c, env);
      (err == NoError <==> env(c.drawn) && env(c.drawn + 1) && env(c.drawn + 2)) && (err == NoError ==> r.drawn == c.drawn + 3)
  {
    hide Observe;
  }

  lemma ClocksStep(c: Ctx, env: Env, config: Config)
    ensures
      var (r, err) := InitClocks(c, env, config);
      && (err == NoError <==> ClocksAnswer(env, c.drawn, config))
      && Observe(r.trace).calibrated ==
         if config.tcxo && env(c.drawn) && env(c.drawn + 1) then General else Observe(c.trace).calibrated
  {
    hide Observe, InitTcxo;
    TcxoStep(c, env);
    TcxoImage(c, env);
  }

  lemma ChipStep(c: Ctx, env: Env, config: Config)
    ensures
      var (r, err) := InitChip(c, env, config);
      && (err == NoError <==> ChipAnswers(env, c.drawn) && ClocksAnswer(env, AfterStartup(env, c.drawn + 2), config))
      && Observe(r.trace).calibrated == if CalibratesAll(env, c.drawn, config) then General else Observe(c.trace).calibrated
  {
    hide Observe, InitVersion, ClearStartup, InitClocks, AfterStartup;
    VersionStep(c, env);
    var (c1, err1) := InitVersion(c, env);
    StartupStep(c1, env);
    var (c2, err2) := ClearStartup(c1, env);
    ClocksStep(c2, env, config);
  }

  lemma BootStep(c: Ctx, env: Env, config: Config)
    ensures
      var (r, err) := InitBoot(c, env, config);
      && (err == NoError <==> Boots(env, c.drawn, config))
      && Observe(r.trace).calibrated == ImageAfterInit(env, c.drawn, config, Observe(c.trace).calibrated)
      && Observe(r.trace).tuned == if ResetsChip(env, c.drawn) then None else Observe(c.trace).tuned
  {
    hide Observe, InitReset, InitChip, ResetsChip, ChipAnswers, ClocksAnswer, AfterStartup, CalibratesAll;
    ResetStep(c, env);
    ChipStep(InitReset(c, env).0, env, config);
  }

  /** Init and the image calibration: kept if the reset is not reached, else that of the reset or, with an
      oscillator to set up, of the general calibration. The reset also forgets the frequency. */
  lemma InitImage(c: Ctx, env: Env, valid: bool, config: Config, cfg: int)
    ensures Observe(Init(c, env, valid, config, cfg).0.trace).calibrated ==
            if valid then ImageAfterInit(env, c.drawn, config, Observe(c.trace).calibrated) else Observe(c.trace).calibrated
    ensures Observe(Init(c, env, valid, config, cfg).0.trace).tuned ==
            if valid && ResetsChip(env, c.drawn) then None else Observe(c.trace).tuned
  {
    hide Observe, InitBoot, InitRadio, ImageAfterInit, ResetsChip;
    BootStep(OutOfScan(c).(modem := Lora), env, config);
  }

  // ------------------------------------------------------- when all goes well

  lemma FinishState(c: Ctx, env: Env, cfg: int)
    requires c.radioState != Scan
    ensures InitFinish(c, env, cfg).0.radioState == c.radioState
  {
    hide Observe, Commands;
  }

  lemma StandbyReady(c: Ctx, env: Env, cfg: int)
    requires c.radioState == Unknown && forall i :: env(i)
    ensures InitStandby(c, env, cfg).0.radioState == Standby
  {
    hide Observe, InitFinish, GoStandby;
    GoStandbySucceeds(c, env);
    FinishState(Chip(GoStandby(c, env).0, env, CfgRxBoosted).0, env, cfg);
  }

  lemma GoStandbySucceeds(c: Ctx, env: Env)
    requires c.radioState == Unknown && forall i :: env(i)
    ensures GoStandby(c, env).1 == NoError && GoStandby(c, env).0.radioState == Standby
  {
    hide Observe, Commands;
    CommandsSucceed(Ask(Ask(c, env).0, env).0, env, [(ClearIrq, HardwareError)]);
    var c1 := ClearIrqStatusAll(c, env).0;
    CommandsSucceed(SetRadioMode(c1, env).0, env, [(SetStandby, HardwareError)]);
  }

  lemma {:induction false} CommandsSucceed(c: Ctx, env: Env, cmds: seq<(Cmd, RadioError)>)
    requires forall i :: env(i)
    ensures Commands(c, env, cmds).1 == NoError
    decreases |cmds|
  {
    hide Observe;
    if cmds != [] { CommandsSucceed(Chip(c, env, cmds[0].0).0, env, cmds[1..]); }
  }

  lemma RadioReady(c: Ctx, env: Env, config: Config, cfg: int)
    requires c.radioState != Scan && forall i :: env(i)
    ensures InitRadio(c, env, config, cfg).0.radioState == Standby
  {
    hide Observe, Commands, InitStandby, RegulatorCmds;
    var c1 := AskThen(c.(irqMask := MaskLora), env, IoError).0;
    var c2 := Chip(c1, env, SetStandby).0;
    CommandsSucceed(c2, env, RegulatorCmds(config));
    StandbyReady(Commands(c2, env, RegulatorCmds(config)).0.(radioState := Unknown), env, cfg);
  }

  /** With good answers throughout, the radio is in standby. */
  lemma InitReady(c: Ctx, env: Env, config: Config, cfg: int)
    requires forall i :: env(i)
    ensures Init(c, env, true, config, cfg).0.radioState == Standby
  {
    hide Observe, InitBoot, InitRadio;
    var c0 := OutOfScan(c).(modem := Lora);
    BootStep(c0, env, config);
    RadioReady(InitBoot(c0, env, config).0, env, config, cfg);
  }

  /** After the clocks, a standby command that fails ends init without an error: the radio is not in standby
      unless it was before, and nothing further is sent. */
  lemma SilentFailure(c: Ctx, env: Env, config: Config, cfg: int)
    requires Boots(env, c.drawn, config)
    requires var b := InitBoot(OutOfScan(c).(modem := Lora), env, config).0; env(b.drawn) && !env(b.drawn + 1)
    ensures
      var (r, err) := Init(c, env, true, config, cfg);
      && err == NoError && r.radioState == OutOfScan(c).radioState && r.paCfg == c.paCfg
      && r.trace == InitBoot(OutOfScan(c).(modem := Lora), env, config).0.trace + [(SetStandby, false)]
  {
    hide Observe, InitBoot, Commands, InitStandby;
    BootStep(OutOfScan(c).(modem := Lora), env, config);
  }
}
