/** What each call tells the chip: with which answers it succeeds, and the commands it has then sent. */
module RadioCommands {
  import opened RadioTypes
  import opened Wrappers
  import opened Radio
  import opened RadioTuning

  type Trace = seq<(Cmd, bool)>

  /** A pending interrupt, found by the answer `d`, is cleared. */
  function Cleared(env: Env, d: nat): Trace {
    if env(d) then [(ClearIrq, true)] else []
  }

  /** The answers from `d` on let a pending interrupt be looked for and cleared. */
  predicate Clears(env: Env, d: nat) {
    env(d) && (env(d + 1) ==> env(d + 2))
  }

  function AfterClear(env: Env, d: nat): nat {
    if env(d + 1) then d + 3 else d + 2
  }

  /** The pins switch and a pending interrupt is cleared. */
  predicate Prepared(env: Env, d: nat) {
    env(d) && Clears(env, d + 1)
  }

  /** The next `n` answers are good. */
  predicate Answered(env: Env, d: nat, n: nat)
    decreases n
  {
    n == 0 || (env(d) && Answered(env, d + 1, n - 1))
  }

  function Well(cmds: seq<(Cmd, RadioError)>): (t: Trace)
    ensures |t| == |cmds|
  {
    seq(|cmds|, i requires 0 <= i < |cmds| => (cmds[i].0, true))
  }

  /** Every failure has an error. */
  predicate Failing(cmds: seq<(Cmd, RadioError)>) {
    forall i :: 0 <= i < |cmds| ==> cmds[i].1 != NoError
  }

  // ---------------------------------------------------------------- common paths

  lemma {:induction false} CommandsSend(c: Ctx, env: Env, cmds: seq<(Cmd, RadioError)>)
    requires Failing(cmds)
    ensures
      var (r, err) := Commands(c, env, cmds);
      && (err == NoError <==> Answered(env, c.drawn, |cmds|))
      && (err == NoError ==> r == c.(drawn := c.drawn + |cmds|, trace := c.trace + Well(cmds)))
    decreases |cmds|
  {
    hide Observe;
    if cmds == [] {
      assert c.trace + Well(cmds) == c.trace;
    } else {
      var (c1, ok) := Chip(c, env, cmds[0].0);
      if ok {
        CommandsSend(c1, env, cmds[1..]);
        assert c.trace + [(cmds[0].0, true)] + Well(cmds[1..]) == c.trace + Well(cmds);
      }
    }
  }

  lemma TwoAnswers(env: Env, d: nat)
    ensures Answered(env, d, 2) <==> env(d) && env(d + 1)
  {
    assert Answered(env, d + 1, 1) <==> env(d + 1);
  }

  lemma ClearSends(c: Ctx, env: Env)
    requires c.radioState != Scan
    ensures
      var (r, err) := ClearIrqStatusAll(c, env);
      && (err == NoError <==> Clears(env, c.drawn)) && err in {NoError, HardwareError}
      && (err == NoError ==> r == c.(drawn := AfterClear(env, c.drawn), trace := c.trace + Cleared(env, c.drawn + 1)))
  {
    hide Observe;
    assert c.trace + [] == c.trace;
  }

  lemma PrepareSends(c: Ctx, env: Env)
    requires c.radioState != Scan
    ensures
      var (r, err) := Prepare(c, env);
      && (err == NoError <==> Prepared(env, c.drawn))
      && (err == IoError <==> !env(c.drawn)) && err in {NoError, IoError, HardwareError}
      && (err == NoError ==> r == c.(drawn := AfterClear(env, c.drawn + 1), trace := c.trace + Cleared(env, c.drawn + 2)))
  {
    hide Observe, ClearIrqStatusAll, Clears, Cleared, AfterClear;
    ClearSends(SetRadioMode(c, env).0, env);
  }

  lemma LaunchSends(c: Ctx, env: Env, cmds: seq<(Cmd, RadioError)>, next: RadioState)
    requires c.radioState != Scan && next != Scan && Harmless(cmds) && Failing(cmds)
    ensures
      var (r, err) := Launch(c, env, cmds, next);
      && (err == NoError <==> Prepared(env, c.drawn) && Answered(env, AfterClear(env, c.drawn + 1), |cmds|))
      && (err == NoError ==> r.trace == c.trace + Cleared(env, c.drawn + 2) + Well(cmds) && r.radioState == next)
  {
    hide Observe, Prepare, Commands, Prepared, Answered, AfterClear, Cleared, Well, Failing;
    PrepareSends(c, env);
    CommandsSend(Prepare(c, env).0, env, cmds);
  }

  lemma ListenSends(c: Ctx, env: Env, onPreamble: bool, cmds: seq<(Cmd, RadioError)>)
    requires c.radioState != Scan && Harmless(cmds) && Failing(cmds)
    ensures
      var (r, err) := Listen(c, env, onPreamble, cmds);
      && (err == NoError <==> env(c.drawn) && Prepared(env, c.drawn + 1) && Answered(env, AfterClear(env, c.drawn + 2), |cmds|))
      && (err == NoError ==>
          && r.trace == c.trace + [(StopTimeoutOnPreamble(onPreamble), true)] + Cleared(env, c.drawn + 3) + Well(cmds)
          && r.radioState == Rx)
  {
    hide Observe, Launch, Prepared, Answered, AfterClear, Cleared, Well, Failing;
    var (c1, err) := Commands(c, env, [(StopTimeoutOnPreamble(onPreamble), HardwareError)]);
    OneCommand(c, env, StopTimeoutOnPreamble(onPreamble), HardwareError);
    LaunchSends(c1, env, cmds, Rx);
  }

  lemma OneCommand(c: Ctx, env: Env, cmd: Cmd, failure: RadioError)
    requires failure != NoError
    ensures
      var (r, err) := Commands(c, env, [(cmd, failure)]);
      && err == (if env(c.drawn) then NoError else failure)
      && r == c.(drawn := c.drawn + 1, trace := c.trace + [(cmd, env(c.drawn))])
  {
    hide Observe;
  }

  lemma TwoCommands(c: Ctx, env: Env, first: Cmd, second: Cmd, failure: RadioError)
    requires failure != NoError
    ensures
      var (r, err) := Commands(c, env, [(first, failure), (second, failure)]);
      && (err == NoError <==> env(c.drawn) && env(c.drawn + 1))
      && (err == NoError ==> r == c.(drawn := c.drawn + 2, trace := c.trace + [(first, true), (second, true)]))
  {
    hide Commands, Observe;
    var cmds := [(first, failure), (second, failure)];
    CommandsSend(c, env, cmds);
    assert Well(cmds) == [(first, true), (second, true)];
    assert Answered(env, c.drawn + 1, 1) <==> env(c.drawn + 1);
  }

  lemma SettleSends(c: Ctx, env: Env, cmd: Cmd, next: RadioState)
    requires c.radioState != Scan && next != Scan && Spares(cmd)
    ensures
      var (r, err) := Settle(c, env, cmd, next);
      var n := AfterClear(env, c.drawn);
      && (err == NoError <==> Clears(env, c.drawn) && env(n) && env(n + 1))
      && (err == IoError <==> Clears(env, c.drawn) && !env(n)) && err in {NoError, IoError, HardwareError}
      && (err == NoError ==> r.trace == c.trace + Cleared(env, c.drawn + 1) + [(cmd, true)] && r.radioState == next)
  {
    hide Observe, ClearIrqStatusAll, Commands, Clears, AfterClear, Cleared;
    ClearSends(c, env);
    var (c1, err) := ClearIrqStatusAll(c, env);
    OneCommand(SetRadioMode(c1, env).0, env, cmd, HardwareError);
  }

  // ------------------------------------------------------------------- the calls

  /** Preparation and one command. */
  predicate LaunchesOne(env: Env, d: nat) {
    Prepared(env, d) && env(AfterClear(env, d + 1))
  }

  lemma LaunchKeeps(c: Ctx, env: Env, cmds: seq<(Cmd, RadioError)>, next: RadioState)
    requires c.radioState != Scan && next != Scan && Harmless(cmds)
    ensures var r := Launch(c, env, cmds, next).0; r == c.(radioState := r.radioState, drawn := r.drawn, trace := r.trace)
  {
    hide Observe, Prepare, Commands;
  }

  /** A pin that fails is an input-output error, anything after it one of the hardware. */
  lemma OneLaunch(c: Ctx, env: Env, cmd: Cmd, next: RadioState)
    requires c.radioState != Scan && next != Scan && Spares(cmd)
    ensures
      var (r, err) := Launch(c, env, [(cmd, HardwareError)], next);
      && (err == NoError <==> LaunchesOne(env, c.drawn))
      && (err == IoError <==> !env(c.drawn)) && err in {NoError, IoError, HardwareError}
      && (err == NoError ==> r.trace == c.trace + Cleared(env, c.drawn + 2) + [(cmd, true)] && r.radioState == next)
      && r == c.(radioState := r.radioState, drawn := r.drawn, trace := r.trace)
  {
    hide Observe, Prepare, Commands, Prepared, AfterClear, Cleared;
    LaunchKeeps(c, env, [(cmd, HardwareError)], next);
    PrepareSends(c, env);
    OneCommand(Prepare(c, env).0, env, cmd, HardwareError);
  }

  lemma OneListen(c: Ctx, env: Env, onPreamble: bool)
    requires c.radioState != Scan
    ensures
      var (r, err) := Listen(c, env, onPreamble, [(SetRx, HardwareError)]);
      && (err == NoError <==> env(c.drawn) && LaunchesOne(env, c.drawn + 1))
      && (err == NoError ==>
          && r.trace == c.trace + [(StopTimeoutOnPreamble(onPreamble), true)] + Cleared(env, c.drawn + 3) + [(SetRx, true)]
          && r.radioState == Rx)
  {
    hide Observe, Launch, LaunchesOne, Cleared;
    OneCommand(c, env, StopTimeoutOnPreamble(onPreamble), HardwareError);
    OneLaunch(Commands(c, env, [(StopTimeoutOnPreamble(onPreamble), HardwareError)]).0, env, SetRx, Rx);
  }

  /** The answers from `d` on: those of the amplifier, of standby, and of the carrier itself. */
  predicate CarrierAnswers(env: Env, d: nat) {
    env(d) && env(d + 1) && env(d + 2) && env(d + 3) && LaunchesOne(env, d + 4)
  }

  lemma CarrierSent(c: Ctx, env: Env, cfg: int)
    requires c.radioState != Scan
    ensures
      var (r, err) := Carrier(c, env, cfg);
      && (err == NoError <==> c.radioState == Standby && CarrierAnswers(env, c.drawn))
      && (err == NoError ==>
          && r.trace == c.trace + [(SetPaCfg, true), (SetTxParams, true), (SetStandby, true)] + Cleared(env, c.drawn + 6) + [(SetTxCw, true)]
          && r.radioState == Tx && r.paCfg == cfg)
  {
    hide Observe, SetTxPower, Commands, Launch, LaunchesOne, Cleared;
    PowerSent(c, env, cfg);
    var (c1, err1) := SetTxPower(c, env, cfg);
    if err1 == NoError {
      OneCommand(c1, env, SetStandby, HardwareError);
      var (c2, err2) := Commands(c1, env, [(SetStandby, HardwareError)]);
      OneLaunch(c2, env, SetTxCw, Tx);
      assert c.trace + [(SetPaCfg, true), (SetTxParams, true)] + [(SetStandby, true)]
          == c.trace + [(SetPaCfg, true), (SetTxParams, true), (SetStandby, true)];
    }
  }


  /** The frequency, the amplifier, standby, the pins, and then the carrier. */
  lemma WaveSent(c: Ctx, env: Env, freq: nat, cfg: int)
    requires c.radioState != Scan
    ensures
      var (r, err) := TxContinuousWave(c, env, freq, cfg);
      var d := c.drawn + |Recalibrated(c, freq)| + 1;
      && (err == NoError <==> Tunable(c, freq) && TuningAnswers(c, env, freq) && CarrierAnswers(env, d))
      && (err == NoError ==>
          && r.trace == c.trace + Recalibrated(c, freq)
                        + [(SetRfFreq(freq), true), (SetPaCfg, true), (SetTxParams, true), (SetStandby, true)] + Cleared(env, d + 6)
                        + [(SetTxCw, true)]
          && r.radioState == Tx && r.paCfg == cfg)
  {
    hide Observe, SetFrequency, Carrier, TuningAnswers, Recalibrated, CarrierAnswers, Cleared, FreqBand;
    FrequencySent(c, env, freq);
    var (c1, err1) := SetFrequency(c, env, freq);
    if err1 == NoError {
      CarrierSent(c1, env, cfg);
      var t := c.trace + Recalibrated(c, freq);
      assert t + [(SetRfFreq(freq), true)] + [(SetPaCfg, true), (SetTxParams, true), (SetStandby, true)]
          == t + [(SetRfFreq(freq), true), (SetPaCfg, true), (SetTxParams, true), (SetStandby, true)];
    }
  }

  lemma PowerSent(c: Ctx, env: Env, cfg: int)
    requires c.radioState != Scan
    ensures
      var (r, err) := SetTxPower(c, env, cfg);
      && (err == NoError <==> c.radioState == Standby && env(c.drawn) && env(c.drawn + 1) && env(c.drawn + 2))
      && (err == NoError ==> r == c.(paCfg := cfg, drawn := c.drawn + 3, trace := c.trace + [(SetPaCfg, true), (SetTxParams, true)]))
      && (err == InvalidState <==> c.radioState != Standby)
      && (err == InvalidParams <==> c.radioState == Standby && !env(c.drawn))
  {
    hide Observe, Commands;
    if c.radioState == Standby {
      var c1 := Ask(c, env).0;
      TwoCommands(c1.(paCfg := cfg), env, SetPaCfg, SetTxParams, IoError);
      CommandsFail(c1.(paCfg := cfg), env, [(SetPaCfg, IoError), (SetTxParams, IoError)], IoError);
    }
  }

  /** A failure has the error of its command. */
  lemma {:induction false} CommandsFail(c: Ctx, env: Env, cmds: seq<(Cmd, RadioError)>, failure: RadioError)
    requires forall i :: 0 <= i < |cmds| ==> cmds[i].1 == failure
    ensures Commands(c, env, cmds).1 in {NoError, failure}
    decreases |cmds|
  {
    hide Observe;
    if cmds != [] { CommandsFail(Chip(c, env, cmds[0].0).0, env, cmds[1..], failure); }
  }

  lemma StandbySent(c: Ctx, env: Env)
    requires c.radioState != Scan && c.radioState != Standby
    ensures
      var (r, err) := GoStandby(c, env);
      var d := if c.radioState == Sleep then c.drawn + 1 else c.drawn;
      var n := AfterClear(env, d);
      && (err == NoError <==> (c.radioState == Sleep ==> env(c.drawn)) && Clears(env, d) && env(n) && env(n + 1))
      && (err == NoError ==>
          && r.trace == c.trace + (if c.radioState == Sleep then [(Wakeup, true)] else []) + Cleared(env, d + 1) + [(SetStandby, true)]
          && r.radioState == Standby)
  {
    hide Observe, Commands, Settle, Clears, AfterClear, Cleared;
    if c.radioState == Sleep {
      OneCommand(c, env, Wakeup, HardwareError);
      if env(c.drawn) { SettleSends(Enter(c, env, [(Wakeup, HardwareError)], Unknown).0, env, SetStandby, Standby); }
    } else {
      SettleSends(c, env, SetStandby, Standby);
      assert c.trace + [] == c.trace;
    }
  }

  /** The packet type of the modem and then its interrupts. */
  lemma ModemSent(c: Ctx, env: Env, m: Modem)
    requires c.radioState != Scan
    ensures
      var (r, err) := SetModemMode(c, env, m);
      && (err == NoError <==> env(c.drawn) && env(c.drawn + 1))
      && (err == NoError ==> r == c.(modem := m, irqMask := if m == Fsk then MaskFsk else MaskLora, drawn := c.drawn + 2,
            trace := c.trace + [(SetPktType(if m == Fsk then PktGfsk else PktLora), true), (SetDioIrq(if m == Fsk then MaskFsk else MaskLora), true)]))
      && (err == HardwareError <==> !env(c.drawn))
  {
    hide Observe, Commands;
    OneCommand(c, env, SetPktType(PktTypeOf(m)), HardwareError);
    var c1 := Commands(c, env, [(SetPktType(PktTypeOf(m)), HardwareError)]).0;
    OneCommand(c1.(modem := m, irqMask := DefaultMask(m)), env, SetDioIrq(DefaultMask(m)), IoError);
    assert c.trace + [(SetPktType(PktTypeOf(m)), true)] + [(SetDioIrq(DefaultMask(m)), true)]
        == c.trace + [(SetPktType(PktTypeOf(m)), true), (SetDioIrq(DefaultMask(m)), true)];
  }

  /** Carrier sense receives with all interrupts on, whatever the mask of the driver. */
  lemma SenseSent(c: Ctx, env: Env, mode: ExitMode)
    requires c.radioState != Scan
    ensures
      var (r, err) := StartCarrierSense(c, env, mode);
      && (err == InvalidParams <==> c.modem != Fsk || mode in {CsLbtRx, NoMode})
      && (err == NoError <==>
          && c.modem == Fsk && mode !in {CsLbtRx, NoMode} && env(c.drawn) && Prepared(env, c.drawn + 1)
          && env(AfterClear(env, c.drawn + 2)) && env(AfterClear(env, c.drawn + 2) + 1))
      && (err == NoError ==>
          r.trace == c.trace + [(StopTimeoutOnPreamble(true), true)] + Cleared(env, c.drawn + 3) + [(SetDioIrq(MaskAll), true), (SetRx, true)])
  {
    hide Observe, Cleared, Prepared, Answered, AfterClear, Launch, Prepare;
    var cmds := [(SetDioIrq(MaskAll), IoError), (SetRx, HardwareError)];
    if c.modem == Fsk && IsCadExitMode(mode) {
      ListenSends(c, env, true, cmds);
      assert Well(cmds) == [(SetDioIrq(MaskAll), true), (SetRx, true)];
      var n := AfterClear(env, c.drawn + 2);
      assert Answered(env, n, 2) <==> env(n) && env(n + 1) by { TwoAnswers(env, n); }
      ListenErrors(c, env, true, cmds);
    }
  }

  lemma ListenErrors(c: Ctx, env: Env, onPreamble: bool, cmds: seq<(Cmd, RadioError)>)
    requires c.radioState != Scan && Harmless(cmds)
    requires forall i :: 0 <= i < |cmds| ==> cmds[i].1 in {IoError, HardwareError}
    ensures Listen(c, env, onPreamble, cmds).1 in {NoError, IoError, HardwareError}
  {
    hide Observe, Commands, Prepare;
    CommandErrors(c, env, [(StopTimeoutOnPreamble(onPreamble), HardwareError)]);
    var c1 := Commands(c, env, [(StopTimeoutOnPreamble(onPreamble), HardwareError)]).0;
    PrepareErrors(c1, env);
    CommandErrors(Prepare(c1, env).0, env, cmds);
  }

  lemma PrepareErrors(c: Ctx, env: Env)
    ensures Prepare(c, env).1 in {NoError, IoError, HardwareError}
  {
    hide Observe;
  }

  lemma {:induction false} CommandErrors(c: Ctx, env: Env, cmds: seq<(Cmd, RadioError)>)
    requires forall i :: 0 <= i < |cmds| ==> cmds[i].1 in {IoError, HardwareError}
    ensures Commands(c, env, cmds).1 in {NoError, IoError, HardwareError}
    decreases |cmds|
  {
    hide Observe;
    if cmds != [] { CommandErrors(Chip(c, env, cmds[0].0).0, env, cmds[1..]); }
  }

  /** The private network's word is the byte 0x12, any other one the public network's 0x34. */
  lemma LoraSyncSent(c: Ctx, env: Env, word: nat)
    requires c.radioState != Scan
    ensures SetGuarded(c, env, SetLoraSync(LoraSyncByte(word))).0.trace
         == c.trace + [(SetLoraSync(if word == 0x1424 then 0x12 else 0x34), env(c.drawn))]
  {
    hide Observe, Commands;
    OneCommand(c, env, SetLoraSync(LoraSyncByte(word)), HardwareError);
  }

  // ------------------------------------------------------------------------ init

  ghost predicate AllGood(env: Env) {
    forall i :: env(i)
  }

  lemma ResetSent(c: Ctx, env: Env)
    requires AllGood(env)
    ensures
      var c1 := InitReset(c, env).0;
      var (r, err) := InitVersion(c1, env);
      InitReset(c, env).1 == NoError && err == NoError && r == c.(drawn := r.drawn, trace := c.trace + [(Reset, true), (GetVersion, true)])
  {
    hide Observe;
  }

  lemma StartupSent(c: Ctx, env: Env)
    requires AllGood(env)
    ensures
      var (r, err) := ClearStartup(c, env);
      err == NoError && r == c.(drawn := r.drawn, trace := c.trace + [(GetAndClearIrq, true), (GetErrors, true), (ClearErrors, true)])
  {
    hide Observe;
  }

  lemma ClocksSent(c: Ctx, env: Env, config: Config)
    requires AllGood(env)
    ensures
      var (r, err) := InitClocks(c, env, config);
      && err == NoError
      && r == c.(drawn := r.drawn,
                 trace := c.trace + (if config.tcxo then [(SetTcxo, true), (CalibrateAll, true), (SetFallback, true)] else []) + [(CfgLfclk, true)])
  {
    hide Observe;
    assert config.tcxo ==> InitTcxo(c, env).0.trace == c.trace + [(SetTcxo, true), (CalibrateAll, true), (SetFallback, true)];
    assert c.trace + [] == c.trace;
  }

  lemma BootSent(c: Ctx, env: Env, config: Config)
    requires AllGood(env)
    ensures
      var (r, err) := InitBoot(c, env, config);
      && err == NoError
      && r == c.(drawn := r.drawn,
                 trace := c.trace + [(Reset, true), (GetVersion, true), (GetAndClearIrq, true), (GetErrors, true), (ClearErrors, true)]
                          + (if config.tcxo then [(SetTcxo, true), (CalibrateAll, true), (SetFallback, true)] else []) + [(CfgLfclk, true)])
  {
    hide Observe, InitReset, InitVersion, ClearStartup, InitClocks, AllGood;
    ResetSent(c, env);
    var c1 := InitVersion(InitReset(c, env).0, env).0;
    StartupSent(c1, env);
    var c2 := ClearStartup(c1, env).0;
    assert c2.trace == c.trace + [(Reset, true), (GetVersion, true), (GetAndClearIrq, true), (GetErrors, true), (ClearErrors, true)];
    ClocksSent(c2, env, config);
  }

  lemma FinishSent(c: Ctx, env: Env, cfg: int)
    requires c.radioState == Standby && AllGood(env)
    ensures
      var (r, err) := InitFinish(c, env, cfg);
      && err == NoError
      && r == c.(paCfg := cfg, timerArmed := false, deferredTimeout := 0, drawn := r.drawn,
                 trace := c.trace + [(SetPaCfg, true), (SetTxParams, true), (GetAndClearIrq, true), (SetDioIrq(c.irqMask), true), (DriveDio, true)])
  {
    hide Observe, Commands, SetTxPower;
    PowerSent(c, env, cfg);
    var c1 := SetTxPower(c, env, cfg).0;
    var cmds := [(GetAndClearIrq, HardwareError), (SetDioIrq(c1.irqMask), IoError), (DriveDio, IoError)];
    CommandsSend(c1, env, cmds);
    AllAnswered(env, c1.drawn, |cmds|);
    assert Well(cmds) == [(GetAndClearIrq, true), (SetDioIrq(c.irqMask), true), (DriveDio, true)];
    assert c.trace + [(SetPaCfg, true), (SetTxParams, true)] + Well(cmds)
        == c.trace + [(SetPaCfg, true), (SetTxParams, true), (GetAndClearIrq, true), (SetDioIrq(c.irqMask), true), (DriveDio, true)];
  }

  lemma {:induction false} AllAnswered(env: Env, d: nat, n: nat)
    requires AllGood(env)
    ensures Answered(env, d, n)
    decreases n
  {
    if n > 0 { AllAnswered(env, d + 1, n - 1); }
  }

  lemma StandbyInitSent(c: Ctx, env: Env, cfg: int)
    requires c.radioState == Unknown && AllGood(env)
    ensures
      var (r, err) := InitStandby(c, env, cfg);
      && err == NoError
      && r == c.(radioState := Standby, paCfg := cfg, timerArmed := false, deferredTimeout := 0, cadExitMode := r.cadExitMode,
                 settings := r.settings, drawn := r.drawn,
                 trace := c.trace + [(ClearIrq, true), (SetStandby, true), (CfgRxBoosted, true), (SetPaCfg, true), (SetTxParams, true),
                                     (GetAndClearIrq, true), (SetDioIrq(c.irqMask), true), (DriveDio, true)])
  {
    hide Observe, GoStandby, InitFinish;
    StandbySent(c, env);
    var c1 := GoStandby(c, env).0;
    var c2 := Chip(c1, env, CfgRxBoosted).0;
    FinishSent(c2, env, cfg);
    assert c1.trace == c.trace + [(ClearIrq, true)] + [(SetStandby, true)];
    assert InitFinish(c2, env, cfg).0.trace
        == c.trace + [(ClearIrq, true), (SetStandby, true), (CfgRxBoosted, true), (SetPaCfg, true), (SetTxParams, true),
                      (GetAndClearIrq, true), (SetDioIrq(c.irqMask), true), (DriveDio, true)];
  }

  lemma RadioInitSent(c: Ctx, env: Env, config: Config, cfg: int)
    requires c.radioState != Scan && AllGood(env)
    ensures
      var (r, err) := InitRadio(c, env, config, cfg);
      && err == NoError && r.radioState == Standby && r.irqMask == MaskLora && r.paCfg == cfg
      && !r.timerArmed && r.deferredTimeout == 0
      && r.trace == c.trace + [(SetStandby, true), (SetRegMode, true)] + (if config.rfSwitch then [(SetDioAsRfSwitch, true)] else [])
                    + [(ClearIrq, true), (SetStandby, true), (CfgRxBoosted, true), (SetPaCfg, true), (SetTxParams, true),
                       (GetAndClearIrq, true), (SetDioIrq(MaskLora), true), (DriveDio, true)]
  {
    hide Observe, Commands, InitStandby, RegulatorCmds;
    var c1 := AskThen(c.(irqMask := MaskLora), env, IoError).0;
    var c2 := Chip(c1, env, SetStandby).0;
    var cmds := RegulatorCmds(config);
    RegulatorSent(config);
    CommandsSend(c2, env, cmds);
    AllAnswered(env, c2.drawn, |cmds|);
    var c3 := Commands(c2, env, cmds).0;
    StandbyInitSent(c3.(radioState := Unknown), env, cfg);
    var mode := if config.rfSwitch then [(SetDioAsRfSwitch, true)] else [];
    assert c3.trace == c.trace + [(SetStandby, true)] + ([(SetRegMode, true)] + mode);
    assert c.trace + [(SetStandby, true)] + ([(SetRegMode, true)] + mode) == c.trace + [(SetStandby, true), (SetRegMode, true)] + mode;
  }

  lemma RegulatorSent(config: Config)
    ensures Failing(RegulatorCmds(config))
    ensures Well(RegulatorCmds(config)) == [(SetRegMode, true)] + if config.rfSwitch then [(SetDioAsRfSwitch, true)] else []
  {
  }

  /** With good answers throughout: every command of init, in order, and the configuration it leaves. */
  lemma InitSent(c: Ctx, env: Env, config: Config, cfg: int)
    requires AllGood(env)
    ensures
      var (r, err) := Init(c, env, true, config, cfg);
      && err == NoError && r.radioState == Standby && r.modem == Lora && r.irqMask == MaskLora && r.paCfg == cfg
      && !r.timerArmed && r.deferredTimeout == 0
      && r.trace == c.trace
          + [(Reset, true), (GetVersion, true), (GetAndClearIrq, true), (GetErrors, true), (ClearErrors, true)]
          + (if config.tcxo then [(SetTcxo, true), (CalibrateAll, true), (SetFallback, true)] else []) + [(CfgLfclk, true)]
          + [(SetStandby, true), (SetRegMode, true)] + (if config.rfSwitch then [(SetDioAsRfSwitch, true)] else [])
          + [(ClearIrq, true), (SetStandby, true), (CfgRxBoosted, true), (SetPaCfg, true), (SetTxParams, true),
             (GetAndClearIrq, true), (SetDioIrq(MaskLora), true), (DriveDio, true)]
  {
    hide Observe, InitBoot, InitRadio;
    var c0 := OutOfScan(c).(modem := Lora);
    BootSent(c0, env, config);
    RadioInitSent(InitBoot(c0, env, config).0, env, config, cfg);
  }

  // ------------------------------------------------------------- hold and release

  /** The lock is taken with at most a pending interrupt cleared. */
  lemma HoldSent(c: Ctx, env: Env)
    requires c.radioState != Scan && HoldScan(c, env).1 == NoError
    ensures HoldScan(c, env).0.trace == c.trace + if env(c.drawn + 1) then Cleared(env, c.drawn + 3) else []
  {
    hide Observe, ClearIrqStatusAll, Cleared;
    ClearSends(Ask(Ask(c, env).0, env).0, env);
    assert c.trace + [] == c.trace;
  }

  /** The modem's packet type and then the interrupt mask, whatever the answers. */
  lemma ReleaseSent(c: Ctx, env: Env)
    requires c.radioState == Scan
    ensures ReleaseScan(c, env).trace
         == c.trace + [(SetPktType(if c.modem == Fsk then PktGfsk else PktLora), env(c.drawn)), (SetDioIrq(c.irqMask), env(c.drawn + 1))]
  {
    hide Observe;
  }
}
