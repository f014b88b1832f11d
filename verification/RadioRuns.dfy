/** Runs of the LR11xx driver: any calls, interrupts and timer expiries in any order, and which of them
    reach the chip while a scan holds it. */
module RadioRuns {
  import opened RadioTypes
  import opened Wrappers
  import opened Radio
  import opened RadioInit

  /** Calls that leave the simulation and the cached modem, interrupt mask and frequency alone. */
  datatype Chore =
    | PowerCall(cfg: int) | StandbyCall | SleepCall | BusyCall | PayloadCall(size: nat) | SenseCall(mode: ExitMode)
    | ContinuousRxCall | DutyCall(rxTime: nat, sleepTime: nat) | CadCall | ParamsCall(param: Param, value: int)
    | CadParamsCall(mode: ExitMode) | FskSyncWordCall | LoraSyncWordCall(word: nat) | SymbolTimeoutCall

  datatype Call =
    | Do(chore: Chore) | ModemCall(modem: Modem) | FrequencyCall(freq: nat) | WaveCall(freq: nat, cfg: int)
    | TxCall | RxCall(timeout: nat) | HoldCall | ReleaseCall | InitCall(valid: bool, config: Config, cfg: int)
    | IrqCall(irq: Irq, received: RadioError) | TimerCall

  function Perform(c: Ctx, env: Env, chore: Chore): (r: Ctx)
    ensures Ordinary(c, r)
  {
    match chore
    case PowerCall(cfg) => SetTxPower(c, env, cfg).0
    case StandbyCall => GoStandby(c, env).0
    case SleepCall => GoSleep(c, env).0
    case BusyCall => SetRadioBusy(c).0
    case PayloadCall(size) => SetTxPayload(c, env, size).0
    case SenseCall(mode) => StartCarrierSense(c, env, mode).0
    case ContinuousRxCall => StartContinuousRx(c, env).0
    case DutyCall(rxTime, sleepTime) => SetRxDuty(c, env, rxTime, sleepTime).0
    case CadCall => LoraStartCad(c, env).0
    case ParamsCall(p, value) => SetParams(c, env, p, value).0
    case CadParamsCall(mode) => SetCadParams(c, env, mode).0
    case FskSyncWordCall => SetGuarded(c, env, SetFskSync).0
    case LoraSyncWordCall(word) => SetGuarded(c, env, SetLoraSync(LoraSyncByte(word))).0
    case SymbolTimeoutCall => SetGuarded(c, env, SetSyncTimeout).0
  }

  function Apply(c: Ctx, env: Env, call: Call): Ctx {
    match call
    case Do(chore) => Perform(c, env, chore)
    case ModemCall(m) => SetModemMode(c, env, m).0
    case FrequencyCall(freq) => SetFrequency(c, env, freq).0
    case WaveCall(freq, cfg) => TxContinuousWave(c, env, freq, cfg).0
    case TxCall => StartTx(c, env).0
    case RxCall(timeout) => StartRx(c, env, timeout).0
    case HoldCall => HoldScan(c, env).0
    case ReleaseCall => ReleaseScan(c, env)
    case InitCall(valid, config, cfg) => Init(c, env, valid, config, cfg).0
    case IrqCall(irq, received) => IrqProcess(c, env, irq, received)
    case TimerCall => TimerExpires(c)
  }

  function Run(c: Ctx, env: Env, calls: seq<Call>): Ctx
    decreases |calls|
  {
    if calls == [] then c else Apply(Run(c, env, calls[..|calls| - 1]), env, calls[|calls| - 1])
  }

  lemma RunThen(c: Ctx, env: Env, calls: seq<Call>, call: Call)
    ensures Run(c, env, calls + [call]) == Apply(Run(c, env, calls), env, call)
  {
    hide Apply;
    assert (calls + [call])[..|calls|] == calls;
  }

  lemma RunFour(c: Ctx, env: Env, c1: Call, c2: Call, c3: Call, c4: Call)
    ensures Run(c, env, [c1, c2, c3, c4]) == Apply(Apply(Apply(Apply(c, env, c1), env, c2), env, c3), env, c4)
  {
    hide Apply;
    RunThen(c, env, [], c1);
    RunThen(c, env, [c1], c2);
    RunThen(c, env, [c1, c2], c3);
    RunThen(c, env, [c1, c2, c3], c4);
    assert [] + [c1] == [c1] && [c1] + [c2] == [c1, c2] && [c1, c2] + [c3] == [c1, c2, c3] && [c1, c2, c3] + [c4] == [c1, c2, c3, c4];
  }

  // ------------------------------------------------------------------ exclusivity

  predicate EndsScan(call: Call) {
    call.ReleaseCall? || call.InitCall?
  }

  lemma ScanStep(c: Ctx, env: Env, call: Call)
    requires c.radioState == Scan && !EndsScan(call)
    ensures OnlySimulates(c, Apply(c, env, call))
  {
    hide Observe;
  }

  /** A scan is ended by release_scan and radio_init, always, and by nothing else. */
  lemma ScanEnds(c: Ctx, env: Env, call: Call)
    requires c.radioState == Scan
    ensures Apply(c, env, call).radioState == Scan <==> !EndsScan(call)
  {
    hide Observe, Perform;
    if !EndsScan(call) { ScanStep(c, env, call); }
  }

  lemma {:induction false} ScanQuiet(c: Ctx, env: Env, calls: seq<Call>)
    requires c.radioState == Scan
    requires forall i :: 0 <= i < |calls| ==> !EndsScan(calls[i])
    ensures OnlySimulates(c, Run(c, env, calls))
    decreases |calls|
  {
    hide Apply;
    if calls != [] {
      ScanQuiet(c, env, calls[..|calls| - 1]);
      ScanStep(Run(c, env, calls[..|calls| - 1]), env, calls[|calls| - 1]);
    }
  }

  /** The lock is granted unless the radio transmits or receives, or the pending interrupt cannot be read and
      cleared; a refusal leaves the state alone. */
  lemma HoldGranted(c: Ctx, env: Env)
    ensures var (h, err) := HoldScan(c, env);
      && (err == NoError <==> c.radioState != Tx && c.radioState != Rx && PinCleared(c, env))
      && h.radioState == if err == NoError then Scan else c.radioState
  {
    hide Observe;
  }

  /** The pin can be read and, if it is high outside a scan, is read again and cleared if still high. */
  predicate PinCleared(c: Ctx, env: Env) {
    && env(c.drawn)
    && (env(c.drawn + 1) && c.radioState != Scan ==> env(c.drawn + 2) && (env(c.drawn + 3) ==> env(c.drawn + 4)))
  }

  lemma ScanBegins(c: Ctx, env: Env, call: Call)
    requires c.radioState != Scan && Apply(c, env, call).radioState == Scan
    ensures call.HoldCall? && c.radioState != Tx && c.radioState != Rx
  {
    hide Observe, IrqProcess, Init;
  }

  /** The scan a run ends in was begun at `k`. */
  predicate HeldFrom(c: Ctx, env: Env, calls: seq<Call>, k: nat)
    requires k < |calls|
  {
    && calls[k].HoldCall?
    && Run(c, env, calls[..k]).radioState !in {Tx, Rx, Scan}
    && OnlySimulates(Run(c, env, calls[..k + 1]), Run(c, env, calls))
  }

  /** A run that ends in a scan has, since some hold_scan that found the radio neither transmitting nor
      receiving, sent no command and changed nothing but the simulation. */
  lemma {:induction false} ScanIsHeld(c: Ctx, env: Env, calls: seq<Call>)
    requires c.radioState != Scan && Run(c, env, calls).radioState == Scan
    ensures exists k: nat :: k < |calls| && HeldFrom(c, env, calls, k)
    decreases |calls|
  {
    hide Apply;
    var n := |calls| - 1;
    var before := Run(c, env, calls[..n]);
    if before.radioState == Scan {
      ScanIsHeld(c, env, calls[..n]);
      var k: nat :| k < n && HeldFrom(c, env, calls[..n], k);
      ScanEnds(before, env, calls[n]);
      ScanStep(before, env, calls[n]);
      assert calls[..n][..k] == calls[..k] && calls[..n][..k + 1] == calls[..k + 1];
      assert HeldFrom(c, env, calls, k);
    } else {
      ScanBegins(before, env, calls[n]);
      assert calls[..n + 1] == calls;
      assert HeldFrom(c, env, calls, n);
    }
  }

  // -------------------------------------------------------------- hold and release

  predicate SameConfiguration(a: Ctx, b: Ctx) {
    && a.modem == b.modem && a.irqMask == b.irqMask && a.radioFreqHz == b.radioFreqHz
    && a.paCfg == b.paCfg && a.settings == b.settings
  }

  /** The release keeps the configuration, and each of its two commands that succeeds puts its part of it
      back into the chip. */
  predicate PutsBack(c: Ctx, env: Env, held: Ctx, end: Ctx) {
    && SameConfiguration(c, end) && end.radioState == Standby
    && Observe(end.trace).pktType == (if env(held.drawn) then Some(PktTypeOf(c.modem)) else Observe(held.trace).pktType)
    && Observe(end.trace).irqMask == (if env(held.drawn + 1) then Some(c.irqMask) else Observe(held.trace).irqMask)
    && SameTuning(held.trace, end.trace)
  }

  lemma ReleasePutsBack(c: Ctx, env: Env)
    requires c.radioState == Scan
    ensures PutsBack(c, env, c, ReleaseScan(c, env))
  {
    var c1 := Chip(c, env, SetPktType(PktTypeOf(c.modem))).0;
    assert c1.trace[..|c1.trace| - 1] == c.trace;
    var c2 := Chip(c1, env, SetDioIrq(c1.irqMask)).0;
    assert c2.trace[..|c2.trace| - 1] == c1.trace;
  }

  /** Hold, any calls, release: the configuration is as it was, and back in the chip, whatever commands
      `used` the location modem has sent it meanwhile. */
  lemma HoldReleaseTransparent(c: Ctx, env: Env, calls: seq<Call>, used: seq<(Cmd, bool)>)
    requires HoldScan(c, env).1 == NoError
    requires forall i :: 0 <= i < |calls| ==> !EndsScan(calls[i])
    ensures
      var held := Run(HoldScan(c, env).0, env, calls);
      var returned := held.(trace := held.trace + used);
      && held.radioState == Scan && held.trace == HoldScan(c, env).0.trace
      && PutsBack(c, env, returned, ReleaseScan(returned, env))
  {
    hide HoldScan, ReleaseScan, Run, Observe;
    var h := HoldScan(c, env).0;
    HoldGranted(c, env);
    ScanQuiet(h, env, calls);
    var held := Run(h, env, calls);
    assert SameConfiguration(c, held);
    ReleasePutsBack(held.(trace := held.trace + used), env);
  }

  predicate MaskFitsModem(c: Ctx) {
    c.irqMask == DefaultMask(c.modem)
  }

  /** The one call that parts the interrupt mask from the modem: an init of an FSK radio one of whose answers
      fails before its clocks are set, because the modem is assigned first and the mask only then. */
  predicate InitStrandsMask(c: Ctx, env: Env, call: Call) {
    && call.InitCall? && call.valid && c.modem == Fsk
    && !Boots(env, c.drawn, call.config)
  }

  lemma MaskAfterInit(c: Ctx, env: Env, call: Call)
    requires MaskFitsModem(c) && call.InitCall?
    ensures MaskFitsModem(Apply(c, env, call)) <==> !InitStrandsMask(c, env, call)
  {
    hide Observe, InitBoot, InitRadio, Boots;
    BootStep(OutOfScan(c).(modem := Lora), env, call.config);
  }

  /** Pins that cannot be set up: a LoRa modem with the interrupt mask of FSK. */
  lemma MaskStranded(c: Ctx, env: Env)
    requires c.modem == Fsk && MaskFitsModem(c) && !env(c.drawn)
    ensures
      var r := Apply(c, env, InitCall(true, Config(false, false), 0));
      r.modem == Lora && r.irqMask == MaskFsk
  {
    hide Observe;
  }

  lemma MaskStep(c: Ctx, env: Env, call: Call)
    requires MaskFitsModem(c)
    ensures MaskFitsModem(Apply(c, env, call)) <==> !InitStrandsMask(c, env, call)
  {
    hide Observe, IrqProcess, Init, Perform, SetModemMode, TxContinuousWave, HoldScan;
    match call
    case InitCall(valid, config, cfg) => MaskAfterInit(c, env, call);
    case _ =>
  }

  /** Without such an init the mask fits the modem throughout a run. */
  lemma {:induction false} MaskInRun(c: Ctx, env: Env, calls: seq<Call>)
    requires MaskFitsModem(c)
    requires forall k: nat :: k < |calls| ==> !InitStrandsMask(Run(c, env, calls[..k]), env, calls[k])
    ensures MaskFitsModem(Run(c, env, calls))
    decreases |calls|
  {
    hide Apply, InitStrandsMask, MaskFitsModem;
    if calls != [] {
      var n := |calls| - 1;
      assert forall k: nat :: k < n ==> calls[..n][..k] == calls[..k] && calls[..n][k] == calls[k];
      MaskInRun(c, env, calls[..n]);
      MaskStep(Run(c, env, calls[..n]), env, calls[n]);
    }
  }
}
