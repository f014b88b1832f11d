/** The driver object of lr11xx_radio.c: the fields of its context, changed in place by each call. */
module RadioDriver {
  import opened RadioTypes
  import opened Wrappers
  import opened Radio
  import opened RadioInit
  import opened RadioRuns
  import opened RadioSimulation
  import opened RadioCalibration
  import opened RadioTuning
  import opened RadioCommands
  import RadioEvents

  class Driver {
    var radioState: RadioState
    var modem: Modem
    var cadExitMode: ExitMode
    var timeoutSim: TimeoutSim
    var deferredTimeout: nat
    var irqMask: IrqMask
    var radioFreqHz: nat
    var paCfg: int
    var settings: Settings
    var timerArmed: bool
    const env: Env
    var drawn: nat
    ghost var trace: seq<(Cmd, bool)>
    ghost var history: seq<Happening>

    ghost function View(): Ctx
      reads this
    {
      Ctx(radioState, modem, cadExitMode, timeoutSim, deferredTimeout, irqMask, radioFreqHz, paCfg, settings,
          timerArmed, drawn, trace, history)
    }

    /** A zeroed context. */
    constructor (env: Env)
      ensures this.env == env
      ensures View() == Ctx(Unknown, Fsk, CsOnly, SimOff, 0, MaskNone, 0, 0, map[], false, 0, [], [])
    {
      this.env := env;
      radioState, modem, cadExitMode, timeoutSim, deferredTimeout := Unknown, Fsk, CsOnly, SimOff, 0;
      irqMask, radioFreqHz, paCfg, settings, timerArmed, drawn := MaskNone, 0, 0, map[], false, 0;
      trace, history := [], [];
    }

    // ------------------------------------------------------------- foreign calls

    method Ask() returns (ok: bool)
      modifies this
      ensures (View(), ok) == Radio.Ask(old(View()), env)
    {
      ok := env(drawn);
      drawn := drawn + 1;
    }

    method Chip(cmd: Cmd) returns (ok: bool)
      modifies this
      ensures (View(), ok) == Radio.Chip(old(View()), env, cmd)
    {
      hide Observe;
      ok := env(drawn);
      drawn := drawn + 1;
      trace := trace + [(cmd, ok)];
    }

    method Commands(cmds: seq<(Cmd, RadioError)>) returns (err: RadioError)
      modifies this
      ensures (View(), err) == Radio.Commands(old(View()), env, cmds)
    {
      hide Observe;
      for i := 0 to |cmds|
        invariant Radio.Commands(old(View()), env, cmds) == Radio.Commands(View(), env, cmds[i..])
      {
        assert cmds[i..][1..] == cmds[i + 1..];
        var ok := Chip(cmds[i].0);
        if !ok { return cmds[i].1; }
      }
      return NoError;
    }

    method Report(e: Event, ghost origin: Source)
      modifies this
      ensures View() == Radio.Report(old(View()), e, origin)
    {
      history := history + [Reported(e, origin)];
    }

    method SetRadioMode() returns (err: RadioError)
      modifies this
      ensures (View(), err) == Radio.SetRadioMode(old(View()), env)
    {
      hide Observe;
      var ok := Ask();
      return if ok then NoError else IoError;
    }

    method ClearIrqStatusAll() returns (err: RadioError)
      modifies this
      ensures (View(), err) == Radio.ClearIrqStatusAll(old(View()), env)
    {
      hide Observe;
      if radioState == Scan { return NoError; }
      var readOk := Ask();
      if !readOk { return HardwareError; }
      var high := Ask();
      if !high { return NoError; }
      err := Commands([(ClearIrq, HardwareError)]);
    }

    // ------------------------------------------------------------- common paths

    method Prepare() returns (err: RadioError)
      modifies this
      ensures (View(), err) == Radio.Prepare(old(View()), env)
    {
      hide Observe, Radio.SetRadioMode, Radio.ClearIrqStatusAll;
      err := SetRadioMode();
      if err == NoError { err := ClearIrqStatusAll(); }
    }

    method Enter(cmds: seq<(Cmd, RadioError)>, next: RadioState) returns (err: RadioError)
      modifies this
      ensures (View(), err) == Radio.Enter(old(View()), env, cmds, next)
    {
      hide Observe, Radio.Commands;
      err := Commands(cmds);
      if err == NoError { radioState := next; }
    }

    method Launch(cmds: seq<(Cmd, RadioError)>, next: RadioState) returns (err: RadioError)
      requires radioState != Scan && next != Scan && Harmless(cmds)
      modifies this
      ensures (View(), err) == Radio.Launch(old(View()), env, cmds, next)
      ensures OnlyTalks(old(View()), View().(radioState := old(radioState)))
      ensures err == NoError ==> radioState == next
    {
      hide Observe, Radio.Prepare, Radio.Enter;
      err := Prepare();
      if err == NoError { err := Enter(cmds, next); }
    }

    method Listen(onPreamble: bool, cmds: seq<(Cmd, RadioError)>) returns (err: RadioError)
      requires radioState != Scan && Harmless(cmds)
      modifies this
      ensures (View(), err) == Radio.Listen(old(View()), env, onPreamble, cmds)
      ensures OnlyTalks(old(View()), View().(radioState := old(radioState)))
      ensures modem == old(modem) && cadExitMode == old(cadExitMode)
      ensures err == NoError ==> radioState == Rx
    {
      hide Observe, Radio.Commands, Radio.Launch;
      err := Commands([(StopTimeoutOnPreamble(onPreamble), HardwareError)]);
      if err == NoError { err := Launch(cmds, Rx); }
    }

    method Settle(cmd: Cmd, next: RadioState) returns (err: RadioError)
      requires radioState != Scan && next != Scan && Spares(cmd)
      modifies this
      ensures (View(), err) == Radio.Settle(old(View()), env, cmd, next)
    {
      hide Observe, Ordinary, Talks, Radio.ClearIrqStatusAll, Radio.SetRadioMode, Radio.Enter;
      err := ClearIrqStatusAll();
      if err != NoError { return; }
      err := SetRadioMode();
      if err != NoError { return; }
      err := Enter([(cmd, HardwareError)], next);
    }

    // ------------------------------------------------------- states of the radio

    method StartTimeoutSim(kind: TimeoutSim) returns (err: RadioError)
      modifies this
      ensures (View(), err) == Radio.StartTimeoutSim(old(View()), env, kind)
      ensures err == NoError ==> timeoutSim == kind && timerArmed
      ensures err != NoError ==> timeoutSim == old(timeoutSim) && timerArmed == old(timerArmed)
      ensures err == if env(old(drawn)) then NoError else IoError
    {
      hide Observe;
      var ok := Ask();
      if !ok { return IoError; }
      timeoutSim, timerArmed := kind, true;
      history := history + [Armed(kind)];
      return NoError;
    }

    method StartTx() returns (err: RadioError)
      modifies this
      ensures (View(), err) == Radio.StartTx(old(View()), env)
      ensures old(radioState) == Scan ==> trace == old(trace) && radioState == Scan
      ensures old(radioState) == Scan && err == NoError ==> timeoutSim == SimTx && timerArmed && !old(timerArmed)
      ensures old(radioState) == Scan ==> (err == NoError <==> !old(timerArmed) && env(old(drawn))) && err in {NoError, Busy}
      ensures old(radioState) != Scan ==> (err == NoError <==> LaunchesOne(env, old(drawn)))
      ensures old(radioState) != Scan && err == NoError ==>
        radioState == Tx && trace == old(trace) + Cleared(env, old(drawn) + 2) + [(SetTx, true)]
    {
      hide Observe, Radio.StartTimeoutSim, Radio.Launch, LaunchesOne, Cleared;
      if radioState != Scan { OneLaunch(View(), env, SetTx, Tx); }
      if radioState == Scan {
        if timerArmed { return Busy; }
        err := StartTimeoutSim(SimTx);
        if err != NoError { err := Busy; }
      } else {
        err := Launch([(SetTx, HardwareError)], Tx);
      }
    }

    method StartRx(timeout: nat) returns (err: RadioError)
      modifies this
      ensures (View(), err) == Radio.StartRx(old(View()), env, timeout)
      ensures old(radioState) == Scan ==> trace == old(trace) && radioState == Scan
      ensures old(radioState) == Scan && err == NoError ==> timeoutSim == SimRx && timerArmed && !old(timerArmed)
      ensures old(radioState) == Scan && old(timerArmed) ==> err == HardwareError && deferredTimeout == timeout
      ensures old(radioState) == Scan ==> (err == NoError <==> !old(timerArmed) && env(old(drawn)))
      ensures old(radioState) != Scan ==> (err == NoError <==> env(old(drawn)) && LaunchesOne(env, old(drawn) + 1))
      ensures old(radioState) != Scan && err == NoError ==>
        && radioState == Rx
        && trace == old(trace) + [(StopTimeoutOnPreamble(old(modem) == Fsk), true)] + Cleared(env, old(drawn) + 3) + [(SetRx, true)]
    {
      hide Observe, Radio.StartTimeoutSim, Radio.Listen, LaunchesOne, Cleared;
      if radioState != Scan { OneListen(View(), env, modem == Fsk); }
      if radioState == Scan {
        if timerArmed {
          deferredTimeout := timeout;
          return HardwareError;
        }
        err := StartTimeoutSim(SimRx);
      } else {
        err := Listen(modem == Fsk, [(SetRx, HardwareError)]);
      }
    }

    method GoStandby() returns (err: RadioError)
      modifies this
      ensures (View(), err) == Radio.GoStandby(old(View()), env)
      ensures old(radioState) == Scan ==> View() == old(View())
      ensures old(radioState) != Scan && err == NoError ==> radioState == Standby
      ensures old(radioState) == Standby ==> err == NoError && trace == old(trace)
      ensures old(radioState) != Scan && old(radioState) != Standby ==>
        var asleep := old(radioState) == Sleep;
        var d := old(drawn) + if asleep then 1 else 0;
        && (err == NoError <==> (asleep ==> env(old(drawn))) && Clears(env, d) && env(AfterClear(env, d)) && env(AfterClear(env, d) + 1))
        && (err == NoError ==>
            trace == old(trace) + (if asleep then [(Wakeup, true)] else []) + Cleared(env, d + 1) + [(SetStandby, true)])
    {
      hide Observe, Radio.Enter, Radio.Settle, Clears, AfterClear, Cleared;
      if radioState != Scan && radioState != Standby { StandbySent(View(), env); }
      if radioState == Scan || radioState == Standby { return NoError; }
      if radioState == Sleep {
        err := Enter([(Wakeup, HardwareError)], Unknown);
        if err != NoError { return; }
      }
      err := Settle(SetStandby, Standby);
    }

    method GoSleep() returns (err: RadioError)
      modifies this
      ensures (View(), err) == Radio.GoSleep(old(View()), env)
      ensures old(radioState) == Scan ==> View() == old(View())
      ensures old(radioState) != Scan && err == NoError ==> radioState == Sleep
      ensures old(radioState) == Sleep ==> err == NoError && trace == old(trace)
      ensures old(radioState) != Scan && old(radioState) != Sleep ==>
        var d := old(drawn);
        && (err == NoError <==> Clears(env, d) && env(AfterClear(env, d)) && env(AfterClear(env, d) + 1))
        && (err == NoError ==> trace == old(trace) + Cleared(env, d + 1) + [(SetSleep, true)])
    {
      hide Observe, Radio.Settle, Clears, AfterClear, Cleared;
      if radioState != Scan { SettleSends(View(), env, SetSleep, Sleep); }
      if radioState == Scan || radioState == Sleep { return NoError; }
      err := Settle(SetSleep, Sleep);
    }

    method SetRadioBusy() returns (err: RadioError)
      modifies this
      ensures (View(), err) == Radio.SetRadioBusy(old(View()))
      ensures err == NoError <==> old(radioState) == Standby
      ensures View() == old(View()).(radioState := if err == NoError then BusyState else old(radioState))
    {
      hide Observe;
      if radioState != Standby { return InvalidState; }
      radioState := BusyState;
      return NoError;
    }

    method SetTxPayload(size: nat) returns (err: RadioError)
      modifies this
      ensures (View(), err) == Radio.SetTxPayload(old(View()), env, size)
      ensures err == InvalidParams <==> size == 0
      ensures old(radioState) == Scan ==> View() == old(View())
      ensures old(radioState) != Scan && size > 0 ==>
        trace == old(trace) + [(WriteBuffer, env(old(drawn)))] && (err == NoError <==> env(old(drawn)))
    {
      hide Observe, Radio.Commands;
      OneCommand(View(), env, WriteBuffer, IoError);
      if size == 0 { return InvalidParams; }
      if radioState == Scan { return NoError; }
      err := Commands([(WriteBuffer, IoError)]);
    }

    method StartCarrierSense(mode: ExitMode) returns (err: RadioError)
      modifies this
      ensures (View(), err) == Radio.StartCarrierSense(old(View()), env, mode)
      ensures old(radioState) == Scan ==> err == Busy && View() == old(View())
      ensures err == NoError ==> modem == Fsk && radioState == Rx && cadExitMode == mode
      ensures err != NoError ==> cadExitMode == old(cadExitMode)
      ensures old(radioState) != Scan ==> (err == InvalidParams <==> modem != Fsk || mode == CsLbtRx || mode == NoMode)
      ensures err == NoError ==>
        trace == old(trace) + [(StopTimeoutOnPreamble(true), true)] + Cleared(env, old(drawn) + 3) + [(SetDioIrq(MaskAll), true), (SetRx, true)]
    {
      hide Observe, Ordinary, OnlyTalks, IsCadExitMode, Radio.Listen, Cleared;
      if radioState != Scan { SenseSent(View(), env, mode); }
      if radioState == Scan { return Busy; }
      if modem != Fsk || !IsCadExitMode(mode) { return InvalidParams; }
      err := Listen(true, [(SetDioIrq(MaskAll), IoError), (SetRx, HardwareError)]);
      if err == NoError { cadExitMode := mode; }
    }

    method StartContinuousRx() returns (err: RadioError)
      modifies this
      ensures (View(), err) == Radio.StartContinuousRx(old(View()), env)
      ensures old(radioState) == Scan ==> err == Busy && View() == old(View())
      ensures old(radioState) != Scan ==> (err == NoError <==> env(old(drawn)) && LaunchesOne(env, old(drawn) + 1))
      ensures err == NoError ==>
        && radioState == Rx
        && trace == old(trace) + [(StopTimeoutOnPreamble(old(modem) == Fsk), true)] + Cleared(env, old(drawn) + 3) + [(SetRx, true)]
    {
      hide Observe, Radio.Listen, LaunchesOne, Cleared;
      if radioState != Scan { OneListen(View(), env, modem == Fsk); }
      if radioState == Scan { return Busy; }
      err := Listen(modem == Fsk, [(SetRx, HardwareError)]);
    }

    method SetRxDuty(rxTime: nat, sleepTime: nat) returns (err: RadioError)
      modifies this
      ensures (View(), err) == Radio.SetRxDuty(old(View()), env, rxTime, sleepTime)
      ensures old(radioState) == Scan ==> err == Busy && View() == old(View())
      ensures old(radioState) != Scan ==> (err == NoError <==> rxTime > 0 && sleepTime > 0 && LaunchesOne(env, old(drawn)))
      ensures err == NoError ==>
        radioState == RxDc && trace == old(trace) + Cleared(env, old(drawn) + 2) + [(SetRxDutyCycle, true)]
    {
      hide Observe, Radio.Launch, LaunchesOne, Cleared;
      if radioState != Scan { OneLaunch(View(), env, SetRxDutyCycle, RxDc); }
      if radioState == Scan { return Busy; }
      if rxTime == 0 || sleepTime == 0 { return InvalidParams; }
      err := Launch([(SetRxDutyCycle, HardwareError)], RxDc);
    }

    method LoraStartCad() returns (err: RadioError)
      modifies this
      ensures (View(), err) == Radio.LoraStartCad(old(View()), env)
      ensures old(radioState) == Scan ==> err == Busy && View() == old(View())
      ensures old(radioState) != Scan ==> (err == NoError <==> LaunchesOne(env, old(drawn)))
      ensures err == NoError ==> radioState == Cad && trace == old(trace) + Cleared(env, old(drawn) + 2) + [(SetCad, true)]
    {
      hide Observe, Radio.Launch, LaunchesOne, Cleared;
      if radioState != Scan { OneLaunch(View(), env, SetCad, Cad); }
      if radioState == Scan { return Busy; }
      err := Launch([(SetCad, HardwareError)], Cad);
    }

    // -------------------------------------------------------------- configuration

    method SetModemMode(m: Modem) returns (err: RadioError)
      modifies this
      ensures (View(), err) == Radio.SetModemMode(old(View()), env, m)
      ensures old(radioState) == Scan ==> err == NoError && View() == old(View())
      ensures old(radioState) != Scan ==> (err == NoError <==> env(old(drawn)) && env(old(drawn) + 1))
      ensures old(radioState) != Scan && err == NoError ==>
        && modem == m && irqMask == (if m == Fsk then MaskFsk else MaskLora)
        && trace == old(trace) + [(SetPktType(if m == Fsk then PktGfsk else PktLora), true), (SetDioIrq(irqMask), true)]
      ensures MaskFitsModem(old(View())) ==> MaskFitsModem(View())
    {
      hide Observe, Ordinary, Radio.Commands;
      if radioState != Scan { ModemSent(View(), env, m); }
      if radioState == Scan { return NoError; }
      err := Commands([(SetPktType(PktTypeOf(m)), HardwareError)]);
      if err != NoError { return; }
      modem, irqMask := m, DefaultMask(m);
      err := Commands([(SetDioIrq(irqMask), IoError)]);
    }

    /** The bands are searched in order. */
    method FreqBand(freq: nat) returns (r: Option<nat>)
      ensures r == Radio.FreqBand(freq)
    {
      for i := 0 to |BANDS|
        invariant forall j: nat :: j < i ==> !InBand(freq, j)
      {
        if BANDS[i].0 <= freq <= BANDS[i].1 {
          assert InBand(freq, i);
          return Some(i);
        }
      }
      return None;
    }

    method SetFrequency(freq: nat) returns (err: RadioError)
      modifies this
      ensures (View(), err) == Radio.SetFrequency(old(View()), env, freq)
      ensures old(radioState) != Scan && err == NoError ==> radioFreqHz == freq && Radio.FreqBand(freq).Some?
      ensures err != NoError ==> radioFreqHz == old(radioFreqHz)
      ensures forall cov :: Agrees(old(View()), cov) ==> (Agrees(View(), cov) <==> !StrandsTuning(old(View()), env, freq))
      ensures old(radioState) == Scan ==> err == NoError && View() == old(View())
      ensures old(radioState) != Scan ==>
        && (err == NoError <==> Tunable(old(View()), freq) && TuningAnswers(old(View()), env, freq))
        && (err == InvalidState <==> old(radioState) != Standby)
        && (err == InvalidParams <==> old(radioState) == Standby && Radio.FreqBand(freq).None?)
      ensures old(radioState) != Scan && err == NoError ==>
        trace == old(trace) + Recalibrated(old(View()), freq) + [(SetRfFreq(freq), true)]
    {
      hide Observe, Radio.FreqBand, Radio.Chip, Recalibrated, TuningAnswers;
      if radioState != Scan { FrequencySent(View(), env, freq); }
      forall cov | Agrees(View(), cov)
        ensures Agrees(Radio.SetFrequency(View(), env, freq).0, cov) <==> !StrandsTuning(View(), env, freq)
      {
        TuningStep(View(), env, freq, cov);
      }
      if radioState == Scan { return NoError; }
      if radioState != Standby { return InvalidState; }
      var current := FreqBand(radioFreqHz);
      var band := FreqBand(freq);
      if band == None { return InvalidParams; }
      if current != band {
        var ok := Chip(CalibrateImage(band.value));
        if !ok { return HardwareError; }
      }
      var ok := Chip(SetRfFreq(freq));
      if !ok { return HardwareError; }
      radioFreqHz := freq;
      return NoError;
    }

    method SetTxPower(cfg: int) returns (err: RadioError)
      modifies this
      ensures (View(), err) == Radio.SetTxPower(old(View()), env, cfg)
      ensures old(radioState) == Scan ==> err == NoError && View() == old(View())
      ensures old(radioState) != Scan ==>
        && (err == NoError <==> old(radioState) == Standby && env(old(drawn)) && env(old(drawn) + 1) && env(old(drawn) + 2))
        && (err == InvalidState <==> old(radioState) != Standby)
        && (err == NoError ==> paCfg == cfg && trace == old(trace) + [(SetPaCfg, true), (SetTxParams, true)])
      ensures radioState == old(radioState)
    {
      hide Observe, Radio.Commands;
      if radioState != Scan { PowerSent(View(), env, cfg); }
      if radioState == Scan { return NoError; }
      if radioState != Standby { return InvalidState; }
      var ok := Ask();
      if !ok { return InvalidParams; }
      paCfg := cfg;
      err := Commands([(SetPaCfg, IoError), (SetTxParams, IoError)]);
    }

    method Carrier(cfg: int) returns (err: RadioError)
      requires radioState != Scan
      modifies this
      ensures (View(), err) == Radio.Carrier(old(View()), env, cfg)
      ensures radioFreqHz == old(radioFreqHz)
      ensures err == NoError ==> radioState == Tx
    {
      hide Observe, Radio.SetTxPower, Radio.Commands, Radio.Launch;
      err := SetTxPower(cfg);
      if err != NoError { return Generic; }
      err := Commands([(SetStandby, HardwareError)]);
      if err != NoError { return; }
      err := Launch([(SetTxCw, HardwareError)], Tx);
    }

    method TxContinuousWave(freq: nat, cfg: int) returns (err: RadioError)
      modifies this
      ensures (View(), err) == Radio.TxContinuousWave(old(View()), env, freq, cfg)
      ensures old(radioState) == Scan ==> err == Busy && View() == old(View())
      ensures err == NoError ==> old(radioState) == Standby && radioState == Tx && radioFreqHz == freq && paCfg == cfg
      ensures old(radioState) != Scan ==>
        var d := old(drawn) + |Recalibrated(old(View()), freq)| + 1;
        && (err == NoError <==> Tunable(old(View()), freq) && TuningAnswers(old(View()), env, freq) && CarrierAnswers(env, d))
        && (err == NoError ==>
            trace == old(trace) + Recalibrated(old(View()), freq)
                     + [(SetRfFreq(freq), true), (SetPaCfg, true), (SetTxParams, true), (SetStandby, true)] + Cleared(env, d + 6)
                     + [(SetTxCw, true)])
    {
      hide Observe, Radio.SetFrequency, Radio.Carrier, Recalibrated, TuningAnswers, CarrierAnswers, Cleared;
      if radioState != Scan { WaveSent(View(), env, freq, cfg); }
      if radioState == Scan { return Busy; }
      err := SetFrequency(freq);
      if err != NoError { return Generic; }
      err := Carrier(cfg);
    }

    method SetParams(p: Param, value: int) returns (err: RadioError)
      modifies this
      ensures (View(), err) == Radio.SetParams(old(View()), env, p, value)
      ensures old(radioState) == Scan ==> View() == old(View())
      ensures forall q :: q in old(settings) && q != p ==> q in settings && settings[q] == old(settings)[q]
      ensures old(radioState) != Scan ==>
        && (err == NoError <==> env(old(drawn)))
        && trace == old(trace) + [(if p == FskMod || p == LoraMod then SetModulation else SetPacket, env(old(drawn)))]
        && (err == NoError ==> p in settings && settings[p] == value)
        && (err != NoError ==> settings == old(settings))
    {
      hide Observe, Ordinary, Radio.Commands;
      OneCommand(View(), env, if p == FskMod || p == LoraMod then SetModulation else SetPacket, HardwareError);
      if radioState == Scan { return NoError; }
      err := Commands([(if p == FskMod || p == LoraMod then SetModulation else SetPacket, HardwareError)]);
      if err == NoError { settings := settings[p := value]; }
    }

    method SetCadParams(mode: ExitMode) returns (err: RadioError)
      modifies this
      ensures (View(), err) == Radio.SetCadParams(old(View()), env, mode)
      ensures old(radioState) == Scan ==> err == NoError && View() == old(View())
      ensures old(radioState) != Scan ==>
        && (err == InvalidParams <==> mode !in {CsOnly, CsRx, CsLbt})
        && (err == InvalidParams ==> View() == old(View()))
        && (err != InvalidParams ==>
            cadExitMode == mode && trace == old(trace) + [(CfgCad, env(old(drawn)))] && (err == NoError <==> env(old(drawn))))
    {
      hide Observe, Ordinary, OnlyTalks, Radio.Commands;
      OneCommand(View().(cadExitMode := mode), env, CfgCad, HardwareError);
      if radioState == Scan { return NoError; }
      if mode != CsOnly && mode != CsRx && mode != CsLbt { return InvalidParams; }
      cadExitMode := mode;
      err := Commands([(CfgCad, HardwareError)]);
    }

    method SetGuarded(cmd: Cmd) returns (err: RadioError)
      requires Spares(cmd)
      modifies this
      ensures (View(), err) == Radio.SetGuarded(old(View()), env, cmd)
      ensures old(radioState) == Scan ==> err == NoError && View() == old(View())
      ensures old(radioState) != Scan ==> trace == old(trace) + [(cmd, env(old(drawn)))] && (err == NoError <==> env(old(drawn)))
    {
      hide Observe, Radio.Commands;
      OneCommand(View(), env, cmd, HardwareError);
      if radioState == Scan { return NoError; }
      err := Commands([(cmd, HardwareError)]);
    }

    // ------------------------------------------------------------ scan arbitration

    method HoldScan() returns (err: RadioError)
      modifies this
      ensures (View(), err) == Radio.HoldScan(old(View()), env)
      ensures err == NoError ==> old(radioState) != Tx && old(radioState) != Rx && radioState == Scan
      ensures err != NoError ==> radioState == old(radioState)
      ensures SameConfiguration(old(View()), View())
      ensures err == NoError && old(radioState) != Scan ==>
        trace == old(trace) + if env(old(drawn) + 1) then Cleared(env, old(drawn) + 3) else []
    {
      HoldPromises(View(), env);
      hide Observe, Ordinary, Talks, OnlySimulates, SameConfiguration, Radio.ClearIrqStatusAll, Cleared;
      var readOk := Ask();
      if !readOk { return Generic; }
      var high := Ask();
      if high {
        err := ClearIrqStatusAll();
        if err != NoError { return Generic; }
      }
      if radioState == Tx || radioState == Rx { return Generic; }
      radioState := Scan;
      return NoError;
    }

    method ReleaseScan()
      modifies this
      ensures View() == Radio.ReleaseScan(old(View()), env)
      ensures if old(radioState) == Scan then PutsBack(old(View()), env, old(View()), View()) else View() == old(View())
      ensures old(radioState) == Scan ==>
        trace == old(trace) + [(SetPktType(if modem == Fsk then PktGfsk else PktLora), env(old(drawn))), (SetDioIrq(irqMask), env(old(drawn) + 1))]
    {
      hide Observe, Radio.Chip;
      if radioState == Scan { ReleasePutsBack(View(), env); ReleaseSent(View(), env); }
      if radioState != Scan { return; }
      var _ := Chip(SetPktType(PktTypeOf(modem)));
      var _ := Chip(SetDioIrq(irqMask));
      radioState := Standby;
    }

    // ----------------------------------------------------------------------- init

    method AskThen(failure: RadioError) returns (err: RadioError)
      modifies this
      ensures (View(), err) == Radio.AskThen(old(View()), env, failure)
    {
      hide Observe;
      var ok := Ask();
      return if ok then NoError else failure;
    }

    method InitReset() returns (err: RadioError)
      modifies this
      ensures (View(), err) == Radio.InitReset(old(View()), env)
    {
      hide Observe, Radio.AskThen, Radio.SetRadioMode, Radio.Chip;
      err := AskThen(InvalidParams);
      if err != NoError { return; }
      err := SetRadioMode();
      if err != NoError { return; }
      var ok := Chip(Reset);
      err := if ok then NoError else IoError;
    }

    method ClearStartup() returns (err: RadioError)
      modifies this
      ensures (View(), err) == Radio.ClearStartup(old(View()), env)
    {
      hide Observe, Radio.Chip;
      var raised := Ask();
      if !raised { return NoError; }
      var ok := Chip(GetAndClearIrq);
      if !ok { return IoError; }
      var failed := Ask();
      if failed {
        var _ := Chip(GetErrors);
        var _ := Chip(ClearErrors);
      }
      return NoError;
    }

    method InitVersion() returns (err: RadioError)
      modifies this
      ensures (View(), err) == Radio.InitVersion(old(View()), env)
    {
      hide Observe, Radio.Chip, Radio.AskThen;
      var ok := Chip(GetVersion);
      if !ok { return IoError; }
      err := AskThen(IoError);
    }

    method InitTcxo() returns (err: RadioError)
      modifies this
      ensures (View(), err) == Radio.InitTcxo(old(View()), env)
    {
      hide Observe, Radio.Chip;
      var ok := Chip(SetTcxo);
      if !ok { return IoError; }
      ok := Chip(CalibrateAll);
      if !ok { return IoError; }
      ok := Chip(SetFallback);
      return if ok then NoError else IoError;
    }

    method InitClocks(config: Config) returns (err: RadioError)
      modifies this
      ensures (View(), err) == Radio.InitClocks(old(View()), env, config)
    {
      hide Observe, Radio.Chip, Radio.InitTcxo;
      if config.tcxo {
        err := InitTcxo();
        if err != NoError { return; }
      }
      var ok := Chip(CfgLfclk);
      return if ok then NoError else IoError;
    }

    method InitChip(config: Config) returns (err: RadioError)
      modifies this
      ensures (View(), err) == Radio.InitChip(old(View()), env, config)
    {
      hide Observe, Radio.InitVersion, Radio.ClearStartup, Radio.InitClocks;
      err := InitVersion();
      if err != NoError { return; }
      err := ClearStartup();
      if err != NoError { return; }
      err := InitClocks(config);
    }

    method InitRadio(config: Config, cfg: int) returns (err: RadioError)
      requires radioState != Scan
      modifies this
      ensures (View(), err) == Radio.InitRadio(old(View()), env, config, cfg)
    {
      hide Observe, Radio.AskThen, Radio.Chip, Radio.Commands, RegulatorCmds, Radio.InitStandby;
      irqMask := MaskLora;
      err := AskThen(IoError);
      if err != NoError { return; }
      var ok := Chip(SetStandby);
      if !ok { return NoError; }
      err := Commands(RegulatorCmds(config));
      if err != NoError { return; }
      radioState := Unknown;
      err := InitStandby(cfg);
    }

    method InitStandby(cfg: int) returns (err: RadioError)
      requires radioState == Unknown
      modifies this
      ensures (View(), err) == Radio.InitStandby(old(View()), env, cfg)
    {
      hide Observe, Radio.GoStandby, Radio.Chip, Radio.InitFinish;
      err := GoStandby();
      if err != NoError { return; }
      var ok := Chip(CfgRxBoosted);
      if !ok { return NoError; }
      err := InitFinish(cfg);
    }

    method InitFinish(cfg: int) returns (err: RadioError)
      requires radioState != Scan
      modifies this
      ensures (View(), err) == Radio.InitFinish(old(View()), env, cfg)
    {
      hide Observe, Radio.SetTxPower, Radio.Commands;
      err := SetTxPower(cfg);
      if err != NoError { return; }
      err := Commands([(GetAndClearIrq, HardwareError), (SetDioIrq(irqMask), IoError), (DriveDio, IoError)]);
      if err != NoError { return; }
      var ok := Ask();
      if !ok { return NoError; }
      timerArmed, deferredTimeout := false, 0;
    }

    method Init(valid: bool, config: Config, cfg: int) returns (err: RadioError)
      modifies this
      ensures (View(), err) == Radio.Init(old(View()), env, valid, config, cfg)
      ensures radioState != Scan && radioFreqHz == old(radioFreqHz) && timeoutSim == old(timeoutSim)
      ensures Observe(trace).calibrated == if valid then ImageAfterInit(env, old(drawn), config, Observe(old(trace)).calibrated) else Observe(old(trace)).calibrated
    {
      hide Observe, Initialises, Radio.InitReset, Radio.InitChip, Radio.InitRadio;
      InitImage(View(), env, valid, config, cfg);
      if radioState == Scan { radioState := Unknown; }
      if !valid { return InvalidParams; }
      modem := Lora;
      err := InitReset();
      if err != NoError { return; }
      err := InitChip(config);
      if err != NoError { return; }
      err := InitRadio(config, cfg);
    }

    // ----------------------------------------------------------------- interrupts

    method SimPart() returns (event: Option<Event>)
      modifies this
      ensures (View(), event) == Radio.SimPart(old(View()), env)
    {
      hide Observe, Ordinary, OnlySimulates, OrdinaryOrSimulates, Radio.StartTimeoutSim, Radio.StartTx;
      if timeoutSim == SimRx {
        timeoutSim := SimOff;
        if deferredTimeout != 0 {
          var _ := StartTimeoutSim(SimRx);
          deferredTimeout := 0;
        }
        if cadExitMode == CsLbt {
          cadExitMode := NoMode;
          var _ := StartTx();
          return None;
        }
        Report(RxTimeout, BySimulation);
        return Some(RxTimeout);
      } else if timeoutSim == SimTx {
        timeoutSim := SimOff;
        Report(TxDone, BySimulation);
        return Some(TxDone);
      }
      return None;
    }

    method WithScanDone(irq: Irq)
      requires radioState != Scan
      modifies this
      ensures View() == Radio.WithScanDone(old(View()), env, irq)
    {
      hide Observe, Radio.Chip;
      if irq.wifiScanDone {
        radioState := BusyState;
        var _ := Chip(SetPktType(PktTypeOf(modem)));
      }
      if irq.gnssScanDone {
        radioState := BusyState;
        var _ := Chip(SetPktType(PktTypeOf(modem)));
      }
    }

    method LoraPart(irq: Irq) returns (o: Outcome)
      requires radioState != Scan
      modifies this
      ensures (View(), o) == Radio.LoraPart(old(View()), env, irq)
    {
      hide Observe, Radio.StartTx, Radio.Chip, Radio.WithScanDone;
      if irq.cadDone {
        o := Assign(Some(if irq.cadDetected then CadDone else CadTimeout));
        if cadExitMode == CsLbt && !irq.cadDetected {
          o := Assign(None);
          var _ := StartTx();
        }
        cadExitMode := NoMode;
      } else if irq.rxDone {
        var ok := Chip(ReadPacket);
        o := if ok then Assign(Some(RxDone)) else Keep;
      } else {
        WithScanDone(irq);
        o := Keep;
      }
    }

    method FskPart(irq: Irq, received: RadioError) returns (o: Outcome)
      requires radioState != Scan
      modifies this
      ensures (View(), o) == Radio.FskPart(old(View()), env, irq, received)
    {
      hide Observe, Radio.GoStandby, Radio.Chip, Radio.WithScanDone;
      if irq.syncWord {
        var _ := Chip(ReadSyncWord);
        return Keep;
      }
      if irq.preamble {
        if cadExitMode != CsLbt { return Keep; }
        cadExitMode := NoMode;
        var _ := GoStandby();
        return Assign(Some(CsDone));
      }
      o := Keep;
      if irq.rxDone {
        var _ := Chip(ReadPacket);
        if received == NoError { o := Assign(Some(RxDone)); }
        else if received == Generic { o := Assign(Some(RxError)); }
      }
      WithScanDone(irq);
    }

    method FlagPart(irq: Irq, received: RadioError) returns (o: Outcome)
      requires radioState != Scan
      modifies this
      ensures (View(), o) == Radio.FlagPart(old(View()), env, irq, received)
    {
      hide Observe, Ordinary, OnlySimulates, OrdinaryOrSimulates, Radio.StartTx, Radio.LoraPart, Radio.FskPart;
      if irq.txDone { return Assign(Some(TxDone)); }
      if irq.crcError { return Assign(Some(RxError)); }
      if irq.timeout {
        if radioState == Tx { return Assign(Some(TxTimeout)); }
        if cadExitMode != CsLbt { return Assign(Some(RxTimeout)); }
        cadExitMode := NoMode;
        var _ := StartTx();
        return Assign(None);
      }
      if irq.headerError { return Assign(Some(RxTimeout)); }
      if modem == Lora { o := LoraPart(irq); } else { o := FskPart(irq, received); }
    }

    method ReadIrq(irq: Irq) returns (err: RadioError)
      modifies this
      ensures (View(), err) == Radio.ReadIrq(old(View()), env, irq)
    {
      hide Observe, Radio.Chip;
      var ok := Chip(SetDioIrq(MaskNone));
      if !ok { return IoError; }
      ok := Chip(GetAndClearIrq);
      if !ok { return HardwareError; }
      if irq.error {
        var _ := Chip(GetErrors);
        var _ := Chip(ClearErrors);
      }
      return NoError;
    }

    /** The part of irq_process after the simulated timeout, which has left `stale` in the event variable. */
    method ServeChip(irq: Irq, received: RadioError, stale: Option<Event>)
      requires radioState != Scan
      modifies this
      ensures var (c, o) := Radio.ChipPart(old(View()), env, irq, received); View() == Radio.Tail(c, env, stale, o)
    {
      hide Observe, Ordinary, Radio.ReadIrq, Radio.FlagPart, Radio.Commands;
      var event, o := stale, Keep;
      var err := ReadIrq(irq);
      if err == NoError { o := FlagPart(irq, received); }
      if o.Assign? { event := o.e; }
      if event.Some? { Report(event.value, if o.Keep? then Leftover else ByChip); }
      if radioState != Sleep { var _ := Commands([(SetDioIrq(irqMask), IoError)]); }
    }

    method IrqProcess(irq: Irq, received: RadioError)
      modifies this
      ensures View() == Radio.IrqProcess(old(View()), env, irq, received)
      ensures old(radioState) != Scan && old(timeoutSim) == SimOff ==> forall e ::
        history == old(history) + [Reported(e, ByChip)] <==> RadioEvents.Calls(e, old(View()), env, old(drawn), irq, received)
      ensures old(radioState) != Scan ==>
        irqMask == old(irqMask) && (radioState != Sleep ==> |trace| > 0 && trace[|trace| - 1].0 == SetDioIrq(irqMask))
      ensures old(radioState) == Scan ==> trace == old(trace) && radioState == Scan
    {
      hide Observe, RadioEvents.Calls, Ordinary, OnlySimulates, OrdinaryOrSimulates, Radio.SimPart, Radio.ChipPart, Radio.Tail;
      IrqPromises(View(), env, irq, received);
      var event := SimPart();
      if radioState == Scan { return; }
      ServeChip(irq, received, event);
    }

    method TimerExpires()
      modifies this
      ensures View() == Radio.TimerExpires(old(View()))
    {
      hide Observe;
      timerArmed := false;
    }

    // ----------------------------------------------------------------- any call

    method Do(chore: Chore)
      modifies this
      ensures View() == Perform(old(View()), env, chore)
    {
      hide Observe, Ordinary, Radio.SetTxPower, Radio.GoStandby, Radio.GoSleep, Radio.SetRadioBusy, Radio.SetTxPayload,
        Radio.StartCarrierSense, Radio.StartContinuousRx, Radio.SetRxDuty, Radio.LoraStartCad, Radio.SetParams,
        Radio.SetCadParams, Radio.SetGuarded;
      var err: RadioError;
      match chore
      case PowerCall(cfg) => err := SetTxPower(cfg);
      case StandbyCall => err := GoStandby();
      case SleepCall => err := GoSleep();
      case BusyCall => err := SetRadioBusy();
      case PayloadCall(size) => err := SetTxPayload(size);
      case SenseCall(mode) => err := StartCarrierSense(mode);
      case ContinuousRxCall => err := StartContinuousRx();
      case DutyCall(rxTime, sleepTime) => err := SetRxDuty(rxTime, sleepTime);
      case CadCall => err := LoraStartCad();
      case ParamsCall(p, value) => err := SetParams(p, value);
      case CadParamsCall(mode) => err := SetCadParams(mode);
      case FskSyncWordCall => err := SetGuarded(SetFskSync);
      case LoraSyncWordCall(word) => err := SetGuarded(SetLoraSync(LoraSyncByte(word)));
      case SymbolTimeoutCall => err := SetGuarded(SetSyncTimeout);
    }

    /** Any one call, and what every call keeps. */
    method Handle(call: Call)
      modifies this
      ensures View() == Apply(old(View()), env, call)
      ensures old(radioState) == Scan && !EndsScan(call) ==> OnlySimulates(old(View()), View())
      ensures old(radioState) != Scan && radioState == Scan ==> call.HoldCall? && old(radioState) != Tx && old(radioState) != Rx
      ensures MaskFitsModem(old(View())) ==> (MaskFitsModem(View()) <==> !InitStrandsMask(old(View()), env, call))
      ensures Missing(View()) == Missing(old(View())) + if Loses(old(View()), env, call) then 1 else 0
    {
      Promises(View(), env, call);
      Dispatch(call);
    }

    method Dispatch(call: Call)
      modifies this
      ensures View() == Apply(old(View()), env, call)
    {
      hide Observe, Perform, Radio.SetModemMode, Radio.SetFrequency, Radio.TxContinuousWave, Radio.StartTx, Radio.StartRx,
        Radio.HoldScan, Radio.ReleaseScan, Radio.Init, Radio.IrqProcess;
      var err: RadioError;
      match call
      case Do(chore) => Do(chore);
      case ModemCall(m) => err := SetModemMode(m);
      case FrequencyCall(freq) => err := SetFrequency(freq);
      case WaveCall(freq, cfg) => err := TxContinuousWave(freq, cfg);
      case TxCall => err := StartTx();
      case RxCall(timeout) => err := StartRx(timeout);
      case HoldCall => err := HoldScan();
      case ReleaseCall => ReleaseScan();
      case InitCall(valid, config, cfg) => err := Init(valid, config, cfg);
      case IrqCall(irq, received) => IrqProcess(irq, received);
      case TimerCall => TimerExpires();
    }

    /** Any calls, and what every run keeps. */
    method RunCalls(calls: seq<Call>)
      modifies this
      ensures View() == Run(old(View()), env, calls)
      ensures old(radioState) == Scan && (forall i :: 0 <= i < |calls| ==> !EndsScan(calls[i])) ==>
        && trace == old(trace) && radioState == Scan && modem == old(modem) && irqMask == old(irqMask)
        && radioFreqHz == old(radioFreqHz) && paCfg == old(paCfg) && settings == old(settings)
      ensures Fresh(old(View())) ==> Reports(history, BySimulation) + (if timeoutSim == SimOff then 0 else 1) <= Armings(history)
    {
      hide Run, Apply, Observe;
      ghost var start := View();
      RunNone(start, env);
      assert calls[..0] == [];
      for n := 0 to |calls|
        invariant View() == Run(start, env, calls[..n])
      {
        RunThen(start, env, calls[..n], calls[n]);
        assert calls[..n] + [calls[n]] == calls[..n + 1];
        Dispatch(calls[n]);
      }
      assert calls[..|calls|] == calls;
      if start.radioState == Scan && forall i :: 0 <= i < |calls| ==> !EndsScan(calls[i]) {
        ScanQuiet(start, env, calls);
      }
      if Fresh(start) { SimulatedEventsConserved(start, env, calls); }
    }

    /** A scan: the lock, whatever is called meanwhile, and the release. If the lock is granted the fields are
        what they were, and what the release sends successfully is in the chip. */
    method ScanSession(calls: seq<Call>) returns (granted: bool)
      requires forall i :: 0 <= i < |calls| ==> !EndsScan(calls[i])
      modifies this
      ensures granted ==> old(radioState) != Tx && old(radioState) != Rx && radioState == Standby
      ensures granted ==>
        && modem == old(modem) && irqMask == old(irqMask) && radioFreqHz == old(radioFreqHz)
        && paCfg == old(paCfg) && settings == old(settings)
      ensures !granted ==> radioState == old(radioState) && SameConfiguration(old(View()), View())
      ensures granted && Observe(trace).faultless ==>
        Observe(trace).pktType == Some(PktTypeOf(modem)) && Observe(trace).irqMask == Some(irqMask)
    {
      hide Run, Apply, Observe, Radio.HoldScan, Radio.ReleaseScan;
      var err := HoldScan();
      if err != NoError { return false; }
      RunCalls(calls);
      ReleaseFaultless(View(), env);
      ReleaseScan();
      return true;
    }
  }

  lemma HoldPromises(c: Ctx, env: Env)
    ensures
      var (r, err) := HoldScan(c, env);
      && (err == NoError ==> c.radioState != Tx && c.radioState != Rx && r.radioState == Scan)
      && (err != NoError ==> r.radioState == c.radioState)
      && SameConfiguration(c, r)
      && (err == NoError && c.radioState != Scan ==> r.trace == c.trace + if env(c.drawn + 1) then Cleared(env, c.drawn + 3) else [])
  {
    hide Observe, HoldScan, Cleared;
    HoldGranted(c, env);
    if c.radioState != Scan && HoldScan(c, env).1 == NoError { HoldSent(c, env); }
  }

  lemma IrqPromises(c: Ctx, env: Env, irq: Irq, received: RadioError)
    ensures
      var r := IrqProcess(c, env, irq, received);
      && (c.radioState != Scan && c.timeoutSim == SimOff ==> forall e ::
          r.history == c.history + [Reported(e, ByChip)] <==> RadioEvents.Calls(e, c, env, c.drawn, irq, received))
      && (c.radioState != Scan ==>
          r.irqMask == c.irqMask && (r.radioState != Sleep ==> |r.trace| > 0 && r.trace[|r.trace| - 1].0 == SetDioIrq(c.irqMask)))
      && (c.radioState == Scan ==> r.trace == c.trace && r.radioState == Scan)
  {
    hide Observe, RadioEvents.Calls;
    if c.radioState != Scan { RadioEvents.InterruptsBack(c, env, irq, received); }
    if c.radioState != Scan && c.timeoutSim == SimOff { RadioEvents.EventsReported(c, env, irq, received); }
  }

  lemma RunNone(c: Ctx, env: Env)
    ensures Run(c, env, []) == c
  {
  }

  /** A release whose commands are all recorded as successful has drawn two good answers. */
  lemma ReleaseFaultless(c: Ctx, env: Env)
    requires c.radioState == Scan
    ensures Observe(ReleaseScan(c, env).trace).faultless ==> env(c.drawn) && env(c.drawn + 1)
  {
    hide Observe;
  }

  lemma Promises(c: Ctx, env: Env, call: Call)
    ensures c.radioState == Scan && !EndsScan(call) ==> OnlySimulates(c, Apply(c, env, call))
    ensures c.radioState != Scan && Apply(c, env, call).radioState == Scan ==> call.HoldCall? && c.radioState != Tx && c.radioState != Rx
    ensures MaskFitsModem(c) ==> (MaskFitsModem(Apply(c, env, call)) <==> !InitStrandsMask(c, env, call))
    ensures Missing(Apply(c, env, call)) == Missing(c) + if Loses(c, env, call) then 1 else 0
  {
    hide Apply, Missing, Loses, MaskFitsModem, InitStrandsMask, OnlySimulates;
    if c.radioState == Scan && !EndsScan(call) { ScanStep(c, env, call); }
    if c.radioState != Scan && Apply(c, env, call).radioState == Scan { ScanBegins(c, env, call); }
    if MaskFitsModem(c) { MaskStep(c, env, call); }
    RadioSimulation.Step(c, env, call);
  }
}
