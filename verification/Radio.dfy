/** The LR11xx driver state of lr11xx_radio.c and what each public call does to it.

  Answers of the chip, the GPIO lines, the timer and the configuration callbacks are drawn in order
  from `env`; commands to the chip are recorded with their outcome. */
module Radio {
  import opened RadioTypes
  import opened Wrappers

  datatype RadioState = Unknown | Standby | Sleep | Rx | Tx | Cad | StandbyXosc | RxDc | BusyState | Scan

  datatype Modem = Lora | Fsk

  datatype ExitMode = CsOnly | CsRx | CsLbt | CsLbtRx | EdOnly | EdRx | EdLbt | NoMode

  datatype TimeoutSim = SimOff | SimRx | SimTx

  datatype PktType = PktGfsk | PktLora

  datatype IrqMask = MaskNone | MaskAll | MaskLora | MaskFsk

  datatype Event = TxDone | RxDone | RxError | TxTimeout | RxTimeout | CadDone | CadTimeout | CsDone

  datatype Cmd =
    | SetPktType(t: PktType) | SetDioIrq(mask: IrqMask) | ClearIrq | GetAndClearIrq | GetErrors | ClearErrors
    | CalibrateImage(band: nat) | SetRfFreq(freq: nat) | SetPaCfg | SetTxParams
    | SetSleep | Wakeup | SetStandby | WriteBuffer | ReadPacket | ReadSyncWord
    | SetTx | SetTxCw | StopTimeoutOnPreamble(on: bool) | SetRx | SetRxDutyCycle | SetCad | CfgCad | SetModulation | SetPacket
    | SetFskSync | SetLoraSync(word: nat) | SetSyncTimeout
    | Reset | GetVersion | SetTcxo | CalibrateAll | SetFallback | CfgLfclk | SetRegMode | SetDioAsRfSwitch | CfgRxBoosted | DriveDio

  /** Interrupt flags read from the chip. */
  datatype Irq = Irq(error: bool, txDone: bool, crcError: bool, timeout: bool, headerError: bool, cadDone: bool,
                     cadDetected: bool, rxDone: bool, syncWord: bool, preamble: bool, wifiScanDone: bool, gnssScanDone: bool)

  /** Where a report comes from: a simulated timeout, a flag of the chip, or an event variable that still
      holds a simulated timeout already reported. */
  datatype Source = BySimulation | ByChip | Leftover

  datatype Happening = Armed(kind: TimeoutSim) | Reported(event: Event, origin: Source)

  datatype Param = FskMod | FskPkt | LoraMod | LoraPkt

  type Settings = map<Param, int>

  datatype Ctx = Ctx(
    radioState: RadioState, modem: Modem, cadExitMode: ExitMode, timeoutSim: TimeoutSim, deferredTimeout: nat,
    irqMask: IrqMask, radioFreqHz: nat, paCfg: int, settings: Settings,
    timerArmed: bool, drawn: nat, trace: seq<(Cmd, bool)>, history: seq<Happening>)

  type Env = nat -> bool

  // --------------------------------------------------------------- foreign calls

  /** Nothing but answers drawn and commands sent distinguishes the two. */
  predicate OnlyTalks(a: Ctx, b: Ctx) {
    b == a.(drawn := b.drawn, trace := b.trace) && (Observe(b.trace).faultless ==> Observe(a.trace).faultless)
  }

  /** The last calibration of the image: none that the driver knows of, the one the chip makes as it starts, the
      one that init makes with all other calibrations, or one for a band. */
  datatype Image = Uncalibrated | Startup | General | Band(band: nat)

  function ImageAfter(cmd: Cmd, image: Image): Image {
    match cmd
    case Reset => Startup
    case CalibrateAll => General
    case CalibrateImage(b) => Band(b)
    case _ => image
  }

  predicate SparesImage(cmd: Cmd) {
    !cmd.Reset? && !cmd.CalibrateAll? && !cmd.CalibrateImage?
  }

  /** The frequency the chip has after a command and its outcome: a reset forgets it, and a tuning that fails
      leaves it unknown. */
  function TunedAfter(cmd: Cmd, ok: bool, tuned: Option<nat>): Option<nat> {
    match cmd
    case SetRfFreq(freq) => if ok then Some(freq) else None
    case Reset => if ok then None else tuned
    case _ => tuned
  }

  /** Neither the image calibration nor the frequency of the chip is touched. */
  predicate Spares(cmd: Cmd) {
    SparesImage(cmd) && !cmd.SetRfFreq?
  }

  /** What the commands so far have made of the chip, and whether all of them succeeded. */
  datatype ChipView = ChipView(calibrated: Image, tuned: Option<nat>, pktType: Option<PktType>, irqMask: Option<IrqMask>, faultless: bool)

  function Observe(trace: seq<(Cmd, bool)>): ChipView {
    if trace == [] then ChipView(Uncalibrated, None, None, None, true)
    else
      var v, (cmd, ok) := Observe(trace[..|trace| - 1]), trace[|trace| - 1];
      if !ok then v.(faultless := false, tuned := TunedAfter(cmd, false, v.tuned))
      else match cmd
        case Reset => ChipView(Startup, None, None, None, v.faultless)
        case SetRfFreq(freq) => v.(tuned := Some(freq))
        case CalibrateAll => v.(calibrated := General)
        case CalibrateImage(b) => v.(calibrated := Band(b))
        case SetPktType(t) => v.(pktType := Some(t))
        case SetDioIrq(m) => v.(irqMask := Some(m))
        case _ => v
  }

  /** None of the commands changes the image calibration or the frequency. */
  predicate Harmless(cmds: seq<(Cmd, RadioError)>) {
    forall i :: 0 <= i < |cmds| ==> Spares(cmds[i].0)
  }

  /** The commands between the two traces have left image calibration and frequency of the chip alone. */
  predicate SameTuning(a: seq<(Cmd, bool)>, b: seq<(Cmd, bool)>) {
    Observe(b).calibrated == Observe(a).calibrated && Observe(b).tuned == Observe(a).tuned
  }

  /** Commands were sent that leave image calibration and frequency alone. */
  predicate Talks(a: Ctx, b: Ctx) {
    OnlyTalks(a, b) && SameTuning(a.trace, b.trace)
  }

  /** Only the simulation moved: no command was sent and nothing the transceiver depends on changed. */
  predicate OnlySimulates(a: Ctx, b: Ctx) {
    b == a.(cadExitMode := b.cadExitMode, timeoutSim := b.timeoutSim, deferredTimeout := b.deferredTimeout,
            timerArmed := b.timerArmed, drawn := b.drawn, history := b.history)
  }

  /** Neither the simulation nor what the driver caches of modem, interrupts and frequency moved; nothing at
      all did in a scan, and a scan neither began nor ended. */
  predicate Ordinary(a: Ctx, b: Ctx) {
    && (Observe(b.trace).faultless ==> Observe(a.trace).faultless)
    && SameTuning(a.trace, b.trace)
    && b == a.(radioState := b.radioState, cadExitMode := b.cadExitMode, paCfg := b.paCfg, settings := b.settings,
               drawn := b.drawn, trace := b.trace)
    && (if a.radioState == Scan then b == a else b.radioState != Scan)
  }

  /** As above, but the frequency and the image calibration may have moved. */
  predicate Retunes(a: Ctx, b: Ctx) {
    && (Observe(b.trace).faultless ==> Observe(a.trace).faultless)
    && b == a.(radioState := b.radioState, cadExitMode := b.cadExitMode, paCfg := b.paCfg, settings := b.settings,
               radioFreqHz := b.radioFreqHz, drawn := b.drawn, trace := b.trace)
    && (if a.radioState == Scan then b == a else b.radioState != Scan)
  }

  /** As Ordinary, but the simulation may have moved. */
  predicate OrdinaryOrSimulates(a: Ctx, b: Ctx) {
    if a.radioState == Scan then OnlySimulates(a, b)
    else Ordinary(a, b.(timeoutSim := a.timeoutSim, deferredTimeout := a.deferredTimeout, timerArmed := a.timerArmed, history := a.history))
  }

  function Ask(c: Ctx, env: Env): (Ctx, bool) {
    (c.(drawn := c.drawn + 1), env(c.drawn))
  }

  function Chip(c: Ctx, env: Env, cmd: Cmd): (r: (Ctx, bool))
    ensures OnlyTalks(c, r.0)
    ensures Observe(r.0.trace).faultless <==> r.1 && Observe(c.trace).faultless
    ensures Observe(r.0.trace).calibrated ==
            if r.1 then ImageAfter(cmd, Observe(c.trace).calibrated) else Observe(c.trace).calibrated
    ensures Observe(r.0.trace).tuned == TunedAfter(cmd, r.1, Observe(c.trace).tuned)
  {
    (c.(drawn := c.drawn + 1, trace := c.trace + [(cmd, env(c.drawn))]), env(c.drawn))
  }

  /** Commands in order, each with the error its failure gives; the first failure ends it. */
  function Commands(c: Ctx, env: Env, cmds: seq<(Cmd, RadioError)>): (r: (Ctx, RadioError))
    ensures OnlyTalks(c, r.0)
    ensures Harmless(cmds) ==> SameTuning(c.trace, r.0.trace)
    decreases |cmds|
  {
    if cmds == [] then (c, NoError)
    else
      var (c1, ok) := Chip(c, env, cmds[0].0);
      if ok then Commands(c1, env, cmds[1..]) else (c1, cmds[0].1)
  }

  function Report(c: Ctx, e: Event, origin: Source): Ctx {
    c.(history := c.history + [Reported(e, origin)])
  }

  /** radio_lr11xx_set_radio_mode: GPIO writes only. */
  function SetRadioMode(c: Ctx, env: Env): (r: (Ctx, RadioError))
    ensures Talks(c, r.0)
  {
    var (c1, ok) := Ask(c, env);
    (c1, if ok then NoError else IoError)
  }

  /** radio_clear_irq_status_all: the pin is read, and only a raised one is cleared. */
  function ClearIrqStatusAll(c: Ctx, env: Env): (r: (Ctx, RadioError))
    ensures Talks(c, r.0)
  {
    if c.radioState == Scan then (c, NoError)
    else
      var (c1, readOk) := Ask(c, env);
      if !readOk then (c1, HardwareError)
      else
        var (c2, high) := Ask(c1, env);
        if !high then (c2, NoError) else Commands(c2, env, [(ClearIrq, HardwareError)])
  }

  function EnableIrq(c: Ctx, env: Env): (r: (Ctx, RadioError))
    ensures Talks(c, r.0)
  {
    Commands(c, env, [(SetDioIrq(c.irqMask), IoError)])
  }

  /** The pin switches and the interrupt status, before a command that starts the radio. */
  function Prepare(c: Ctx, env: Env): (r: (Ctx, RadioError))
    ensures Talks(c, r.0)
  {
    var (c1, err) := SetRadioMode(c, env);
    if err != NoError then (c1, err) else ClearIrqStatusAll(c1, env)
  }

  /** Run `cmds` after the preparation, then enter `next`. */
  function Enter(c: Ctx, env: Env, cmds: seq<(Cmd, RadioError)>, next: RadioState): (r: (Ctx, RadioError))
    ensures if r.1 == NoError then r.0.radioState == next && OnlyTalks(c, r.0.(radioState := c.radioState)) else OnlyTalks(c, r.0)
    ensures Harmless(cmds) ==> SameTuning(c.trace, r.0.trace)
  {
    var (c1, err) := Commands(c, env, cmds);
    if err != NoError then (c1, err) else (c1.(radioState := next), NoError)
  }

  /** Preparation and then `cmds`, into a state that is not a scan. */
  function Launch(c: Ctx, env: Env, cmds: seq<(Cmd, RadioError)>, next: RadioState): (r: (Ctx, RadioError))
    requires c.radioState != Scan && next != Scan && Harmless(cmds)
    ensures Ordinary(c, r.0)
    ensures r.1 == NoError ==> r.0.radioState == next
  {
    var (c1, err) := Prepare(c, env);
    if err != NoError then (c1, err) else Enter(c1, env, cmds, next)
  }

  /** The receiver is told first whether a preamble stops its timeout. */
  function Listen(c: Ctx, env: Env, onPreamble: bool, cmds: seq<(Cmd, RadioError)>): (r: (Ctx, RadioError))
    requires c.radioState != Scan && Harmless(cmds)
    ensures Ordinary(c, r.0)
    ensures r.1 == NoError ==> r.0.radioState == Rx
  {
    var (c1, err) := Commands(c, env, [(StopTimeoutOnPreamble(onPreamble), HardwareError)]);
    if err != NoError then (c1, err) else Launch(c1, env, cmds, Rx)
  }

  /** The interrupt status and the pin switches, and then `cmd`, on the way to a state that rests. */
  function Settle(c: Ctx, env: Env, cmd: Cmd, next: RadioState): (r: (Ctx, RadioError))
    requires c.radioState != Scan && next != Scan && Spares(cmd)
    ensures Ordinary(c, r.0)
    ensures r.1 == NoError ==> r.0.radioState == next
  {
    hide Observe;
    var (c1, err) := ClearIrqStatusAll(c, env);
    if err != NoError then (c1, err)
    else
      var (c2, err2) := SetRadioMode(c1, env);
      if err2 != NoError then (c2, err2) else Enter(c2, env, [(cmd, HardwareError)], next)
  }

  function PktTypeOf(m: Modem): PktType {
    if m == Fsk then PktGfsk else PktLora
  }

  function DefaultMask(m: Modem): IrqMask {
    if m == Fsk then MaskFsk else MaskLora
  }

  // ------------------------------------------------------------- simulated timeouts

  function StartTimeoutSim(c: Ctx, env: Env, kind: TimeoutSim): (r: (Ctx, RadioError))
    ensures OnlySimulates(c, r.0)
  {
    var (c1, ok) := Ask(c, env);
    if !ok then (c1, IoError)
    else (c1.(timeoutSim := kind, timerArmed := true, history := c1.history + [Armed(kind)]), NoError)
  }

  function StartTx(c: Ctx, env: Env): (r: (Ctx, RadioError))
    ensures if c.radioState == Scan then OnlySimulates(c, r.0) else Ordinary(c, r.0)
  {
    if c.radioState == Scan then
      if c.timerArmed then (c, Busy)
      else
        var (c1, err) := StartTimeoutSim(c, env, SimTx);
        (c1, if err == NoError then NoError else Busy)
    else Launch(c, env, [(SetTx, HardwareError)], Tx)
  }

  function StartRx(c: Ctx, env: Env, timeout: nat): (r: (Ctx, RadioError))
    ensures if c.radioState == Scan then OnlySimulates(c, r.0) else Ordinary(c, r.0)
  {
    if c.radioState == Scan then
      if c.timerArmed then (c.(deferredTimeout := timeout), HardwareError)
      else StartTimeoutSim(c, env, SimRx)
    else Listen(c, env, c.modem == Fsk, [(SetRx, HardwareError)])
  }

  /** lr_timer fires: it is no longer armed, and the interrupt handler asks for irq_process to be run. */
  function TimerExpires(c: Ctx): Ctx {
    c.(timerArmed := false)
  }

  // ------------------------------------------------------------- states of the radio

  function GoStandby(c: Ctx, env: Env): (r: (Ctx, RadioError))
    ensures Ordinary(c, r.0)
  {
    hide Observe;
    if c.radioState == Scan || c.radioState == Standby then (c, NoError)
    else
      var (c1, err) := if c.radioState == Sleep then Enter(c, env, [(Wakeup, HardwareError)], Unknown) else (c, NoError);
      if err != NoError then (c1, err) else Settle(c1, env, SetStandby, Standby)
  }

  function GoSleep(c: Ctx, env: Env): (r: (Ctx, RadioError))
    ensures Ordinary(c, r.0)
  {
    if c.radioState == Scan || c.radioState == Sleep then (c, NoError) else Settle(c, env, SetSleep, Sleep)
  }

  function SetRadioBusy(c: Ctx): (r: (Ctx, RadioError))
    ensures Ordinary(c, r.0)
  {
    if c.radioState == Standby then (c.(radioState := BusyState), NoError) else (c, InvalidState)
  }

  function SetTxPayload(c: Ctx, env: Env, size: nat): (r: (Ctx, RadioError))
    ensures Ordinary(c, r.0)
  {
    if size == 0 then (c, InvalidParams)
    else if c.radioState == Scan then (c, NoError)
    else Commands(c, env, [(WriteBuffer, IoError)])
  }

  predicate IsCadExitMode(m: ExitMode) {
    m == CsOnly || m == CsRx || m == CsLbt || m == EdOnly || m == EdRx || m == EdLbt
  }

  function StartCarrierSense(c: Ctx, env: Env, mode: ExitMode): (r: (Ctx, RadioError))
    ensures Ordinary(c, r.0)
  {
    if c.radioState == Scan then (c, Busy)
    else if c.modem != Fsk || !IsCadExitMode(mode) then (c, InvalidParams)
    else
      var (c1, err) := Listen(c, env, true, [(SetDioIrq(MaskAll), IoError), (SetRx, HardwareError)]);
      if err != NoError then (c1, err) else (c1.(cadExitMode := mode), NoError)
  }

  function StartContinuousRx(c: Ctx, env: Env): (r: (Ctx, RadioError))
    ensures Ordinary(c, r.0)
  {
    if c.radioState == Scan then (c, Busy) else Listen(c, env, c.modem == Fsk, [(SetRx, HardwareError)])
  }

  function SetRxDuty(c: Ctx, env: Env, rxTime: nat, sleepTime: nat): (r: (Ctx, RadioError))
    ensures Ordinary(c, r.0)
  {
    if c.radioState == Scan then (c, Busy)
    else if rxTime == 0 || sleepTime == 0 then (c, InvalidParams)
    else Launch(c, env, [(SetRxDutyCycle, HardwareError)], RxDc)
  }

  function LoraStartCad(c: Ctx, env: Env): (r: (Ctx, RadioError))
    ensures Ordinary(c, r.0)
  {
    if c.radioState == Scan then (c, Busy) else Launch(c, env, [(SetCad, HardwareError)], Cad)
  }

  // --------------------------------------------------------------- configuration

  function SetModemMode(c: Ctx, env: Env, m: Modem): (r: (Ctx, RadioError))
    ensures Ordinary(c, r.0.(modem := c.modem, irqMask := c.irqMask))
    ensures r.0.irqMask == (if r.0.modem == c.modem && r.0.irqMask == c.irqMask then c.irqMask else DefaultMask(r.0.modem))
    ensures c.radioState == Scan ==> r.0 == c
  {
    hide Observe;
    if c.radioState == Scan then (c, NoError)
    else
      var (c1, err) := Commands(c, env, [(SetPktType(PktTypeOf(m)), HardwareError)]);
      if err != NoError then (c1, err) else EnableIrq(c1.(modem := m, irqMask := DefaultMask(m)), env)
  }

  const BANDS: seq<(nat, nat)> :=
    [(430000000, 440000000), (470000000, 510000000), (779000000, 787000000),
     (863000000, 879000000), (902000000, 928000000), (2400000000, 2480000000)]

  predicate InBand(freq: nat, i: nat) {
    i < |BANDS| && BANDS[i].0 <= freq <= BANDS[i].1
  }

  /** lr11xx_get_freq_band: index of the first band that holds the frequency. */
  function FreqBand(freq: nat): (r: Option<nat>)
    ensures r.Some? ==> InBand(freq, r.value)
    ensures r.None? ==> forall i: nat :: !InBand(freq, i)
  {
    if InBand(freq, 0) then Some(0) else if InBand(freq, 1) then Some(1) else if InBand(freq, 2) then Some(2)
    else if InBand(freq, 3) then Some(3) else if InBand(freq, 4) then Some(4) else if InBand(freq, 5) then Some(5)
    else None
  }

  function SetFrequency(c: Ctx, env: Env, freq: nat): (r: (Ctx, RadioError))
    ensures r.0 == c.(radioFreqHz := if r.1 == NoError && c.radioState != Scan then freq else c.radioFreqHz,
                      drawn := r.0.drawn, trace := r.0.trace)
    ensures Observe(r.0.trace).faultless ==> Observe(c.trace).faultless
    ensures c.radioState == Scan ==> r.0 == c
  {
    hide Observe;
    if c.radioState == Scan then (c, NoError)
    else if c.radioState != Standby then (c, InvalidState)
    else if FreqBand(freq).None? then (c, InvalidParams)
    else
      var (c1, ok1) := if FreqBand(c.radioFreqHz) != FreqBand(freq) then Chip(c, env, CalibrateImage(FreqBand(freq).value)) else (c, true);
      if !ok1 then (c1, HardwareError)
      else
        var (c2, ok2) := Chip(c1, env, SetRfFreq(freq));
        if !ok2 then (c2, HardwareError) else (c2.(radioFreqHz := freq), NoError)
  }

  /** `cfg` is what the board's callback makes of the requested power. */
  function SetTxPower(c: Ctx, env: Env, cfg: int): (r: (Ctx, RadioError))
    ensures Ordinary(c, r.0)
  {
    if c.radioState == Scan then (c, NoError)
    else if c.radioState != Standby then (c, InvalidState)
    else
      var (c1, ok) := Ask(c, env);
      if !ok then (c1, InvalidParams)
      else Commands(c1.(paCfg := cfg), env, [(SetPaCfg, IoError), (SetTxParams, IoError)])
  }

  /** The errors of the two setters are replaced by the truth value of a comparison, here Generic. */
  function TxContinuousWave(c: Ctx, env: Env, freq: nat, cfg: int): (r: (Ctx, RadioError))
    ensures Retunes(c, r.0)
  {
    hide Observe;
    if c.radioState == Scan then (c, Busy)
    else
      var (c1, err) := SetFrequency(c, env, freq);
      if err != NoError then (c1, Generic) else Carrier(c1, env, cfg)
  }

  function Carrier(c: Ctx, env: Env, cfg: int): (r: (Ctx, RadioError))
    requires c.radioState != Scan
    ensures Ordinary(c, r.0)
  {
    hide Observe;
    var (c1, err) := SetTxPower(c, env, cfg);
    if err != NoError then (c1, Generic)
    else
      var (c2, err2) := Commands(c1, env, [(SetStandby, HardwareError)]);
      if err2 != NoError then (c2, err2) else Launch(c2, env, [(SetTxCw, HardwareError)], Tx)
  }

  /** The modulation and packet parameter setters: the cache is written after the chip. */
  function SetParams(c: Ctx, env: Env, p: Param, value: int): (r: (Ctx, RadioError))
    ensures Ordinary(c, r.0)
  {
    if c.radioState == Scan then (c, NoError)
    else
      var (c1, err) := Commands(c, env, [(if p == FskMod || p == LoraMod then SetModulation else SetPacket, HardwareError)]);
      if err != NoError then (c1, err) else (c1.(settings := c1.settings[p := value]), NoError)
  }

  /** The setters of sync words and symbol timeout: one command, none in a scan. */
  function SetGuarded(c: Ctx, env: Env, cmd: Cmd): (r: (Ctx, RadioError))
    requires Spares(cmd)
    ensures Ordinary(c, r.0)
  {
    if c.radioState == Scan then (c, NoError) else Commands(c, env, [(cmd, HardwareError)])
  }

  function LoraSyncByte(word: nat): nat {
    if word == 0x1424 then 0x12 else 0x34
  }

  /** set_lora_cad_params: the exit mode is kept even if the chip then refuses. */
  function SetCadParams(c: Ctx, env: Env, mode: ExitMode): (r: (Ctx, RadioError))
    ensures Ordinary(c, r.0)
  {
    if c.radioState == Scan then (c, NoError)
    else if mode != CsOnly && mode != CsRx && mode != CsLbt then (c, InvalidParams)
    else Commands(c.(cadExitMode := mode), env, [(CfgCad, HardwareError)])
  }

  // --------------------------------------------------------------- scan arbitration

  /** Zero of the C function is NoError; minus one is Generic. */
  function HoldScan(c: Ctx, env: Env): (r: (Ctx, RadioError))
    ensures Talks(c, r.0.(radioState := c.radioState))
    ensures c.radioState == Scan ==> OnlySimulates(c, r.0)
  {
    var (c1, readOk) := Ask(c, env);
    if !readOk then (c1, Generic)
    else
      var (c2, high) := Ask(c1, env);
      var (c3, err) := if high then ClearIrqStatusAll(c2, env) else (c2, NoError);
      if err != NoError then (c3, Generic)
      else if c3.radioState == Tx || c3.radioState == Rx then (c3, Generic)
      else (c3.(radioState := Scan), NoError)
  }

  /** lr11xx_restore_transceiver: both commands are sent, whatever the first answers. */
  function RestoreTransceiver(c: Ctx, env: Env): Ctx {
    var (c1, ok) := Chip(c, env, SetPktType(PktTypeOf(c.modem)));
    Chip(c1, env, SetDioIrq(c1.irqMask)).0
  }

  function ReleaseScan(c: Ctx, env: Env): Ctx {
    if c.radioState != Scan then c else RestoreTransceiver(c, env).(radioState := Standby)
  }

  // -------------------------------------------------------------------------- init

  /** The parts of init that are not the reset: the frequency, the modem and a pending simulation stay. */
  predicate Initialises(a: Ctx, b: Ctx) {
    && Talks(a, b.(radioState := a.radioState, irqMask := a.irqMask, paCfg := a.paCfg, timerArmed := a.timerArmed,
                   deferredTimeout := a.deferredTimeout))
    && b.radioState != Scan
  }

  datatype Config = Config(tcxo: bool, rfSwitch: bool)

  function AskThen(c: Ctx, env: Env, failure: RadioError): (r: (Ctx, RadioError))
    ensures Talks(c, r.0)
  {
    var (c1, ok) := Ask(c, env);
    (c1, if ok then NoError else failure)
  }

  /** An interrupt raised by the reset itself is cleared, and its errors are. */
  function ClearStartup(c: Ctx, env: Env): (r: (Ctx, RadioError))
    ensures Talks(c, r.0)
  {
    hide Observe;
    var (c1, raised) := Ask(c, env);
    if !raised then (c1, NoError)
    else
      var (c2, ok) := Chip(c1, env, GetAndClearIrq);
      if !ok then (c2, IoError)
      else
        var (c3, failed) := Ask(c2, env);
        (if failed then Chip(Chip(c3, env, GetErrors).0, env, ClearErrors).0 else c3, NoError)
  }

  /** sid_pal_radio_init up to the answer to the reset. */
  function InitReset(c: Ctx, env: Env): (r: (Ctx, RadioError))
    ensures OnlyTalks(c, r.0)
  {
    hide Observe;
    var (c1, err1) := AskThen(c, env, InvalidParams);                       // platform pins and bus
    if err1 != NoError then (c1, err1)
    else
      var (c2, err2) := SetRadioMode(c1, env);
      if err2 != NoError then (c2, err2)
      else
        var (c3, ok) := Chip(c2, env, Reset);
        (c3, if ok then NoError else IoError)
  }

  /** The identity of the chip: answered, and recent enough. */
  function InitVersion(c: Ctx, env: Env): (r: (Ctx, RadioError))
    ensures Talks(c, r.0)
  {
    hide Observe;
    var (c1, ok) := Chip(c, env, GetVersion);
    if !ok then (c1, IoError) else AskThen(c1, env, IoError)
  }

  /** The oscillator, and with it all calibrations, that of the image among them. */
  function InitTcxo(c: Ctx, env: Env): (r: (Ctx, RadioError))
    ensures OnlyTalks(c, r.0) && Observe(r.0.trace).tuned == Observe(c.trace).tuned
  {
    hide Observe;
    var (c1, ok1) := Chip(c, env, SetTcxo);
    if !ok1 then (c1, IoError)
    else
      var (c2, ok2) := Chip(c1, env, CalibrateAll);
      if !ok2 then (c2, IoError)
      else
        var (c3, ok3) := Chip(c2, env, SetFallback);
        (c3, if ok3 then NoError else IoError)
  }

  function InitClocks(c: Ctx, env: Env, config: Config): (r: (Ctx, RadioError))
    ensures OnlyTalks(c, r.0) && Observe(r.0.trace).tuned == Observe(c.trace).tuned
  {
    hide Observe;
    var (c1, err1) := if config.tcxo then InitTcxo(c, env) else (c, NoError);
    if err1 != NoError then (c1, err1)
    else
      var (c2, ok2) := Chip(c1, env, CfgLfclk);
      (c2, if ok2 then NoError else IoError)
  }

  function InitChip(c: Ctx, env: Env, config: Config): (r: (Ctx, RadioError))
    ensures OnlyTalks(c, r.0) && Observe(r.0.trace).tuned == Observe(c.trace).tuned
  {
    hide Observe;
    var (c1, err1) := InitVersion(c, env);
    if err1 != NoError then (c1, err1)
    else
      var (c2, err2) := ClearStartup(c1, env);
      if err2 != NoError then (c2, err2) else InitClocks(c2, env, config)
  }

  function InitBoot(c: Ctx, env: Env, config: Config): (r: (Ctx, RadioError))
    ensures OnlyTalks(c, r.0)
  {
    hide Observe;
    var (c1, err1) := InitReset(c, env);
    if err1 != NoError then (c1, err1) else InitChip(c1, env, config)
  }

  function RegulatorCmds(config: Config): (cmds: seq<(Cmd, RadioError)>)
    ensures Harmless(cmds)
  {
    [(SetRegMode, HardwareError)] + if config.rfSwitch then [(SetDioAsRfSwitch, HardwareError)] else []
  }

  /** The rest of it; three failures leave the error code of the step before, which is none. */
  function InitRadio(c: Ctx, env: Env, config: Config, cfg: int): (r: (Ctx, RadioError))
    requires c.radioState != Scan
    ensures Initialises(c, r.0)
    ensures r.0.irqMask == MaskLora
  {
    hide Observe;
    var (c1, err1) := AskThen(c.(irqMask := MaskLora), env, IoError);       // interrupt line
    if err1 != NoError then (c1, err1)
    else
      var (c2, ok2) := Chip(c1, env, SetStandby);
      if !ok2 then (c2, NoError)
      else
        var (c3, err3) := Commands(c2, env, RegulatorCmds(config));
        if err3 != NoError then (c3, err3) else InitStandby(c3.(radioState := Unknown), env, cfg)
  }

  function InitStandby(c: Ctx, env: Env, cfg: int): (r: (Ctx, RadioError))
    requires c.radioState == Unknown
    ensures Initialises(c, r.0)
    ensures r.0.irqMask == c.irqMask
  {
    hide Observe;
    var (c1, err1) := GoStandby(c, env);
    if err1 != NoError then (c1, err1) else InitBoost(c1, env, cfg)
  }

  function InitBoost(c: Ctx, env: Env, cfg: int): (r: (Ctx, RadioError))
    requires c.radioState != Scan
    ensures Initialises(c, r.0)
    ensures r.0.irqMask == c.irqMask
  {
    var (c1, ok1) := Chip(c, env, CfgRxBoosted);
    if !ok1 then (c1, NoError) else InitFinish(c1, env, cfg)
  }

  function InitFinish(c: Ctx, env: Env, cfg: int): (r: (Ctx, RadioError))
    requires c.radioState != Scan
    ensures Initialises(c, r.0)
    ensures r.0.irqMask == c.irqMask
  {
    hide Observe;
    var (c1, err1) := SetTxPower(c, env, cfg);
    if err1 != NoError then (c1, err1)
    else
      var (c2, err2) := Commands(c1, env, [(GetAndClearIrq, HardwareError), (SetDioIrq(c1.irqMask), IoError), (DriveDio, IoError)]);
      if err2 != NoError then (c2, err2)
      else
        var (c3, ok3) := Ask(c2, env);                                      // timer
        if !ok3 then (c3, NoError) else (c3.(timerArmed := false, deferredTimeout := 0), NoError)
  }

  function OutOfScan(c: Ctx): Ctx {
    if c.radioState == Scan then c.(radioState := Unknown) else c
  }

  function Init(c: Ctx, env: Env, valid: bool, config: Config, cfg: int): (r: (Ctx, RadioError))
    ensures r.0.radioState != Scan && (Observe(r.0.trace).faultless ==> Observe(c.trace).faultless) && r.0.radioFreqHz == c.radioFreqHz
    ensures r.0.timeoutSim == c.timeoutSim && r.0.history == c.history
  {
    hide Observe;
    var c0 := OutOfScan(c);
    if !valid then (c0, InvalidParams)
    else
      var (c1, err1) := InitBoot(c0.(modem := Lora), env, config);
      if err1 != NoError then (c1, err1) else InitRadio(c1, env, config, cfg)
  }

  // --------------------------------------------------------------------- interrupts

  /** A deferred receive window is armed once the first has been taken off. */
  function Rearmed(c: Ctx, env: Env): (r: Ctx)
    ensures OnlySimulates(c, r)
  {
    var c1 := c.(timeoutSim := SimOff);
    if c1.deferredTimeout != 0 then StartTimeoutSim(c1, env, SimRx).0.(deferredTimeout := 0) else c1
  }

  /** The simulated part of irq_process, and the event it leaves in the local variable. */
  function SimPart(c: Ctx, env: Env): (r: (Ctx, Option<Event>))
    ensures OrdinaryOrSimulates(c, r.0)
  {
    hide Observe;
    match c.timeoutSim
    case SimOff => (c, None)
    case SimTx =>
      (Report(c.(timeoutSim := SimOff), TxDone, BySimulation), Some(TxDone))
    case SimRx =>
      var c1 := Rearmed(c, env);
      if c1.cadExitMode == CsLbt then (StartTx(c1.(cadExitMode := NoMode), env).0, None)
      else (Report(c1, RxTimeout, BySimulation), Some(RxTimeout))
  }

  /** What the chip part makes of the event variable: kept, or given a new value. */
  datatype Outcome = Keep | Assign(e: Option<Event>)

  function WithScanDone(c: Ctx, env: Env, irq: Irq): (r: Ctx)
    requires c.radioState != Scan
    ensures Ordinary(c, r)
  {
    var c1 := if irq.wifiScanDone then Chip(c.(radioState := BusyState), env, SetPktType(PktTypeOf(c.modem))).0 else c;
    if irq.gnssScanDone then Chip(c1.(radioState := BusyState), env, SetPktType(PktTypeOf(c1.modem))).0 else c1
  }

  function LoraPart(c: Ctx, env: Env, irq: Irq): (r: (Ctx, Outcome))
    requires c.radioState != Scan
    ensures Ordinary(c, r.0)
  {
    hide Observe;
    if irq.cadDone then
      if irq.cadDetected then (c.(cadExitMode := NoMode), Assign(Some(CadDone)))
      else if c.cadExitMode == CsLbt then (StartTx(c, env).0.(cadExitMode := NoMode), Assign(None))
      else (c.(cadExitMode := NoMode), Assign(Some(CadTimeout)))
    else if irq.rxDone then
      var (c1, ok) := Chip(c, env, ReadPacket);
      (c1, if ok then Assign(Some(RxDone)) else Keep)
    else (WithScanDone(c, env, irq), Keep)
  }

  /** `received` is what process_rx_done answers; a generic error is reported, others are not. */
  function FskPart(c: Ctx, env: Env, irq: Irq, received: RadioError): (r: (Ctx, Outcome))
    requires c.radioState != Scan
    ensures Ordinary(c, r.0)
  {
    hide Observe;
    if irq.syncWord then (Chip(c, env, ReadSyncWord).0, Keep)
    else if irq.preamble then
      if c.cadExitMode == CsLbt then (GoStandby(c.(cadExitMode := NoMode), env).0, Assign(Some(CsDone))) else (c, Keep)
    else if irq.rxDone then
      var c1 := WithScanDone(Chip(c, env, ReadPacket).0, env, irq);
      (c1, if received == NoError then Assign(Some(RxDone)) else if received == Generic then Assign(Some(RxError)) else Keep)
    else (WithScanDone(c, env, irq), Keep)
  }

  function FlagPart(c: Ctx, env: Env, irq: Irq, received: RadioError): (r: (Ctx, Outcome))
    requires c.radioState != Scan
    ensures Ordinary(c, r.0)
  {
    hide Observe;
    if irq.txDone then (c, Assign(Some(TxDone)))
    else if irq.crcError then (c, Assign(Some(RxError)))
    else if irq.timeout then
      if c.radioState == Tx then (c, Assign(Some(TxTimeout)))
      else if c.cadExitMode == CsLbt then (StartTx(c.(cadExitMode := NoMode), env).0, Assign(None))
      else (c, Assign(Some(RxTimeout)))
    else if irq.headerError then (c, Assign(Some(RxTimeout)))
    else if c.modem == Lora then LoraPart(c, env, irq)
    else FskPart(c, env, irq, received)
  }

  function ChipPart(c: Ctx, env: Env, irq: Irq, received: RadioError): (r: (Ctx, Outcome))
    requires c.radioState != Scan
    ensures Ordinary(c, r.0)
  {
    hide Observe;
    var (c1, err) := ReadIrq(c, env, irq);
    if err != NoError then (c1, Keep) else FlagPart(c1, env, irq, received)
  }

  /** Interrupts are disabled and their flags read; errors flagged among them are read and cleared. */
  function ReadIrq(c: Ctx, env: Env, irq: Irq): (r: (Ctx, RadioError))
    ensures Talks(c, r.0)
    ensures r.1 == NoError <==> env(c.drawn) && env(c.drawn + 1)
    ensures r.1 == NoError ==> r.0.drawn == c.drawn + if irq.error then 4 else 2
  {
    hide Observe;
    var (c1, ok1) := Chip(c, env, SetDioIrq(MaskNone));
    if !ok1 then (c1, IoError)
    else
      var (c2, ok2) := Chip(c1, env, GetAndClearIrq);
      if !ok2 then (c2, HardwareError)
      else (if irq.error then Chip(Chip(c2, env, GetErrors).0, env, ClearErrors).0 else c2, NoError)
  }

  /** The event variable is not cleared between the two parts. */
  function Tail(c: Ctx, env: Env, stale: Option<Event>, o: Outcome): (r: Ctx)
    requires c.radioState != Scan
    ensures Ordinary(c, r.(history := c.history))
  {
    hide Observe;
    var e := if o.Keep? then stale else o.e;
    var c1 := if e.Some? then Report(c, e.value, if o.Keep? then Leftover else ByChip) else c;
    if c1.radioState != Sleep then EnableIrq(c1, env).0 else c1
  }

  function IrqProcess(c: Ctx, env: Env, irq: Irq, received: RadioError): (r: Ctx)
    ensures OrdinaryOrSimulates(c, r)
  {
    hide Observe;
    var (c1, stale) := SimPart(c, env);
    if c1.radioState == Scan then c1
    else
      var (c2, o) := ChipPart(c1, env, irq, received);
      Tail(c2, env, stale, o)
  }
}
