/** Which event the interrupt handler reports for which flags, and what it tells the chip. */
module RadioEvents {
  import opened RadioTypes
  import opened Wrappers
  import opened Radio
  import opened RadioCommands
  import opened RadioSimulation

  /** No flag that comes before those of one modem. */
  predicate ModemsTurn(irq: Irq) {
    !irq.txDone && !irq.crcError && !irq.timeout && !irq.headerError
  }

  /** An FSK packet is there to be taken apart. */
  predicate FskPacket(c: Ctx, irq: Irq) {
    ModemsTurn(irq) && c.modem == Fsk && !irq.syncWord && !irq.preamble && irq.rxDone
  }

  /** The flags call for `e`; `packet` says that a LoRa packet can be read, `received` what the FSK one amounts to. */
  predicate Flagged(e: Event, c: Ctx, packet: bool, irq: Irq, received: RadioError) {
    match e
    case TxDone => irq.txDone
    case RxError => !irq.txDone && (irq.crcError || (FskPacket(c, irq) && received == Generic))
    case TxTimeout => !irq.txDone && !irq.crcError && irq.timeout && c.radioState == Tx
    case RxTimeout =>
      && !irq.txDone && !irq.crcError
      && if irq.timeout then c.radioState != Tx && c.cadExitMode != CsLbt else irq.headerError
    case RxDone =>
      || (ModemsTurn(irq) && c.modem == Lora && !irq.cadDone && irq.rxDone && packet)
      || (FskPacket(c, irq) && received == NoError)
    case CadDone => ModemsTurn(irq) && c.modem == Lora && irq.cadDone && irq.cadDetected
    case CadTimeout => ModemsTurn(irq) && c.modem == Lora && irq.cadDone && !irq.cadDetected && c.cadExitMode != CsLbt
    case CsDone => ModemsTurn(irq) && c.modem == Fsk && !irq.syncWord && irq.preamble && c.cadExitMode == CsLbt
  }

  /** Listen-before-talk found the channel free: a transmission instead of an event. */
  predicate Transmits(c: Ctx, irq: Irq) {
    && c.cadExitMode == CsLbt && !irq.txDone && !irq.crcError
    && if irq.timeout then c.radioState != Tx else ModemsTurn(irq) && c.modem == Lora && irq.cadDone && !irq.cadDetected
  }

  /** The handler is given a reason to report nothing, to report `e`, or none at all. */
  lemma FlagsSay(c: Ctx, env: Env, irq: Irq, received: RadioError, e: Event)
    requires c.radioState != Scan
    ensures
      var o := FlagPart(c, env, irq, received).1;
      && (o == Assign(Some(e)) <==> Flagged(e, c, env(c.drawn), irq, received))
      && (o == Assign(None) <==> Transmits(c, irq))
  {
    hide Observe, StartTx, LoraPart, FskPart;
    if ModemsTurn(irq) {
      if c.modem == Lora { LoraSays(c, env, irq, received, e); } else { FskSays(c, env, irq, received, e); }
    }
  }

  lemma LoraSays(c: Ctx, env: Env, irq: Irq, received: RadioError, e: Event)
    requires c.radioState != Scan && ModemsTurn(irq) && c.modem == Lora
    ensures
      var o := LoraPart(c, env, irq).1;
      && (o == Assign(Some(e)) <==> Flagged(e, c, env(c.drawn), irq, received))
      && (o == Assign(None) <==> Transmits(c, irq))
  {
    hide Observe, WithScanDone, StartTx;
  }

  lemma FskSays(c: Ctx, env: Env, irq: Irq, received: RadioError, e: Event)
    requires c.radioState != Scan && ModemsTurn(irq) && c.modem == Fsk
    ensures
      var o := FskPart(c, env, irq, received).1;
      && (o == Assign(Some(e)) <==> Flagged(e, c, env(c.drawn), irq, received))
      && (o == Assign(None) <==> Transmits(c, irq))
  {
    hide Observe, WithScanDone, GoStandby;
  }

  /** The first two commands disable the interrupts and read their flags. */
  lemma ReadSent(c: Ctx, env: Env, irq: Irq)
    ensures
      var (r, err) := ReadIrq(c, env, irq);
      && (err == NoError <==> env(c.drawn) && env(c.drawn + 1))
      && (err == NoError ==>
          && r.drawn == c.drawn + (if irq.error then 4 else 2)
          && r.trace == c.trace + [(SetDioIrq(MaskNone), true), (GetAndClearIrq, true)]
                        + if irq.error then [(GetErrors, env(c.drawn + 2)), (ClearErrors, env(c.drawn + 3))] else [])
      && r == c.(drawn := r.drawn, trace := r.trace)
  {
    hide Observe;
    var t := c.trace + [(SetDioIrq(MaskNone), true), (GetAndClearIrq, true)];
    assert c.trace + [(SetDioIrq(MaskNone), true)] + [(GetAndClearIrq, true)] == t;
    assert t + [(GetErrors, env(c.drawn + 2))] + [(ClearErrors, env(c.drawn + 3))]
        == t + [(GetErrors, env(c.drawn + 2)), (ClearErrors, env(c.drawn + 3))];
    assert t + [] == t;
  }

  /** The answer that says whether a LoRa packet can be read: the one after those of `ReadSent`. */
  predicate PacketRead(env: Env, d: nat, irq: Irq) {
    env(d + if irq.error then 4 else 2)
  }

  predicate FlagsRead(env: Env, d: nat) {
    env(d) && env(d + 1)
  }

  lemma SameFlags(c: Ctx, c1: Ctx, packet: bool, irq: Irq, received: RadioError, e: Event)
    requires c1.modem == c.modem && c1.cadExitMode == c.cadExitMode && c1.radioState == c.radioState
    ensures Flagged(e, c1, packet, irq, received) == Flagged(e, c, packet, irq, received) && Transmits(c1, irq) == Transmits(c, irq)
  {
  }

  /** Both parts of the reading of the flags succeed, from the answer `d` on, and the flags call for `e`. */
  predicate Calls(e: Event, c: Ctx, env: Env, d: nat, irq: Irq, received: RadioError) {
    FlagsRead(env, d) && Flagged(e, c, PacketRead(env, d, irq), irq, received)
  }

  /** They call for a transmission. */
  predicate CallsTx(c: Ctx, env: Env, d: nat, irq: Irq) {
    FlagsRead(env, d) && Transmits(c, irq)
  }

  lemma ChipSays(c: Ctx, env: Env, irq: Irq, received: RadioError, e: Event)
    requires c.radioState != Scan
    ensures
      var (r, o) := ChipPart(c, env, irq, received);
      && (o == Assign(Some(e)) <==> Calls(e, c, env, c.drawn, irq, received))
      && (o == Assign(None) <==> CallsTx(c, env, c.drawn, irq))
      && r.history == c.history
  {
    hide Observe, FlagPart, ReadIrq, Flagged, Transmits;
    ReadSent(c, env, irq);
    var (c1, err) := ReadIrq(c, env, irq);
    if err == NoError {
      FlagsSay(c1, env, irq, received, e);
      SameFlags(c, c1, env(c1.drawn), irq, received, e);
      assert ChipPart(c, env, irq, received) == FlagPart(c1, env, irq, received);
    }
  }

  lemma TailReports(c: Ctx, env: Env, stale: Option<Event>, o: Outcome)
    requires c.radioState != Scan
    ensures Tail(c, env, stale, o).history
         == c.history + match o
                        case Keep => if stale.Some? then [Reported(stale.value, Leftover)] else []
                        case Assign(e) => if e.Some? then [Reported(e.value, ByChip)] else []
  {
    hide Observe, EnableIrq;
    assert c.history + [] == c.history;
  }

  /** The flags call for nothing, or could not be read. */
  ghost predicate CallsNothing(c: Ctx, env: Env, d: nat, irq: Irq, received: RadioError) {
    !CallsTx(c, env, d, irq) && forall e :: !Calls(e, c, env, d, irq, received)
  }

  /** What the chip part adds to the history when the simulated part has left `stale`. */
  lemma ChipReports(c: Ctx, env: Env, stale: Option<Event>, irq: Irq, received: RadioError, e: Event)
    requires c.radioState != Scan
    ensures
      var (c1, o) := ChipPart(c, env, irq, received);
      var h := Tail(c1, env, stale, o).history;
      && (h == c.history + [Reported(e, ByChip)] <==> Calls(e, c, env, c.drawn, irq, received))
      && (CallsTx(c, env, c.drawn, irq) ==> h == c.history)
      && (CallsNothing(c, env, c.drawn, irq, received) ==> h == c.history + if stale.Some? then [Reported(stale.value, Leftover)] else [])
  {
    hide Observe, ChipPart, Tail, Calls, CallsTx;
    var (c1, o) := ChipPart(c, env, irq, received);
    TailReports(c1, env, stale, o);
    ChipSays(c, env, irq, received, e);
    if o.Assign? && o.e.Some? { ChipSays(c, env, irq, received, o.e.value); }
    LastReport(c.history, e, if o.Assign? && o.e.Some? then o.e.value else e);
    assert c.history + [] == c.history;
    assert |c.history + [Reported(e, ByChip)]| == |c.history| + 1;
    if stale.Some? { OriginDiffers(c.history, e, stale.value); }
  }

  lemma LastReport(h: seq<Happening>, e: Event, f: Event)
    ensures h + [Reported(e, ByChip)] == h + [Reported(f, ByChip)] <==> e == f
  {
    assert (h + [Reported(e, ByChip)])[|h|] == Reported(e, ByChip) && (h + [Reported(f, ByChip)])[|h|] == Reported(f, ByChip);
  }

  lemma OriginDiffers(h: seq<Happening>, e: Event, f: Event)
    ensures h + [Reported(e, ByChip)] != h + [Reported(f, Leftover)]
  {
    assert (h + [Reported(e, ByChip)])[|h|] == Reported(e, ByChip) && (h + [Reported(f, Leftover)])[|h|] == Reported(f, Leftover);
  }

  // ------------------------------------------------------------------ the handler

  /** Without a simulated timeout the handler reports `e` if and only if the flags call for it. */
  lemma EventReported(c: Ctx, env: Env, irq: Irq, received: RadioError, e: Event)
    requires c.timeoutSim == SimOff
    ensures
      var h := IrqProcess(c, env, irq, received).history;
      && (h == c.history + [Reported(e, ByChip)] <==> c.radioState != Scan && Calls(e, c, env, c.drawn, irq, received))
      && (c.radioState == Scan || CallsTx(c, env, c.drawn, irq) || CallsNothing(c, env, c.drawn, irq, received) ==> h == c.history)
  {
    hide Observe, ChipPart, Tail, Calls, CallsTx, CallsNothing;
    if c.radioState == Scan {
      assert |c.history + [Reported(e, ByChip)]| == |c.history| + 1;
    } else {
      ChipReports(c, env, None, irq, received, e);
    }
  }

  /** The same for every event at once. */
  lemma EventsReported(c: Ctx, env: Env, irq: Irq, received: RadioError)
    requires c.timeoutSim == SimOff && c.radioState != Scan
    ensures forall e ::
      IrqProcess(c, env, irq, received).history == c.history + [Reported(e, ByChip)] <==> Calls(e, c, env, c.drawn, irq, received)
  {
    forall e: Event
      ensures IrqProcess(c, env, irq, received).history == c.history + [Reported(e, ByChip)] <==> Calls(e, c, env, c.drawn, irq, received)
    {
      EventReported(c, env, irq, received, e);
    }
  }

  /** The event of a simulated timeout. */
  function Simulated(kind: TimeoutSim): Event {
    if kind == SimTx then TxDone else RxTimeout
  }

  /** A deferred window, armed as the first is taken off, if the timer answers. */
  function Rearming(c: Ctx, env: Env): seq<Happening> {
    if c.timeoutSim == SimRx && c.deferredTimeout != 0 && env(c.drawn) then [Armed(SimRx)] else []
  }

  /** A simulated transmission is reported as done, a simulated window as timed out; a deferred window is then
      pending as one, and nothing else moves. */
  lemma SimulatedReport(c: Ctx, env: Env)
    requires c.timeoutSim != SimOff && !(c.timeoutSim == SimRx && c.cadExitMode == CsLbt)
    ensures
      var (r, stale) := SimPart(c, env);
      && stale == Some(Simulated(c.timeoutSim))
      && r == c.(timeoutSim := if Rearming(c, env) == [] then SimOff else SimRx,
                 deferredTimeout := if c.timeoutSim == SimRx then 0 else c.deferredTimeout,
                 timerArmed := c.timerArmed || Rearming(c, env) != [], drawn := c.drawn + Asked(c),
                 history := c.history + Rearming(c, env) + [Reported(Simulated(c.timeoutSim), BySimulation)])
  {
    hide Observe;
    assert c.history + [] == c.history;
  }

  /** The handler with a simulated timeout pending: its report first; in a scan nothing more; else what the flags
      call for, or the report once more. */
  lemma SimulatedThenChip(c: Ctx, env: Env, irq: Irq, received: RadioError, e: Event)
    requires c.timeoutSim != SimOff && !(c.timeoutSim == SimRx && c.cadExitMode == CsLbt)
    ensures
      var h := c.history + Rearming(c, env) + [Reported(Simulated(c.timeoutSim), BySimulation)];
      var d, after := c.drawn + Asked(c), IrqProcess(c, env, irq, received).history;
      && (c.radioState == Scan ==> after == h)
      && (c.radioState != Scan ==>
          && (after == h + [Reported(e, ByChip)] <==> Calls(e, c, env, d, irq, received))
          && (CallsTx(c, env, d, irq) ==> after == h)
          && (CallsNothing(c, env, d, irq, received) ==> after == h + [Reported(Simulated(c.timeoutSim), Leftover)]))
  {
    hide Observe, SimPart, ChipPart, Tail, Calls, CallsTx;
    SimulatedReport(c, env);
    var (c1, stale) := SimPart(c, env);
    if c1.radioState != Scan {
      ChipReports(c1, env, stale, irq, received, e);
      forall f: Event ensures Calls(f, c1, env, c1.drawn, irq, received) == Calls(f, c, env, c1.drawn, irq, received) {
        SameCalls(c, c1, env, irq, received, f);
      }
      SameCalls(c, c1, env, irq, received, e);
    }
  }

  lemma SameCalls(c: Ctx, c1: Ctx, env: Env, irq: Irq, received: RadioError, e: Event)
    requires c1.modem == c.modem && c1.cadExitMode == c.cadExitMode && c1.radioState == c.radioState
    ensures Calls(e, c1, env, c1.drawn, irq, received) == Calls(e, c, env, c1.drawn, irq, received)
    ensures CallsTx(c1, env, c1.drawn, irq) == CallsTx(c, env, c1.drawn, irq)
  {
    hide Flagged, Transmits;
    SameFlags(c, c1, PacketRead(env, c1.drawn, irq), irq, received, e);
  }

  lemma RearmedExactly(c: Ctx, env: Env)
    requires c.timeoutSim == SimRx
    ensures Rearmed(c, env)
         == c.(timeoutSim := if Rearming(c, env) == [] then SimOff else SimRx, deferredTimeout := 0,
               timerArmed := c.timerArmed || Rearming(c, env) != [], drawn := c.drawn + Asked(c),
               history := c.history + Rearming(c, env))
  {
    assert c.history + [] == c.history;
  }

  /** Under listen-before-talk a simulated window that expires outside a scan is a transmission and no event. */
  lemma SimulatedTalk(c: Ctx, env: Env)
    requires c.timeoutSim == SimRx && c.cadExitMode == CsLbt && c.radioState != Scan
    ensures
      var (r, stale) := SimPart(c, env);
      var d := c.drawn + Asked(c);
      && stale == None && r.cadExitMode == NoMode && r.deferredTimeout == 0 && r.history == c.history + Rearming(c, env)
      && (LaunchesOne(env, d) ==> r.radioState == Tx && r.trace == c.trace + Cleared(env, d + 2) + [(SetTx, true)])
  {
    hide Observe, Launch, LaunchesOne, Cleared, Rearmed, OrdinaryOrSimulates;
    RearmedExactly(c, env);
    OneLaunch(Rearmed(c, env).(cadExitMode := NoMode), env, SetTx, Tx);
  }

  /** In a scan that transmission is simulated too, unless the timer is taken by the deferred window. */
  lemma SimulatedTalkInScan(c: Ctx, env: Env)
    requires c.timeoutSim == SimRx && c.cadExitMode == CsLbt && c.radioState == Scan
    ensures
      var (r, stale) := SimPart(c, env);
      var talks := !c.timerArmed && Rearming(c, env) == [] && env(c.drawn + Asked(c));
      && stale == None && r.cadExitMode == NoMode && r.deferredTimeout == 0
      && r.history == c.history + Rearming(c, env) + (if talks then [Armed(SimTx)] else [])
      && r.timeoutSim == if talks then SimTx else if Rearming(c, env) == [] then SimOff else SimRx
  {
    hide Observe, Launch, Rearmed, OrdinaryOrSimulates;
    RearmedExactly(c, env);
    assert c.history + Rearming(c, env) + [] == c.history + Rearming(c, env);
  }

  // -------------------------------------------------------- what the chip is told

  /** The flags of transmission, errors and timeouts tell the chip nothing, unless a transmission follows. */
  lemma FlagSent(c: Ctx, env: Env, irq: Irq, received: RadioError)
    requires c.radioState != Scan
    ensures
      var r := FlagPart(c, env, irq, received).0;
      && (Transmits(c, irq) ==>
          && r.cadExitMode == NoMode
          && (LaunchesOne(env, c.drawn) ==> r.radioState == Tx && r.trace == c.trace + Cleared(env, c.drawn + 2) + [(SetTx, true)]))
      && (!Transmits(c, irq) && !ModemsTurn(irq) ==> r == c)
      && (!Transmits(c, irq) && ModemsTurn(irq) && c.modem == Lora && irq.cadDone ==> r == c.(cadExitMode := NoMode))
  {
    hide Observe, Launch, LoraPart, FskPart, LaunchesOne, Cleared;
    OneLaunch(c.(cadExitMode := NoMode), env, SetTx, Tx);
    OneLaunch(c, env, SetTx, Tx);
    if ModemsTurn(irq) && c.modem == Lora && irq.cadDone { LoraCad(c, env, irq); }
  }

  lemma LoraCad(c: Ctx, env: Env, irq: Irq)
    requires c.radioState != Scan && irq.cadDone
    ensures LoraPart(c, env, irq).0 ==
            if !irq.cadDetected && c.cadExitMode == CsLbt then StartTx(c, env).0.(cadExitMode := NoMode) else c.(cadExitMode := NoMode)
  {
    hide Observe, StartTx;
  }

  /** A packet is read, a sync word handled, a sensed carrier answered with standby. */
  lemma ModemFlagSent(c: Ctx, env: Env, irq: Irq, received: RadioError)
    requires c.radioState != Scan && ModemsTurn(irq)
    ensures
      var r := FlagPart(c, env, irq, received).0;
      var scanned := (if irq.wifiScanDone then 1 else 0) + (if irq.gnssScanDone then 1 else 0);
      && (c.modem == Lora && !irq.cadDone && irq.rxDone ==> r == Sent(c, env, ReadPacket))
      && (c.modem == Lora && !irq.cadDone && !irq.rxDone ==> ScanDone(c, env, c, r, scanned))
      && (c.modem == Fsk && irq.syncWord ==> r == Sent(c, env, ReadSyncWord))
      && (c.modem == Fsk && !irq.syncWord && irq.preamble ==>
          r == if c.cadExitMode == CsLbt then GoStandby(c.(cadExitMode := NoMode), env).0 else c)
      && (c.modem == Fsk && !irq.syncWord && !irq.preamble ==>
          ScanDone(c, env, if irq.rxDone then Sent(c, env, ReadPacket) else c, r, scanned))
  {
    hide Observe, GoStandby, WithScanDone, StartTx;
    if c.modem == Fsk && !irq.syncWord && !irq.preamble {
      ScansSent(if irq.rxDone then Sent(c, env, ReadPacket) else c, env, irq);
    } else if c.modem == Lora && !irq.cadDone && !irq.rxDone {
      ScansSent(c, env, irq);
    }
  }

  /** One command, whatever the answer. */
  function Sent(c: Ctx, env: Env, cmd: Cmd): Ctx {
    c.(drawn := c.drawn + 1, trace := c.trace + [(cmd, env(c.drawn))])
  }

  lemma ScansSent(c: Ctx, env: Env, irq: Irq)
    requires c.radioState != Scan
    ensures
      var scanned := (if irq.wifiScanDone then 1 else 0) + (if irq.gnssScanDone then 1 else 0);
      ScanDone(c, env, c, WithScanDone(c, env, irq), scanned)
  {
    hide Observe;
  }

  /** For each kind of scan that is done the modem's packet type is sent, and the radio is busy. */
  predicate ScanDone(c: Ctx, env: Env, before: Ctx, r: Ctx, n: nat)
    requires n <= 2
  {
    var cmd := SetPktType(if c.modem == Fsk then PktGfsk else PktLora);
    r == before.(radioState := if n > 0 then BusyState else c.radioState, drawn := before.drawn + n,
                 trace := if n == 0 then before.trace
                          else if n == 1 then before.trace + [(cmd, env(before.drawn))]
                          else before.trace + [(cmd, env(before.drawn))] + [(cmd, env(before.drawn + 1))])
  }

  /** Outside a scan the handler ends, unless the radio sleeps, by switching the driver's interrupts on again. */
  lemma InterruptsBack(c: Ctx, env: Env, irq: Irq, received: RadioError)
    requires c.radioState != Scan
    ensures
      var r := IrqProcess(c, env, irq, received);
      && r.irqMask == c.irqMask
      && (r.radioState != Sleep ==> |r.trace| > 0 && r.trace[|r.trace| - 1].0 == SetDioIrq(c.irqMask))
  {
    hide Observe, SimPart, ChipPart, Ordinary;
    SimKeepsMask(c, env);
    var (c1, stale) := SimPart(c, env);
    ChipKeepsMask(c1, env, irq, received);
    var (c2, o) := ChipPart(c1, env, irq, received);
    TailEnables(c2, env, stale, o);
  }

  lemma SimKeepsMask(c: Ctx, env: Env)
    requires c.radioState != Scan
    ensures SimPart(c, env).0.irqMask == c.irqMask && SimPart(c, env).0.radioState != Scan
  {
    hide SimPart;
  }

  lemma ChipKeepsMask(c: Ctx, env: Env, irq: Irq, received: RadioError)
    requires c.radioState != Scan
    ensures ChipPart(c, env, irq, received).0.irqMask == c.irqMask && ChipPart(c, env, irq, received).0.radioState != Scan
  {
    hide ChipPart;
  }

  lemma TailEnables(c: Ctx, env: Env, stale: Option<Event>, o: Outcome)
    requires c.radioState != Scan
    ensures
      var r := Tail(c, env, stale, o);
      && r.irqMask == c.irqMask && r.radioState == c.radioState
      && (c.radioState != Sleep ==> r.drawn == c.drawn + 1 && r.trace == c.trace + [(SetDioIrq(c.irqMask), env(c.drawn))])
      && (c.radioState == Sleep ==> r.trace == c.trace && r.drawn == c.drawn)
  {
    hide Observe, Commands;
    var e := if o.Keep? then stale else o.e;
    var c1 := if e.Some? then Report(c, e.value, if o.Keep? then Leftover else ByChip) else c;
    OneCommand(c1, env, SetDioIrq(c.irqMask), IoError);
  }
}
