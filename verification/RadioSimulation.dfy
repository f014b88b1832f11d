/** Simulated timeouts over whole runs: every one that is armed is pending, reported, or lost in one of two
    ways, and some are reported twice. */
module RadioSimulation {
  import opened RadioTypes
  import opened Wrappers
  import opened Radio
  import opened RadioRuns

  function Armings(h: seq<Happening>): nat {
    if h == [] then 0 else Armings(h[..|h| - 1]) + if h[|h| - 1].Armed? then 1 else 0
  }

  predicate IsReport(h: Happening, origin: Source) {
    h.Reported? && h.origin == origin
  }

  function Reports(h: seq<Happening>, origin: Source): nat {
    if h == [] then 0 else Reports(h[..|h| - 1], origin) + if IsReport(h[|h| - 1], origin) then 1 else 0
  }

  lemma HistoryGrows(h: seq<Happening>, x: Happening, origin: Source)
    ensures Armings(h + [x]) == Armings(h) + if x.Armed? then 1 else 0
    ensures Reports(h + [x], origin) == Reports(h, origin) + if IsReport(x, origin) then 1 else 0
  {
    assert (h + [x])[..|h|] == h;
  }

  function Pending(c: Ctx): nat {
    if c.timeoutSim == SimOff then 0 else 1
  }

  /** Armed timeouts that are neither reported nor pending. */
  function Missing(c: Ctx): int {
    Armings(c.history) - Reports(c.history, BySimulation) - Pending(c)
  }

  // -------------------------------------------------------------------- one step

  /** A start in a scan replaces a timeout that has expired and is not yet processed. */
  predicate Overwrites(c: Ctx, env: Env, call: Call) {
    (call.TxCall? || call.RxCall?) && c.radioState == Scan && !c.timerArmed && c.timeoutSim != SimOff && env(c.drawn)
  }

  /** Listen-before-talk turns a simulated receive timeout into a transmission instead of a report. */
  predicate Suppresses(c: Ctx, call: Call) {
    call.IrqCall? && c.timeoutSim == SimRx && c.cadExitMode == CsLbt
  }

  predicate Loses(c: Ctx, env: Env, call: Call) {
    Overwrites(c, env, call) || Suppresses(c, call)
  }

  lemma ArmStep(c: Ctx, env: Env, kind: TimeoutSim)
    requires kind != SimOff
    ensures
      var r := StartTimeoutSim(c, env, kind).0;
      && Missing(r) == Missing(c) + (if env(c.drawn) && c.timeoutSim != SimOff then 1 else 0)
      && Reports(r.history, Leftover) == Reports(c.history, Leftover)
  {
    hide Armings, Reports;
    HistoryGrows(c.history, Armed(kind), BySimulation);
    HistoryGrows(c.history, Armed(kind), Leftover);
  }

  lemma StartTxStep(c: Ctx, env: Env)
    ensures
      var r := StartTx(c, env).0;
      && Missing(r) == Missing(c) + (if Overwrites(c, env, TxCall) then 1 else 0)
      && Reports(r.history, Leftover) == Reports(c.history, Leftover)
  {
    hide Observe;
    if c.radioState == Scan && !c.timerArmed { ArmStep(c, env, SimTx); }
  }

  lemma StartRxStep(c: Ctx, env: Env, timeout: nat)
    ensures
      var r := StartRx(c, env, timeout).0;
      && Missing(r) == Missing(c) + (if Overwrites(c, env, RxCall(timeout)) then 1 else 0)
      && Reports(r.history, Leftover) == Reports(c.history, Leftover)
  {
    hide Observe;
    if c.radioState == Scan && !c.timerArmed { ArmStep(c, env, SimRx); }
  }

  lemma ReportStep(c: Ctx, e: Event, origin: Source)
    ensures
      var r := Report(c, e, origin);
      && Missing(r) == Missing(c) - (if origin == BySimulation then 1 else 0)
      && Reports(r.history, Leftover) == Reports(c.history, Leftover) + (if origin == Leftover then 1 else 0)
  {
    hide Armings, Reports;
    HistoryGrows(c.history, Reported(e, origin), BySimulation);
    HistoryGrows(c.history, Reported(e, origin), Leftover);
  }

  lemma SimStep(c: Ctx, env: Env)
    ensures
      var (r, stale) := SimPart(c, env);
      && Missing(r) == Missing(c) + (if c.timeoutSim == SimRx && c.cadExitMode == CsLbt then 1 else 0)
      && Reports(r.history, Leftover) == Reports(c.history, Leftover)
      && (stale.Some? <==> c.timeoutSim == SimTx || (c.timeoutSim == SimRx && c.cadExitMode != CsLbt))
      && (stale.Some? ==> r.drawn == c.drawn + Asked(c) && r.modem == c.modem && r.cadExitMode == c.cadExitMode)
  {
    hide Observe, Armings, Reports;
    match c.timeoutSim
    case SimOff =>
    case SimTx => ReportStep(c.(timeoutSim := SimOff), TxDone, BySimulation);
    case SimRx =>
      var c1 := c.(timeoutSim := SimOff);
      ArmStep(c1, env, SimRx);
      var c2 := Rearmed(c, env);
      if c.cadExitMode == CsLbt { StartTxStep(c2.(cadExitMode := NoMode), env); }
      else { ReportStep(c2, RxTimeout, BySimulation); }
  }

  lemma TailStep(c: Ctx, env: Env, stale: Option<Event>, o: Outcome)
    requires c.radioState != Scan
    ensures
      var r := Tail(c, env, stale, o);
      && Missing(r) == Missing(c)
      && Reports(r.history, Leftover) == Reports(c.history, Leftover) + (if stale.Some? && o.Keep? then 1 else 0)
  {
    hide Observe, EnableIrq, Armings, Reports;
    var e := if o.Keep? then stale else o.e;
    if e.Some? { ReportStep(c, e.value, if o.Keep? then Leftover else ByChip); }
  }

  /** A flag makes irq_process assign its event variable; `packet` says that a received packet can be read. */
  predicate FlagsDecide(modem: Modem, lbt: bool, packet: bool, irq: Irq, received: RadioError) {
    || irq.txDone || irq.crcError || irq.timeout || irq.headerError
    || if modem == Lora then irq.cadDone || (irq.rxDone && packet)
       else !irq.syncWord && if irq.preamble then lbt else irq.rxDone && (received == NoError || received == Generic)
  }

  /** As above, the answers of the chip beginning at `first`: disabling and reading the interrupts must succeed. */
  predicate Decides(c: Ctx, env: Env, first: nat, irq: Irq, received: RadioError) {
    && env(first) && env(first + 1)
    && FlagsDecide(c.modem, c.cadExitMode == CsLbt, env(first + if irq.error then 4 else 2), irq, received)
  }

  lemma FlagStep(c: Ctx, env: Env, irq: Irq, received: RadioError)
    requires c.radioState != Scan
    ensures FlagPart(c, env, irq, received).1.Keep? <==> !FlagsDecide(c.modem, c.cadExitMode == CsLbt, env(c.drawn), irq, received)
  {
    hide Observe, WithScanDone, StartTx, GoStandby;
  }

  lemma ChipStep(c: Ctx, env: Env, irq: Irq, received: RadioError)
    requires c.radioState != Scan
    ensures ChipPart(c, env, irq, received).1.Keep? <==> !Decides(c, env, c.drawn, irq, received)
  {
    hide Observe, FlagPart, ReadIrq;
    var (c1, err) := ReadIrq(c, env, irq);
    if err == NoError {
      FlagStep(c1, env, irq, received);
      assert ChipPart(c, env, irq, received) == FlagPart(c1, env, irq, received);
    }
  }

  /** Answers the simulated part draws: that of arming a deferred window. */
  function Asked(c: Ctx): nat {
    if c.timeoutSim == SimRx && c.deferredTimeout != 0 then 1 else 0
  }

  /** The handler reports a simulated timeout, and then the same event once more. */
  predicate ReportsTwice(c: Ctx, env: Env, call: Call) {
    && call.IrqCall? && c.radioState != Scan && c.timeoutSim != SimOff && !Suppresses(c, call)
    && !Decides(c, env, c.drawn + Asked(c), call.irq, call.received)
  }

  lemma IrqStep(c: Ctx, env: Env, call: Call)
    requires call.IrqCall?
    ensures
      var r := Apply(c, env, call);
      && Missing(r) == Missing(c) + (if Loses(c, env, call) then 1 else 0)
      && Reports(r.history, Leftover) == Reports(c.history, Leftover) + (if ReportsTwice(c, env, call) then 1 else 0)
  {
    hide SimPart, ChipPart, Tail, Missing, Decides, Reports;
    SimStep(c, env);
    var (c1, stale) := SimPart(c, env);
    if c1.radioState != Scan {
      AfterSimulation(c1, env, stale, call.irq, call.received);
      SameDecision(c, env, call.irq, call.received);
    }
  }

  lemma AfterSimulation(c: Ctx, env: Env, stale: Option<Event>, irq: Irq, received: RadioError)
    requires c.radioState != Scan
    ensures
      var (c1, o) := ChipPart(c, env, irq, received);
      var r := Tail(c1, env, stale, o);
      && Missing(r) == Missing(c)
      && Reports(r.history, Leftover)
         == Reports(c.history, Leftover) + (if stale.Some? && !Decides(c, env, c.drawn, irq, received) then 1 else 0)
  {
    hide Observe, ChipPart, Tail, Decides, Armings, Reports;
    ChipStep(c, env, irq, received);
    var (c1, o) := ChipPart(c, env, irq, received);
    TailStep(c1, env, stale, o);
  }

  lemma SameDecision(c: Ctx, env: Env, irq: Irq, received: RadioError)
    ensures
      var (c1, stale) := SimPart(c, env);
      stale.Some? ==> Decides(c1, env, c1.drawn, irq, received) == Decides(c, env, c.drawn + Asked(c), irq, received)
  {
    hide Observe, SimPart, Missing, Reports;
    SimStep(c, env);
  }

  lemma Step(c: Ctx, env: Env, call: Call)
    ensures
      var r := Apply(c, env, call);
      && Missing(r) == Missing(c) + (if Loses(c, env, call) then 1 else 0)
      && Reports(r.history, Leftover) == Reports(c.history, Leftover) + (if ReportsTwice(c, env, call) then 1 else 0)
  {
    hide Observe, IrqProcess, Init, Perform, SetModemMode, SetFrequency, TxContinuousWave, HoldScan, Reports, Armings;
    match call
    case IrqCall(_, _) => IrqStep(c, env, call);
    case TxCall => StartTxStep(c, env);
    case RxCall(timeout) => StartRxStep(c, env, timeout);
    case _ =>
  }

  // ------------------------------------------------------------------- whole runs

  datatype Fault = Loss | Repetition

  predicate Commits(c: Ctx, env: Env, call: Call, f: Fault) {
    if f == Loss then Loses(c, env, call) else ReportsTwice(c, env, call)
  }

  predicate FaultAt(c: Ctx, env: Env, calls: seq<Call>, k: nat, f: Fault)
    requires k < |calls|
  {
    Commits(Run(c, env, calls[..k]), env, calls[k], f)
  }

  function Verdicts(c: Ctx, env: Env, calls: seq<Call>, f: Fault): (v: seq<bool>)
    ensures |v| == |calls|
    decreases |calls|
  {
    if calls == [] then []
    else
      var n := |calls| - 1;
      Verdicts(c, env, calls[..n], f) + [Commits(Run(c, env, calls[..n]), env, calls[n], f)]
  }

  lemma {:induction false} VerdictAt(c: Ctx, env: Env, calls: seq<Call>, k: nat, f: Fault)
    requires k < |calls|
    ensures Verdicts(c, env, calls, f)[k] == FaultAt(c, env, calls, k, f)
    decreases |calls|
  {
    hide Commits, Apply;
    if k < |calls| - 1 {
      VerdictAt(c, env, calls[..|calls| - 1], k, f);
      assert calls[..|calls| - 1][..k] == calls[..k];
    }
  }

  function Count(v: seq<bool>): nat {
    if v == [] then 0 else Count(v[..|v| - 1]) + if v[|v| - 1] then 1 else 0
  }

  lemma {:induction false} CountZero(v: seq<bool>)
    ensures Count(v) == 0 <==> forall k :: 0 <= k < |v| ==> !v[k]
  {
    if v != [] {
      var w := v[..|v| - 1];
      CountZero(w);
      assert forall k :: 0 <= k < |w| ==> w[k] == v[k];
    }
  }

  function Faults(c: Ctx, env: Env, calls: seq<Call>, f: Fault): nat {
    Count(Verdicts(c, env, calls, f))
  }

  lemma FaultsGrow(c: Ctx, env: Env, calls: seq<Call>, f: Fault)
    requires calls != []
    ensures
      var n := |calls| - 1;
      Faults(c, env, calls, f) == Faults(c, env, calls[..n], f) + if Commits(Run(c, env, calls[..n]), env, calls[n], f) then 1 else 0
  {
    hide Commits, Apply;
    var v, w := Verdicts(c, env, calls, f), Verdicts(c, env, calls[..|calls| - 1], f);
    assert v[..|v| - 1] == w;
  }

  lemma NoFaults(c: Ctx, env: Env, calls: seq<Call>, f: Fault)
    ensures Faults(c, env, calls, f) == 0 <==> forall k: nat :: k < |calls| ==> !FaultAt(c, env, calls, k, f)
  {
    hide Commits, Run, Verdicts, FaultAt;
    var v := Verdicts(c, env, calls, f);
    CountZero(v);
    forall k: nat | k < |calls| ensures v[k] == FaultAt(c, env, calls, k, f) {
      VerdictAt(c, env, calls, k, f);
    }
  }

  lemma {:induction false} RunAccounts(c: Ctx, env: Env, calls: seq<Call>)
    ensures
      var r := Run(c, env, calls);
      && Missing(r) == Missing(c) + Faults(c, env, calls, Loss)
      && Reports(r.history, Leftover) == Reports(c.history, Leftover) + Faults(c, env, calls, Repetition)
    decreases |calls|
  {
    hide Apply, Missing, Reports;
    if calls != [] {
      var n := |calls| - 1;
      RunAccounts(c, env, calls[..n]);
      Step(Run(c, env, calls[..n]), env, calls[n]);
      FaultsGrow(c, env, calls, Loss);
      FaultsGrow(c, env, calls, Repetition);
    }
  }

  /** Before the first arming. */
  predicate Fresh(c: Ctx) {
    c.timeoutSim == SimOff && c.history == []
  }

  /** Reports by simulation and a pending timeout never exceed the armings, and equal them exactly when no
      start has replaced an unprocessed expiry and listen-before-talk has swallowed none. */
  lemma SimulatedEventsConserved(c: Ctx, env: Env, calls: seq<Call>)
    requires Fresh(c)
    ensures
      var r := Run(c, env, calls);
      && Reports(r.history, BySimulation) + Pending(r) <= Armings(r.history)
      && (Reports(r.history, BySimulation) + Pending(r) == Armings(r.history) <==>
          forall k: nat :: k < |calls| ==> !FaultAt(c, env, calls, k, Loss))
  {
    hide Run, Faults, FaultAt;
    RunAccounts(c, env, calls);
    NoFaults(c, env, calls, Loss);
  }

  /** Each simulated timeout is reported once exactly when no irq_process finds one pending outside a scan and
      no flag of the chip to put in its place. */
  lemma ReportedOnce(c: Ctx, env: Env, calls: seq<Call>)
    requires Fresh(c)
    ensures Reports(Run(c, env, calls).history, Leftover) == 0 <==>
            forall k: nat :: k < |calls| ==> !FaultAt(c, env, calls, k, Repetition)
  {
    hide Run, Faults, FaultAt;
    RunAccounts(c, env, calls);
    NoFaults(c, env, calls, Repetition);
  }

  const NO_FLAGS := Irq(false, false, false, false, false, false, false, false, false, false, false, false)

  /** The handler run for the timer alone, outside a scan, always reports a pending timeout twice. */
  lemma ExpiryAfterRelease(c: Ctx, env: Env, received: RadioError)
    requires c.radioState != Scan && c.timeoutSim != SimOff && c.cadExitMode != CsLbt
    ensures
      var r := Apply(c, env, IrqCall(NO_FLAGS, received));
      && Reports(r.history, BySimulation) + Pending(r) - Armings(r.history)
         == Reports(c.history, BySimulation) + Pending(c) - Armings(c.history)
      && Reports(r.history, Leftover) == Reports(c.history, Leftover) + 1
  {
    hide Apply;
    Step(c, env, IrqCall(NO_FLAGS, received));
  }

  const WINDOW: seq<Call> := [HoldCall, RxCall(34), ReleaseCall, TimerCall]

  /** A receive window opened during a scan is still pending when the scan is released before it expires. */
  lemma WindowOutlivesScan(c: Ctx, env: Env)
    requires Fresh(c) && c.radioState == Standby && !c.timerArmed && forall i :: env(i)
    ensures
      var r := Run(c, env, WINDOW);
      && r.radioState == Standby && r.timeoutSim == SimRx && r.cadExitMode == c.cadExitMode && r.history == [Armed(SimRx)]
  {
    hide HoldScan, Run, Observe, Apply, StartRx, ReleaseScan;
    RunFour(c, env, HoldCall, RxCall(34), ReleaseCall, TimerCall);
    HoldGranted(c, env);
    assert Apply(c, env, HoldCall) == HoldScan(c, env).0 by { ApplyHold(c, env); }
    AfterHold(HoldScan(c, env).0, env);
  }

  lemma ApplyHold(c: Ctx, env: Env)
    ensures Apply(c, env, HoldCall) == HoldScan(c, env).0
  {
  }

  lemma AfterHold(c: Ctx, env: Env)
    requires Fresh(c) && c.radioState == Scan && !c.timerArmed && env(c.drawn)
    ensures
      var r := Apply(Apply(Apply(c, env, RxCall(34)), env, ReleaseCall), env, TimerCall);
      && r.radioState == Standby && r.timeoutSim == SimRx && r.cadExitMode == c.cadExitMode && r.history == [Armed(SimRx)]
  {
    hide Observe, Chip;
  }

  lemma OneArming()
    ensures Armings([Armed(SimRx)]) == 1 && Reports([Armed(SimRx)], BySimulation) == 0 && Reports([Armed(SimRx)], Leftover) == 0
  {
    HistoryGrows([], Armed(SimRx), BySimulation);
    HistoryGrows([], Armed(SimRx), Leftover);
    assert [] + [Armed(SimRx)] == [Armed(SimRx)];
  }

  /** One arming, two reports. */
  lemma OneArmingTwoReports(c: Ctx, env: Env)
    requires Fresh(c) && c.radioState == Standby && !c.timerArmed && c.cadExitMode == NoMode
    requires forall i :: env(i)
    ensures
      var r := Run(c, env, WINDOW + [IrqCall(NO_FLAGS, NoError)]);
      Armings(r.history) == Reports(r.history, BySimulation) + Pending(r) && Reports(r.history, Leftover) == 1
  {
    hide Run, Apply, Armings, Reports;
    WindowOutlivesScan(c, env);
    RunThen(c, env, WINDOW, IrqCall(NO_FLAGS, NoError));
    var w := Run(c, env, WINDOW);
    OneArming();
    ExpiryAfterRelease(w, env, NoError);
  }
}
