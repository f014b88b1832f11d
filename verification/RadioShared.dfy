/** Runs in which the location modem, too, sends commands to the chip, which it does while a scan holds it. */
module RadioShared {
  import opened Radio
  import opened RadioRuns

  datatype Move = Own(call: Call) | Foreign(cmd: Cmd)

  function Make(c: Ctx, env: Env, m: Move): Ctx {
    match m
    case Own(call) => Apply(c, env, call)
    case Foreign(cmd) => if c.radioState == Scan then Chip(c, env, cmd).0 else c
  }

  function SharedRun(c: Ctx, env: Env, ms: seq<Move>): Ctx
    decreases |ms|
  {
    if ms == [] then c else Make(SharedRun(c, env, ms[..|ms| - 1]), env, ms[|ms| - 1])
  }

  predicate EndsIt(m: Move) {
    m.Own? && EndsScan(m.call)
  }

  /** What the location modem sends. */
  function ForeignCmds(ms: seq<Move>): seq<Cmd> {
    if ms == [] then []
    else
      var m := ms[|ms| - 1];
      if m.Foreign? then ForeignCmds(ms[..|ms| - 1]) + [m.cmd] else ForeignCmds(ms[..|ms| - 1])
  }

  /** The trace has grown by exactly these commands, in order. */
  predicate Grown(before: seq<(Cmd, bool)>, after: seq<(Cmd, bool)>, cmds: seq<Cmd>) {
    && |after| == |before| + |cmds| && before == after[..|before|]
    && forall i :: 0 <= i < |cmds| ==> after[|before| + i].0 == cmds[i]
  }

  lemma GrownThen(before: seq<(Cmd, bool)>, after: seq<(Cmd, bool)>, cmds: seq<Cmd>, cmd: Cmd, ok: bool)
    requires Grown(before, after, cmds)
    ensures Grown(before, after + [(cmd, ok)], cmds + [cmd])
  {
    assert (after + [(cmd, ok)])[..|before|] == after[..|before|];
  }

  /** In a scan the chip gets the commands of the location modem, all of them and no others, whatever is called
      meanwhile, and the driver's configuration stays. */
  lemma {:induction false} ScanIsTheirs(c: Ctx, env: Env, ms: seq<Move>)
    requires c.radioState == Scan && forall i :: 0 <= i < |ms| ==> !EndsIt(ms[i])
    ensures
      var r := SharedRun(c, env, ms);
      OnlySimulates(c, r.(trace := c.trace)) && Grown(c.trace, r.trace, ForeignCmds(ms))
    decreases |ms|
  {
    hide Apply, Observe;
    if ms != [] {
      var n := |ms| - 1;
      var before := SharedRun(c, env, ms[..n]);
      ScanIsTheirs(c, env, ms[..n]);
      match ms[n]
      case Own(call) => ScanStep(before, env, call);
      case Foreign(cmd) => GrownThen(c.trace, before.trace, ForeignCmds(ms[..n]), cmd, env(before.drawn));
    }
  }
}
