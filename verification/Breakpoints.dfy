/** Breakpoints: which visits stop the machine, and what the hit counters count. */
module Breakpoints {
  import opened Options
  import opened Machine
  import opened Ticks
  import opened Slices

  /** Is the turn a visit that the breakpoint at pc looks at? */
  predicate Qualifies(bp: Breakpoint, pc: nat, t: Turn) {
    && (t.Stopped? || (t.Stepped? && t.armed))
    && t.pc == pc && Applies(bp, t.hart, t.mode)
  }

  function Visits(bp: Breakpoint, pc: nat, ts: seq<Turn>): nat {
    if ts == [] then 0 else
    Visits(bp, pc, ts[..|ts| - 1]) + if Qualifies(bp, pc, ts[|ts| - 1]) then 1 else 0
  }

  /** The i-th turn is a stop exactly when the breakpoint fires at the hit count reached by then. */
  ghost predicate StopsRightly(bp: Breakpoint, pc: nat, ts: seq<Turn>, i: nat)
    requires i < |ts|
  {
    Qualifies(bp, pc, ts[i]) ==> (ts[i].Stopped? <==> Fires(bp, bp.hits + Visits(bp, pc, ts[..i + 1])))
  }

  ghost predicate Obeyed(before: map<nat, Breakpoint>, after: map<nat, Breakpoint>, ts: seq<Turn>) {
    && after.Keys == before.Keys
    && (forall pc :: pc in before ==>
      after[pc] == before[pc].(hits := before[pc].hits + Visits(before[pc], pc, ts)))
    && (forall pc, i :: pc in before && 0 <= i < |ts| ==> StopsRightly(before[pc], pc, ts, i))
    && (forall i :: 0 <= i < |ts| && ts[i].Stopped? ==>
      ts[i].pc in before && Qualifies(before[ts[i].pc], ts[i].pc, ts[i]))
  }

  /** From m to m', the trace and the counters agree with the breakpoints' meaning. */
  ghost predicate Lawful(m: Machine, m': Machine) {
    m.trace <= m'.trace && Obeyed(m.breakpoints, m'.breakpoints, m'.trace[|m.trace|..])
  }

  /**
   A breakpoint without hart and mode looks at every visit of its address; one for hart h (0 is a
   hart) at h's visits only, one for a mode at visits in that mode only.  A visit it looks at is a
   hit; the stop comes with the hit that makes afterHits, and with every later one.
   */
  lemma CheckMeans(m: Machine, j: nat)
    requires j < |m.harts|
    ensures
      var pc, c := m.harts[j].pc, CheckBreakpoint(m, j);
      if pc !in m.breakpoints then c == CheckResult(m, false) else
      var Breakpoint(afterHits, mode, hart, hits) := m.breakpoints[pc];
      var looks := (mode == Some(m.harts[j].mode) || mode == None) && (hart == j || hart <= -1);
      && c.m.breakpoints == m.breakpoints[pc := Breakpoint(afterHits, mode, hart, if looks then hits + 1 else hits)]
      && c.fired == (looks && !(0 < hits + 1 < afterHits))
      && c.m.stop == (if c.fired then BreakpointHit(j, pc, hits + 1) else m.stop)
      && c.m == m.(breakpoints := c.m.breakpoints, stop := c.m.stop)
  {}

  /** The same of the turns on record. */
  lemma QualifiesIff(bp: Breakpoint, pc: nat, t: Turn)
    ensures Qualifies(bp, pc, t) <==>
      && ((exists mode: Priv :: t == Stopped(t.hart, pc, mode) && (bp.mode == None || bp.mode.value == mode))
        || (exists mode: Priv, retired: bool, watched: bool ::
              t == Stepped(t.hart, pc, mode, true, retired, watched) && (bp.mode == None || bp.mode.value == mode)))
      && (bp.hart == t.hart || bp.hart <= -1)
  {
    match t
    case Skipped(_) =>
    case Stopped(h, at, mode) =>
      assert t == Stopped(t.hart, at, mode);
    case Stepped(h, at, mode, armed, retired, watched) =>
      assert t == Stepped(t.hart, at, mode, armed, retired, watched);
  }

  // Lawfulness composes

  lemma {:induction false} VisitsOfUpdated(bp: Breakpoint, hits: nat, pc: nat, ts: seq<Turn>)
    ensures Visits(bp.(hits := hits), pc, ts) == Visits(bp, pc, ts)
    decreases |ts|
  {
    if ts != [] {
      VisitsOfUpdated(bp, hits, pc, ts[..|ts| - 1]);
    }
  }

  lemma {:induction false} VisitsAppend(bp: Breakpoint, pc: nat, ts: seq<Turn>, us: seq<Turn>)
    ensures Visits(bp, pc, ts + us) == Visits(bp, pc, ts) + Visits(bp, pc, us)
    decreases |us|
  {
    if us == [] {
      assert ts + us == ts;
    } else {
      VisitsAppend(bp, pc, ts, us[..|us| - 1]);
      assert (ts + us)[..|ts + us| - 1] == ts + us[..|us| - 1];
    }
  }

  lemma AppendStopsRightly(bp: Breakpoint, pc: nat, ts: seq<Turn>, us: seq<Turn>, i: nat)
    requires i < |ts + us|
    requires i < |ts| ==> StopsRightly(bp, pc, ts, i)
    requires i >= |ts| ==> StopsRightly(bp.(hits := bp.hits + Visits(bp, pc, ts)), pc, us, i - |ts|)
    ensures StopsRightly(bp, pc, ts + us, i)
  {
    hide Visits;
    if i < |ts| {
      assert (ts + us)[..i + 1] == ts[..i + 1];
    } else {
      var k := i - |ts|;
      assert (ts + us)[..i + 1] == ts + us[..k + 1];
      VisitsAppend(bp, pc, ts, us[..k + 1]);
      VisitsOfUpdated(bp, bp.hits + Visits(bp, pc, ts), pc, us[..k + 1]);
    }
  }

  lemma ObeyedAppend(a: map<nat, Breakpoint>, b: map<nat, Breakpoint>, c: map<nat, Breakpoint>, ts: seq<Turn>, us: seq<Turn>)
    requires Obeyed(a, b, ts) && Obeyed(b, c, us)
    ensures Obeyed(a, c, ts + us)
  {
    hide Visits, StopsRightly;
    forall pc | pc in a ensures c[pc] == a[pc].(hits := a[pc].hits + Visits(a[pc], pc, ts + us)) {
      VisitsAppend(a[pc], pc, ts, us);
      VisitsOfUpdated(a[pc], b[pc].hits, pc, us);
    }
    forall pc, i | pc in a && 0 <= i < |ts + us| ensures StopsRightly(a[pc], pc, ts + us, i) {
      if i >= |ts| {
        assert StopsRightly(b[pc], pc, us, i - |ts|);
      }
      AppendStopsRightly(a[pc], pc, ts, us, i);
    }
  }

  lemma LawfulTransitive(m0: Machine, m1: Machine, m2: Machine)
    requires Lawful(m0, m1) && Lawful(m1, m2)
    ensures Lawful(m0, m2)
  {
    hide Obeyed;
    var ts, us := m1.trace[|m0.trace|..], m2.trace[|m1.trace|..];
    ObeyedAppend(m0.breakpoints, m1.breakpoints, m2.breakpoints, ts, us);
    assert m2.trace[|m0.trace|..] == ts + us;
  }

  lemma LawfulIdle(m: Machine, m': Machine)
    requires m'.trace == m.trace && m'.breakpoints == m.breakpoints
    ensures Lawful(m, m')
  {
    assert m'.trace[|m.trace|..] == [];
  }

  // Every stretch of execution is lawful

  lemma OneTurnObeyed(before: map<nat, Breakpoint>, after: map<nat, Breakpoint>, t: Turn)
    requires after.Keys == before.Keys
    requires forall pc :: pc in before ==>
      after[pc] == before[pc].(hits := before[pc].hits + if Qualifies(before[pc], pc, t) then 1 else 0)
    requires forall pc :: pc in before && Qualifies(before[pc], pc, t) ==>
      (t.Stopped? <==> Fires(before[pc], before[pc].hits + 1))
    requires t.Stopped? ==> t.pc in before && Qualifies(before[t.pc], t.pc, t)
    ensures Obeyed(before, after, [t])
  {
    forall pc | pc in before
      ensures Visits(before[pc], pc, [t]) == if Qualifies(before[pc], pc, t) then 1 else 0
    {
      assert [t][..0] == [];
    }
    assert [t][..1] == [t];
  }

  lemma UncheckedObeyed(breakpoints: map<nat, Breakpoint>, t: Turn)
    requires t.Skipped? || (t.Stepped? && !t.armed)
    ensures Obeyed(breakpoints, breakpoints, [t])
  {
    hide Obeyed;
    OneTurnObeyed(breakpoints, breakpoints, t);
  }

  lemma CheckObeyed(m: Machine, j: nat, effect: Effect) returns (turn: Turn)
    requires j < |m.harts|
    ensures turn == if CheckBreakpoint(m, j).fired then Stopped(j, m.harts[j].pc, m.harts[j].mode)
                    else Stepped(j, m.harts[j].pc, m.harts[j].mode, true, effect.retired, effect.watchpoint)
    ensures Obeyed(m.breakpoints, CheckBreakpoint(m, j).m.breakpoints, [turn])
    ensures CheckBreakpoint(m, j).m.trace == m.trace && CheckBreakpoint(m, j).m.harts == m.harts
    ensures CheckBreakpoint(m, j).m.clock == m.clock
  {
    hide Obeyed;
    var pc, mode := m.harts[j].pc, m.harts[j].mode;
    turn := if CheckBreakpoint(m, j).fired then Stopped(j, pc, mode) else Stepped(j, pc, mode, true, effect.retired, effect.watchpoint);
    OneTurnObeyed(m.breakpoints, CheckBreakpoint(m, j).m.breakpoints, turn);
  }

  lemma TakeTurnLawful(m: Machine, j: nat, armed: bool, w: World)
    requires j < |m.harts|
    ensures Lawful(m, TakeTurn(m, j, armed, w).m)
  {
    hide StepHart, Obeyed, CheckBreakpoint;
    var c := if armed then CheckBreakpoint(m, j) else CheckResult(m, false);
    var pc, mode := m.harts[j].pc, m.harts[j].mode;
    var effect := w.step(m.clock);
    var turn := if m.harts[j].halted then Skipped(j) else Stepped(j, pc, mode, false, effect.retired, effect.watchpoint);
    if armed && !m.harts[j].halted {
      turn := CheckObeyed(m, j, effect);
    } else {
      UncheckedObeyed(m.breakpoints, turn);
    }
    if !m.harts[j].halted {
      StepHartGuest(c.m, j, armed, w);
    }
    assert TakeTurn(m, j, armed, w).m.trace[|m.trace|..] == [turn];
  }

  lemma {:induction false} SweepLawful(m: Machine, j: nat, armed: bool, w: World)
    requires j <= |m.harts|
    ensures Lawful(m, Sweep(m, j, armed, w).m)
    decreases |m.harts| - j
  {
    hide TakeTurn, Lawful;
    if j == |m.harts| {
      LawfulIdle(m, m);
    } else {
      var t := TakeTurn(m, j, armed, w);
      TakeTurnLawful(m, j, armed, w);
      if !t.stop {
        SweepLawful(t.m, j + 1, armed, w);
        LawfulTransitive(m, t.m, Sweep(t.m, j + 1, armed, w).m);
      }
    }
  }

  lemma {:induction false} RoundsLawful(m: Machine, n: nat, armed: bool, w: World)
    ensures Lawful(m, Rounds(m, n, armed, w).m)
    decreases n
  {
    hide Sweep, Lawful;
    if n == 0 {
      LawfulIdle(m, m);
    } else {
      var s := Sweep(m, 0, armed, w);
      SweepLawful(m, 0, armed, w);
      if !s.stop && s.ran != 0 {
        RoundsLawful(s.m, n - 1, armed, w);
        LawfulTransitive(m, s.m, Rounds(s.m, n - 1, armed, w).m);
      }
    }
  }

  lemma SliceLawful(m: Machine, n: int, w: World)
    ensures Lawful(m, Slice(m, n, w).m)
  {
    hide Rounds, Lawful;
    var start := m.(stop := NoStop);
    LawfulIdle(m, start);
    RoundsLawful(start, if n > 0 then n else 0, n != 1, w);
    LawfulTransitive(m, start, Slice(m, n, w).m);
  }

  lemma {:induction false} TimeboxLawful(m: Machine, ran: nat, maxSteps: nat, w: World)
    ensures Lawful(m, Timebox(m, ran, maxSteps, w).m)
    decreases if ran <= maxSteps then maxSteps - ran else 0
  {
    hide Slice, AnyAlive, Interrupted, Lawful;
    LawfulIdle(m, m);
    if m.running && AnyAlive(m.harts) && ran < maxSteps {
      var chunk := Min(MICRO_CHUNK, maxSteps - ran);
      var s := Slice(m, chunk, w);
      SliceLawful(m, chunk, w);
      if s.ran != 0 {
        var next := s.m.(clock := s.m.clock + 1);
        LawfulIdle(s.m, next);
        LawfulTransitive(m, s.m, next);
        TimeboxLawful(next, ran + s.ran, maxSteps, w);
        LawfulTransitive(m, next, Timebox(next, ran + s.ran, maxSteps, w).m);
      }
    }
  }

  lemma {:induction false} SmokeLawful(m: Machine, ran: nat, steps: nat, w: World)
    ensures Lawful(m, SmokeLoop(m, ran, steps, w).m)
    decreases if ran <= steps then steps - ran else 0
  {
    hide Slice, AnyAlive, Interrupted, Lawful;
    LawfulIdle(m, m);
    if ran < steps && AnyAlive(m.harts) {
      var chunk := Min(SMOKE_CHUNK, steps - ran);
      var s := Slice(m, chunk, w);
      SliceLawful(m, chunk, w);
      if s.ran != 0 {
        SmokeLawful(s.m, ran + s.ran, steps, w);
        LawfulTransitive(m, s.m, SmokeLoop(s.m, ran + s.ran, steps, w).m);
      }
    }
  }

  lemma FireLawful(m: Machine, token: nat, w: World)
    ensures Lawful(m, FireTimer(m, token, w))
  {
    hide Timebox, AnyAlive, AnyError, Lawful;
    LawfulIdle(m, m);
    if token in m.timers {
      var m' := Taken(m, token);
      LawfulIdle(m, m');
      TimeboxLawful(m', 0, MAX_STEPS_PER_TICK, w);
      var ticked := Timebox(m', 0, MAX_STEPS_PER_TICK, w).m;
      LawfulTransitive(m, m', ticked);
      var after := FireTimer(m, token, w);
      if m.running && SameToken(token, m.token) {
        LawfulIdle(ticked, after);
        LawfulTransitive(m, ticked, after);
      } else {
        LawfulIdle(m, after);
      }
    }
  }

  lemma UneditedLawful(m: Machine, op: Op, w: World)
    requires !op.AddBreakpoint? && !op.ClearBreakpoints?
    ensures Lawful(m, Exec(m, op, w))
  {
    hide Slice, SmokeLoop, FireTimer, Lawful;
    match op {
      case StepGuest(n) => SliceLawful(m, n, w);
      case Fire(token) => FireLawful(m, token, w);
      case Smoke(steps) =>
        var start := m.(harts := ResetAll(m.harts, m.entry));
        LawfulIdle(m, start);
        SmokeLawful(start, 0, steps, w);
        LawfulTransitive(m, start, SmokeLoop(start, 0, steps, w).m);
      case _ => LawfulIdle(m, Exec(m, op, w));
    }
  }

  // One address, over runs in which breakpoints come and go elsewhere

  /** The same breakpoint, whatever it has counted. */
  predicate SameParameters(a: Breakpoint, b: Breakpoint) {
    a.(hits := 0) == b.(hits := 0)
  }

  /** The command neither clears the breakpoint at pc nor sets one there, unless the same again. */
  predicate Leaves(op: Op, breakpoints: map<nat, Breakpoint>, pc: nat) {
    && !op.ClearBreakpoints?
    && (op.AddBreakpoint? && op.pc == pc ==> pc in breakpoints && SameParameters(op.bp, breakpoints[pc]))
  }

  /** The turns are judged and counted at pc as they should be; without a breakpoint there nothing stops there. */
  ghost predicate ObeyedAt(pc: nat, before: map<nat, Breakpoint>, after: map<nat, Breakpoint>, ts: seq<Turn>) {
    && (pc in after <==> pc in before)
    && (pc in before ==> after[pc] == before[pc].(hits := before[pc].hits + Visits(before[pc], pc, ts)))
    && (forall i :: pc in before && 0 <= i < |ts| ==> StopsRightly(before[pc], pc, ts, i))
    && (forall i :: 0 <= i < |ts| && ts[i].Stopped? && ts[i].pc == pc ==> pc in before && Qualifies(before[pc], pc, ts[i]))
  }

  ghost predicate LawfulAt(pc: nat, m: Machine, m': Machine) {
    m.trace <= m'.trace && ObeyedAt(pc, m.breakpoints, m'.breakpoints, m'.trace[|m.trace|..])
  }

  lemma ObeyedAtAppend(pc: nat, a: map<nat, Breakpoint>, b: map<nat, Breakpoint>, c: map<nat, Breakpoint>, ts: seq<Turn>, us: seq<Turn>)
    requires ObeyedAt(pc, a, b, ts) && ObeyedAt(pc, b, c, us)
    ensures ObeyedAt(pc, a, c, ts + us)
  {
    hide Visits, StopsRightly;
    if pc in a {
      VisitsAppend(a[pc], pc, ts, us);
      VisitsOfUpdated(a[pc], b[pc].hits, pc, us);
      forall i | 0 <= i < |ts + us| ensures StopsRightly(a[pc], pc, ts + us, i) {
        if i >= |ts| {
          assert StopsRightly(b[pc], pc, us, i - |ts|);
        }
        AppendStopsRightly(a[pc], pc, ts, us, i);
      }
    }
  }

  lemma LawfulAtTransitive(pc: nat, m0: Machine, m1: Machine, m2: Machine)
    requires LawfulAt(pc, m0, m1) && LawfulAt(pc, m1, m2)
    ensures LawfulAt(pc, m0, m2)
  {
    hide ObeyedAt;
    var ts, us := m1.trace[|m0.trace|..], m2.trace[|m1.trace|..];
    ObeyedAtAppend(pc, m0.breakpoints, m1.breakpoints, m2.breakpoints, ts, us);
    assert m2.trace[|m0.trace|..] == ts + us;
  }

  /** One command or callback, judged at pc. */
  lemma ExecLawful(m: Machine, op: Op, w: World, pc: nat)
    requires Leaves(op, m.breakpoints, pc)
    ensures LawfulAt(pc, m, Exec(m, op, w))
  {
    hide Exec, Visits, StopsRightly;
    if op.AddBreakpoint? {
      AddedElsewhere(m, op.pc, op.bp, w);
      NothingObeyed(pc, m.breakpoints, Exec(m, op, w).breakpoints);
    } else {
      UneditedLawful(m, op, w);
    }
  }

  lemma AddedElsewhere(m: Machine, pc: nat, bp: Breakpoint, w: World)
    ensures Exec(m, AddBreakpoint(pc, bp), w).trace == m.trace
    ensures Exec(m, AddBreakpoint(pc, bp), w).breakpoints == m.breakpoints[pc := KeepHits(m, pc, bp)]
  {}

  lemma NothingObeyed(pc: nat, before: map<nat, Breakpoint>, after: map<nat, Breakpoint>)
    requires pc in after <==> pc in before
    requires pc in before ==> after[pc] == before[pc]
    ensures ObeyedAt(pc, before, after, [])
  {}

  /** Do all commands of the run leave the breakpoint at pc alone? */
  ghost predicate RunLeaves(m: Machine, ops: seq<Op>, w: World, pc: nat) {
    forall k :: 0 <= k < |ops| ==> Leaves(ops[k], ExecAll(m, ops[..k], w).breakpoints, pc)
  }

  /**
   Over any run, with breakpoints added, added again and replaced at other addresses, and this one
   added again, every visit of this address is judged and counted as it should be.
   */
  lemma {:induction false} RunLawful(m: Machine, ops: seq<Op>, w: World, pc: nat)
    requires RunLeaves(m, ops, w, pc)
    ensures LawfulAt(pc, m, ExecAll(m, ops, w))
    decreases |ops|
  {
    hide Exec, ObeyedAt, Leaves;
    if ops == [] {
      NothingObeyed(pc, m.breakpoints, m.breakpoints);
      assert m.trace[|m.trace|..] == [];
    } else {
      var front, op := ops[..|ops| - 1], ops[|ops| - 1];
      forall k | 0 <= k < |front| ensures Leaves(front[k], ExecAll(m, front[..k], w).breakpoints, pc) {
        assert front[..k] == ops[..k];
        assert ops[k] == front[k];
      }
      RunLawful(m, front, w, pc);
      ExecLawful(ExecAll(m, front, w), op, w, pc);
      LawfulAtTransitive(pc, m, ExecAll(m, front, w), ExecAll(m, ops, w));
    }
  }

  // What that means for a new breakpoint

  /** The turns a run takes. */
  ghost function RunTurns(m: Machine, ops: seq<Op>, w: World): seq<Turn> {
    RunTraced(m, ops, w);
    ExecAll(m, ops, w).trace[|m.trace|..]
  }

  lemma {:induction false} RunTraced(m: Machine, ops: seq<Op>, w: World)
    ensures m.trace <= ExecAll(m, ops, w).trace
    decreases |ops|
  {
    hide Exec;
    if ops != [] {
      RunTraced(m, ops[..|ops| - 1], w);
      ExecTraced(ExecAll(m, ops[..|ops| - 1], w), ops[|ops| - 1], w);
    }
  }

  lemma ExecTraced(m: Machine, op: Op, w: World)
    ensures m.trace <= Exec(m, op, w).trace
  {
    hide Slice, SmokeLoop, Timebox;
    match op {
      case StepGuest(n) => SliceGuest(m, n, w);
      case Fire(token) =>
        if token in m.timers {
          TimeboxGuest(Taken(m, token), 0, MAX_STEPS_PER_TICK, w);
        }
      case Smoke(steps) => SmokeGuest(m.(harts := ResetAll(m.harts, m.entry)), 0, steps, w);
      case _ =>
    }
  }

  /**
   A breakpoint just set with afterHits = k lets its first k - 1 qualifying visits pass and stops
   every later one, so the guest is never stepped there once it fires; k = 0 stops them all.
   */
  lemma NewBreakpoint(m: Machine, ops: seq<Op>, w: World, pc: nat, i: nat)
    requires RunLeaves(m, ops, w, pc)
    requires pc in m.breakpoints && m.breakpoints[pc].hits == 0
    requires i < |RunTurns(m, ops, w)| && Qualifies(m.breakpoints[pc], pc, RunTurns(m, ops, w)[i])
    ensures RunTurns(m, ops, w)[i].Stepped?
      <==> Visits(m.breakpoints[pc], pc, RunTurns(m, ops, w)[..i + 1]) < m.breakpoints[pc].afterHits
    ensures pc in ExecAll(m, ops, w).breakpoints
    ensures ExecAll(m, ops, w).breakpoints[pc].hits == Visits(m.breakpoints[pc], pc, RunTurns(m, ops, w))
  {
    hide ExecAll, Visits, RunLeaves;
    RunLawful(m, ops, w, pc);
    var ts := RunTurns(m, ops, w);
    assert StopsRightly(m.breakpoints[pc], pc, ts, i);
  }

  /** In a slice of any size but one, no hart is stepped at a pc whose breakpoint fires. */
  lemma SliceStopsRightly(m: Machine, n: int, w: World, i: nat)
    requires |m.harts| > 0 && n != 1 && i < |SliceTurns(m, n, w)| && SliceTurns(m, n, w)[i].Stepped?
    ensures var t := SliceTurns(m, n, w)[i];
      t.pc in m.breakpoints && Applies(m.breakpoints[t.pc], t.hart, t.mode) ==>
        !Fires(m.breakpoints[t.pc], m.breakpoints[t.pc].hits + Visits(m.breakpoints[t.pc], t.pc, SliceTurns(m, n, w)[..i + 1]))
  {
    hide Slice, Visits, Fires;
    var ts := SliceTurnsRoundRobin(m, n, w);
    SliceLawful(m, n, w);
    if ts[i].pc in m.breakpoints {
      assert StopsRightly(m.breakpoints[ts[i].pc], ts[i].pc, ts, i);
    }
  }

  /** A slice of one step looks at no breakpoint: none counts, and none stops it. */
  lemma SingleStepUnchecked(m: Machine, w: World)
    requires |m.harts| > 0
    ensures Slice(m, 1, w).m.breakpoints == m.breakpoints && Unstopped(SliceTurns(m, 1, w))
  {
    hide Slice, Obeyed;
    var ts := SliceTurnsRoundRobin(m, 1, w);
    SliceLawful(m, 1, w);
    NoneQualifies(m.breakpoints, Slice(m, 1, w).m.breakpoints, ts);
  }

  lemma NoneQualifies(before: map<nat, Breakpoint>, after: map<nat, Breakpoint>, ts: seq<Turn>)
    requires Obeyed(before, after, ts) && ArmedAs(ts, false)
    ensures after == before && Unstopped(ts)
  {
    hide Applies, Fires;
    forall pc | pc in before ensures Visits(before[pc], pc, ts) == 0 {
      NoVisits(before[pc], pc, ts);
    }
  }

  lemma {:induction false} NoVisits(bp: Breakpoint, pc: nat, ts: seq<Turn>)
    requires ArmedAs(ts, false)
    ensures Visits(bp, pc, ts) == 0
    decreases |ts|
  {
    if ts != [] {
      NoVisits(bp, pc, ts[..|ts| - 1]);
    }
  }
}
