/** The tick protocol: what every step of the run loop keeps, over every run. */
module Ticks {
  import opened Machine

  /** What guest execution between two points can have done. */
  ghost predicate GuestRan(m: Machine, m': Machine) {
    && m'.timers == m.timers && m'.pending == m.pending && |m'.harts| == |m.harts|
    && m.token <= m'.token
    && (m'.running ==> m.running && m'.token == m.token)
    && m.trace <= m'.trace
  }

  lemma {:induction false} ApplyAllGuest(m: Machine, j: nat, acts: seq<Act>)
    requires j < |m.harts|
    ensures GuestRan(m, ApplyAll(m, j, acts)) && ApplyAll(m, j, acts).trace == m.trace
    ensures ApplyAll(m, j, acts).breakpoints == m.breakpoints
    decreases |acts|
  {
    if acts != [] {
      ApplyAllGuest(Apply(m, j, acts[0]), j, acts[1..]);
    }
  }

  lemma StepHartGuest(m: Machine, j: nat, armed: bool, w: World)
    requires j < |m.harts|
    ensures GuestRan(m, StepHart(m, j, armed, w)) && StepHart(m, j, armed, w).breakpoints == m.breakpoints
    ensures StepHart(m, j, armed, w).trace
      == m.trace + [Stepped(j, m.harts[j].pc, m.harts[j].mode, armed, w.step(m.clock).retired, w.step(m.clock).watchpoint)]
  {
    hide ApplyAll;
    var effect := w.step(m.clock);
    var turn := Stepped(j, m.harts[j].pc, m.harts[j].mode, armed, effect.retired, effect.watchpoint);
    ApplyAllGuest(m.(clock := m.clock + 1, trace := m.trace + [turn]), j, effect.acts);
  }

  lemma TakeTurnGuest(m: Machine, j: nat, armed: bool, w: World)
    requires j < |m.harts|
    ensures GuestRan(m, TakeTurn(m, j, armed, w).m)
  {
    hide StepHart, CheckBreakpoint;
    var c := if armed then CheckBreakpoint(m, j) else CheckResult(m, false);
    CheckChanges(m, j);
    StepHartGuest(c.m, j, armed, w);
  }

  lemma CheckChanges(m: Machine, j: nat)
    requires j < |m.harts|
    ensures CheckBreakpoint(m, j).m == m.(breakpoints := CheckBreakpoint(m, j).m.breakpoints, stop := CheckBreakpoint(m, j).m.stop)
  {}

  lemma {:induction false} SweepGuest(m: Machine, j: nat, armed: bool, w: World)
    requires j <= |m.harts|
    ensures GuestRan(m, Sweep(m, j, armed, w).m)
    decreases |m.harts| - j
  {
    if j < |m.harts| {
      TakeTurnGuest(m, j, armed, w);
      var t := TakeTurn(m, j, armed, w);
      if !t.stop {
        SweepGuest(t.m, j + 1, armed, w);
      }
    }
  }

  lemma {:induction false} RoundsGuest(m: Machine, n: nat, armed: bool, w: World)
    ensures GuestRan(m, Rounds(m, n, armed, w).m)
    decreases n
  {
    if n > 0 {
      SweepGuest(m, 0, armed, w);
      var s := Sweep(m, 0, armed, w);
      if !s.stop && s.ran != 0 {
        RoundsGuest(s.m, n - 1, armed, w);
      }
    }
  }

  lemma SliceGuest(m: Machine, n: int, w: World)
    ensures GuestRan(m, Slice(m, n, w).m)
  {
    RoundsGuest(m.(stop := NoStop), if n > 0 then n else 0, n != 1, w);
  }

  lemma {:induction false} TimeboxGuest(m: Machine, ran: nat, maxSteps: nat, w: World)
    ensures GuestRan(m, Timebox(m, ran, maxSteps, w).m)
    decreases if ran <= maxSteps then maxSteps - ran else 0
  {
    hide Slice;
    if m.running && AnyAlive(m.harts) && ran < maxSteps {
      var s := Slice(m, Min(MICRO_CHUNK, maxSteps - ran), w);
      SliceGuest(m, Min(MICRO_CHUNK, maxSteps - ran), w);
      if s.ran != 0 {
        TimeboxGuest(s.m.(clock := s.m.clock + 1), ran + s.ran, maxSteps, w);
      }
    }
  }

  lemma {:induction false} SmokeGuest(m: Machine, ran: nat, steps: nat, w: World)
    ensures GuestRan(m, SmokeLoop(m, ran, steps, w).m)
    decreases if ran <= steps then steps - ran else 0
  {
    hide Slice;
    if ran < steps && AnyAlive(m.harts) {
      var s := Slice(m, Min(SMOKE_CHUNK, steps - ran), w);
      SliceGuest(m, Min(SMOKE_CHUNK, steps - ran), w);
      if s.ran != 0 {
        SmokeGuest(s.m, ran + s.ran, steps, w);
      }
    }
  }

  // Invariants

  /** The bookkeeping that holds in every run. */
  ghost predicate Bookkept(m: Machine) {
    && 1 <= |m.harts| <= MAX_HARTS
    && m.pending == |m.timers|
    && forall t :: t in m.timers ==> t <= m.token
  }

  /** The model's own tokens: at most one outstanding callback of the current run, exactly one while running. */
  ghost predicate OneChain(m: Machine) {
    && m.timers[m.token] <= 1
    && (m.running ==> m.timers[m.token] == 1)
  }

  /** No outstanding callback is as old as 2^64 bumps: only then do equal tokens mean the same run. */
  ghost predicate Distinguishable(m: Machine) {
    forall t :: t in m.timers ==> m.token < t + TWO64
  }

  lemma SameTokenOnly(a: nat, b: nat)
    requires SameToken(a, b) && a <= b < a + TWO64
    ensures a == b
  {}

  // What the program can see: tokens modulo 2^64

  /** The callbacks that carry this token as far as the program can tell. */
  ghost function Passing(timers: multiset<nat>, token: nat): (p: multiset<nat>)
    ensures p <= timers
    ensures forall t :: p[t] == if SameToken(t, token) then timers[t] else 0
    decreases |timers|
  {
    if timers == multiset{} then multiset{} else
    var t :| t in timers;
    Passing(timers - multiset{t}, token) + if SameToken(t, token) then multiset{t} else multiset{}
  }

  /** The outstanding callbacks whose token compares equal to runToken. */
  ghost function Current(m: Machine): multiset<nat> {
    Passing(m.timers, m.token)
  }

  /** Those among them left over from a run at least 2^64 bumps ago. */
  ghost function Revenants(m: Machine): multiset<nat> {
    Current(m)[m.token := 0]
  }

  lemma RevenantsAre(m: Machine)
    requires Bookkept(m)
    ensures forall t :: t in Revenants(m) <==> t in m.timers && t != m.token && (m.token - t) % TWO64 == 0
    ensures |Current(m)| == m.timers[m.token] + |Revenants(m)|
    ensures Distinguishable(m) ==> Revenants(m) == multiset{}
  {
    hide SameToken;
    forall t | t in m.timers
      ensures SameToken(t, m.token) <==> (m.token - t) % TWO64 == 0
      ensures Distinguishable(m) && SameToken(t, m.token) ==> t == m.token
    {
      WholeTurns(t, m.token);
      if Distinguishable(m) && SameToken(t, m.token) {
        SameTokenOnly(t, m.token);
      }
    }
    SelfToken(m.token);
    var c := Current(m);
    assert c == c[m.token := 0] + multiset{}[m.token := c[m.token]];
  }

  lemma SelfToken(token: nat)
    ensures SameToken(token, token)
  {}

  /**
   How many outstanding callbacks carry the current token: exactly one while running if and only if
   none is older by a multiple of 2^64 bumps; and otherwise at most one if and only if there are
   none such, or a single one and none of the current run.
   */
  ghost predicate CurrentCounted(m: Machine) {
    && (m.running ==> (|Current(m)| == 1 <==> NoRevenant(m)))
    && (!m.running ==> (|Current(m)| <= 1 <==> NoRevenant(m) || (m.token !in m.timers && |Revenants(m)| == 1)))
  }

  ghost predicate NoRevenant(m: Machine) {
    forall t :: t in m.timers && t != m.token ==> (m.token - t) % TWO64 != 0
  }

  lemma ChainCounted(m: Machine)
    requires Bookkept(m) && OneChain(m)
    ensures CurrentCounted(m)
  {
    hide Current, Revenants;
    RevenantsAre(m);
    if Revenants(m) != multiset{} {
      var t :| t in Revenants(m);
      assert !NoRevenant(m);
    } else {
      assert NoRevenant(m);
    }
  }

  lemma ExecBookkept(m: Machine, op: Op, w: World)
    requires Bookkept(m)
    ensures Bookkept(Exec(m, op, w)) && m.token <= Exec(m, op, w).token
    ensures m.trace <= Exec(m, op, w).trace
  {
    match op {
      case StepGuest(n) => SliceGuest(m, n, w);
      case Fire(token) => FireBookkept(m, token, w);
      case Smoke(steps) => SmokeGuest(m.(harts := ResetAll(m.harts, m.entry)), 0, steps, w);
      case _ =>
    }
  }

  function Taken(m: Machine, token: nat): Machine
    requires token in m.timers
  {
    m.(timers := m.timers - multiset{token}, pending := if m.pending > 0 then m.pending - 1 else 0)
  }

  lemma FireBookkept(m: Machine, token: nat, w: World)
    requires Bookkept(m)
    ensures Bookkept(FireTimer(m, token, w)) && m.token <= FireTimer(m, token, w).token
    ensures m.trace <= FireTimer(m, token, w).trace
  {
    hide Timebox;
    if token in m.timers {
      var m' := Taken(m, token);
      TimeboxGuest(m', 0, MAX_STEPS_PER_TICK, w);
    }
  }

  lemma ExecOneChain(m: Machine, op: Op, w: World)
    requires Bookkept(m) && OneChain(m)
    ensures OneChain(Exec(m, op, w)) && CurrentCounted(Exec(m, op, w))
  {
    hide CurrentCounted;
    match op {
      case StepGuest(n) =>
        SliceGuest(m, n, w);
        GuestKeepsChain(m, Slice(m, n, w).m);
      case Fire(token) =>
        if token in m.timers {
          FireOneChain(m, token, w);
        }
      case Smoke(steps) =>
        var m' := m.(harts := ResetAll(m.harts, m.entry));
        SmokeGuest(m', 0, steps, w);
        GuestKeepsChain(m', SmokeLoop(m', 0, steps, w).m);
      case _ =>
    }
    ExecBookkept(m, op, w);
    ChainCounted(Exec(m, op, w));
  }

  /** Guest execution starts no chain, and while still running it leaves the current callbacks alone. */
  lemma GuestKeepsChain(m: Machine, m': Machine)
    requires GuestRan(m, m')
    ensures Bookkept(m) && OneChain(m) ==> OneChain(m')
    ensures m'.running ==> Current(m') == Current(m)
  {}

  /**
   A fired callback is used up; it is replaced, by one with the same token, exactly if it passed the
   guard, an old one included, and the machine still runs.
   */
  lemma FireOneChain(m: Machine, token: nat, w: World)
    requires token in m.timers
    ensures FireTimer(m, token, w).timers == m.timers - multiset{token}
      + if m.running && SameToken(token, m.token) && FireTimer(m, token, w).running then multiset{token} else multiset{}
    ensures FireTimer(m, token, w).running ==> m.running && FireTimer(m, token, w).token == m.token
    ensures Bookkept(m) && OneChain(m) ==> OneChain(FireTimer(m, token, w))
  {
    hide Timebox;
    var m' := Taken(m, token);
    if m.running && SameToken(token, m.token) {
      TimeboxGuest(m', 0, MAX_STEPS_PER_TICK, w);
    }
  }

  // How a tick ends

  ghost predicate SomeError(harts: seq<Hart>) {
    exists i :: 0 <= i < |harts| && harts[i].error
  }

  ghost predicate SomeAlive(harts: seq<Hart>) {
    exists i :: 0 <= i < |harts| && !harts[i].halted
  }

  /**
   A tick that leaves a hart in error, or none alive, stops the machine, bumps the token once more
   and schedules nothing; any other tick changes neither after its slices, which run up to 50000 steps.
   */
  lemma TickEnds(m: Machine, token: nat, w: World)
    requires token in m.timers && m.running && SameToken(token, m.token)
    ensures
      var ran := SliceTimeboxed(Taken(m, token), 50000, w).m;
      var after := FireTimer(m, token, w);
      && after.harts == ran.harts && after.stop == ran.stop && after.trace == ran.trace
      && if SomeError(after.harts) || !SomeAlive(after.harts) then
           !after.running && after.token == ran.token + 1 > m.token && after.timers == m.timers - multiset{token}
         else
           after.running == ran.running && after.token == ran.token
    ensures FireTimer(m, token, w).running ==> SomeAlive(FireTimer(m, token, w).harts) && !SomeError(FireTimer(m, token, w).harts)
  {
    hide Timebox;
    TimeboxGuest(Taken(m, token), 0, 50000, w);
  }

  // What the other commands do

  lemma StartRunMeans(m: Machine, w: World)
    ensures var after := Exec(m, Run, w);
      if m.running || !m.firmwareLoaded then after == m else
      && after.running && after.token == m.token + 1 && after.timers == m.timers + multiset{m.token + 1}
      && after.pending == m.pending + 1 && after.harts == m.harts && after.breakpoints == m.breakpoints
      && after.stop == m.stop && after.trace == m.trace
  {}

  /** After a poweroff no hart is alive; each keeps its pc, mode and error. */
  lemma PoweroffMeans(m: Machine)
    ensures var after := RequestPoweroff(m);
      && !after.running && after.token == m.token + 1 && after.stop == SysconPoweroff
      && !SomeAlive(after.harts) && |after.harts| == |m.harts|
      && (forall i :: 0 <= i < |m.harts| ==> after.harts[i] == Hart(m.harts[i].pc, m.harts[i].mode, true, m.harts[i].error))
      && after == m.(running := false, token := after.token, stop := after.stop, harts := after.harts)
  {}

  /** After a reboot every hart is as good as new at the entry point, and the machine waits. */
  lemma RebootMeans(m: Machine)
    ensures var after := RequestReboot(m);
      && !after.running && after.token == m.token + 1 && after.stop == SysconReboot
      && |after.harts| == |m.harts|
      && (forall i :: 0 <= i < |m.harts| ==> after.harts[i] == Hart(m.entry, MachineMode, false, false))
      && after == m.(running := false, token := after.token, stop := after.stop, harts := after.harts)
  {}

  /** SRST halts the calling hart only, and bumps no token. */
  lemma SystemResetMeans(m: Machine, j: nat)
    requires j < |m.harts|
    ensures var after := Apply(m, j, Srst);
      && !after.running && after.token == m.token && |after.harts| == |m.harts|
      && (forall i :: 0 <= i < |m.harts| ==>
        after.harts[i] == if i == j then Hart(m.harts[i].pc, m.harts[i].mode, true, m.harts[i].error) else m.harts[i])
      && after == m.(running := false, harts := after.harts)
  {}

  /** A guest's acts happen in the order in which it makes them. */
  lemma {:induction false} ActsInOrder(m: Machine, j: nat, acts: seq<Act>, act: Act)
    requires j < |m.harts|
    ensures ApplyAll(m, j, acts + [act]) == Apply(ApplyAll(m, j, acts), j, act)
    decreases |acts|
  {
    hide Apply;
    if acts == [] {
      assert acts + [act] == [act] && [act][1..] == [];
    } else {
      ActsInOrder(Apply(m, j, acts[0]), j, acts[1..], act);
      assert (acts + [act])[1..] == acts[1..] + [act];
    }
  }

  /** Pause and reset stop the machine under a new token; reset also makes its harts as good as new. */
  lemma StopMeans(m: Machine, w: World)
    ensures Exec(m, Pause, w) == m.(running := false, token := m.token + 1)
    ensures var after := Exec(m, Reset, w);
      && |after.harts| == |m.harts|
      && (forall i :: 0 <= i < |m.harts| ==> after.harts[i] == Hart(m.entry, MachineMode, false, false))
      && after == m.(running := false, token := m.token + 1, harts := after.harts)
  {}

  /** Setting a breakpoint keeps the hits of one at the same address, and no other is touched. */
  lemma AddBreakpointMeans(m: Machine, pc: nat, bp: Breakpoint, w: World)
    ensures var after := Exec(m, AddBreakpoint(pc, bp), w);
      && after.breakpoints.Keys == m.breakpoints.Keys + {pc}
      && (forall q :: q in m.breakpoints && q != pc ==> after.breakpoints[q] == m.breakpoints[q])
      && after.breakpoints[pc] == Breakpoint(bp.afterHits, bp.mode, bp.hart, if pc in m.breakpoints then m.breakpoints[pc].hits else 0)
      && after == m.(breakpoints := after.breakpoints)
  {}

  // Runs

  lemma {:induction false} RunBookkept(ops: seq<Op>, w: World)
    ensures Bookkept(ExecAll(BOOT, ops, w))
    decreases |ops|
  {
    if ops != [] {
      RunBookkept(ops[..|ops| - 1], w);
      ExecBookkept(ExecAll(BOOT, ops[..|ops| - 1], w), ops[|ops| - 1], w);
    }
  }

  /** In every run: when there is exactly one chain of ticks, and when there are more. */
  lemma {:induction false} RunOneChain(ops: seq<Op>, w: World)
    ensures Bookkept(ExecAll(BOOT, ops, w)) && OneChain(ExecAll(BOOT, ops, w))
    ensures CurrentCounted(ExecAll(BOOT, ops, w))
    decreases |ops|
  {
    RunBookkept(ops, w);
    if ops != [] {
      RunOneChain(ops[..|ops| - 1], w);
      ExecOneChain(ExecAll(BOOT, ops[..|ops| - 1], w), ops[|ops| - 1], w);
    }
    ChainCounted(ExecAll(BOOT, ops, w));
  }

  /** While no outstanding callback is 2^64 bumps old there is one chain of ticks. */
  lemma DistinguishableChain(ops: seq<Op>, w: World)
    requires Distinguishable(ExecAll(BOOT, ops, w))
    ensures |Current(ExecAll(BOOT, ops, w))| <= 1
    ensures ExecAll(BOOT, ops, w).running ==> |Current(ExecAll(BOOT, ops, w))| == 1
  {
    hide ExecAll, Current;
    RunOneChain(ops, w);
    RevenantsAre(ExecAll(BOOT, ops, w));
  }

  /** So there is throughout a run that bumps the token fewer than 2^64 times. */
  lemma {:induction false} FewBumpsDistinguish(ops: seq<Op>, w: World)
    requires ExecAll(BOOT, ops, w).token < TWO64
    ensures forall k :: 0 <= k <= |ops| ==> Distinguishable(ExecAll(BOOT, ops[..k], w))
    decreases |ops|
  {
    assert ops[..|ops|] == ops;
    if ops != [] {
      var before := ops[..|ops| - 1];
      RunBookkept(before, w);
      ExecBookkept(ExecAll(BOOT, before, w), ops[|ops| - 1], w);
      FewBumpsDistinguish(before, w);
      forall k | 0 <= k < |ops| ensures Distinguishable(ExecAll(BOOT, ops[..k], w)) {
        assert before[..k] == ops[..k];
      }
    }
  }

  // Stale callbacks

  /** Firing a callback touches nothing but the timer queue. */
  ghost predicate FiresInVain(m: Machine, token: nat, w: World) {
    token in m.timers ==> Exec(m, Fire(token), w) == Taken(m, token)
  }

  lemma {:induction false} TokenGrows(m: Machine, ops: seq<Op>, w: World)
    requires Bookkept(m)
    ensures Bookkept(ExecAll(m, ops, w)) && m.token <= ExecAll(m, ops, w).token
    decreases |ops|
  {
    if ops != [] {
      TokenGrows(m, ops[..|ops| - 1], w);
      ExecBookkept(ExecAll(m, ops[..|ops| - 1], w), ops[|ops| - 1], w);
    }
  }

  lemma StrangerFiresInVain(m: Machine, token: nat, w: World)
    requires token <= m.token
    ensures (m.token - token) % TWO64 != 0 ==> FiresInVain(m, token, w)
  {
    hide SameToken, Tick;
    WholeTurns(token, m.token);
  }

  /**
   A callback whose token has been bumped away never runs the guest again, whatever happens next:
   unless it fires exactly a multiple of 2^64 bumps later.
   */
  lemma StaleFiresInVain(m: Machine, ops: seq<Op>, w: World, token: nat)
    requires Bookkept(m) && token < m.token
    ensures token < ExecAll(m, ops, w).token
    ensures (ExecAll(m, ops, w).token - token) % TWO64 != 0 ==> FiresInVain(ExecAll(m, ops, w), token, w)
  {
    hide FiresInVain;
    TokenGrows(m, ops, w);
    StrangerFiresInVain(ExecAll(m, ops, w), token, w);
  }

  lemma WholeTurns(a: nat, b: nat)
    requires a <= b
    ensures SameToken(a, b) <==> (b - a) % TWO64 == 0
  {
    var q, r := a / TWO64, b / TWO64;
    assert b - a == (r - q) * TWO64 + (b % TWO64 - a % TWO64);
  }

  /** A turn is recorded as soon as a slice of at least one step meets a live machine. */
  lemma SliceTakesTurn(m: Machine, n: nat, w: World)
    requires n > 0 && |m.harts| > 0
    ensures m.trace < Slice(m, n, w).m.trace
  {
    var start := m.(stop := NoStop);
    var t := TakeTurn(start, 0, n != 1, w);
    TurnRecorded(start, 0, n != 1, w);
    SweepGuest(t.m, 1, n != 1, w);
    var s := Sweep(start, 0, n != 1, w);
    RoundsGuest(s.m, n - 1, n != 1, w);
  }

  lemma TurnRecorded(m: Machine, j: nat, armed: bool, w: World)
    requires j < |m.harts|
    ensures m.trace < TakeTurn(m, j, armed, w).m.trace
  {
    hide StepHart;
    var c := if armed then CheckBreakpoint(m, j) else CheckResult(m, false);
    StepHartGuest(c.m, j, armed, w);
  }

  lemma LiveTickTakesTurn(m: Machine, token: nat, w: World)
    requires Bookkept(m) && token in m.timers && m.running && SameToken(token, m.token) && AnyAlive(m.harts)
    ensures m.trace < Exec(m, Fire(token), w).trace
  {
    hide Slice;
    var m' := Taken(m, token);
    SliceTakesTurn(m', MICRO_CHUNK, w);
    var s := Slice(m', MICRO_CHUNK, w);
    if s.ran != 0 {
      TimeboxGuest(s.m.(clock := s.m.clock + 1), s.ran, MAX_STEPS_PER_TICK, w);
    }
  }

  /** Exactly when a fired callback makes the guest take a turn. */
  lemma FireRunsGuestIff(m: Machine, token: nat, w: World)
    requires Bookkept(m)
    ensures m.trace < Exec(m, Fire(token), w).trace
      <==> token in m.timers && m.running && (m.token - token) % TWO64 == 0 && AnyAlive(m.harts)
  {
    if token in m.timers {
      WholeTurns(token, m.token);
      StrangerFiresInVain(m, token, w);
      if SameToken(token, m.token) && m.running && AnyAlive(m.harts) {
        LiveTickTakesTurn(m, token, w);
      }
    }
  }

  lemma ExecLast(m: Machine, ops: seq<Op>, op: Op, w: World)
    ensures ExecAll(m, ops + [op], w) == Exec(ExecAll(m, ops, w), op, w)
  {
    assert (ops + [op])[..|ops|] == ops;
  }

  lemma {:induction false} PauseMany(m: Machine, ops: seq<Op>, n: nat, w: World)
    requires !ExecAll(m, ops, w).running
    ensures ExecAll(m, ops + seq(n, _ => Pause), w)
      == ExecAll(m, ops, w).(token := ExecAll(m, ops, w).token + n)
    decreases n
  {
    hide ExecAll;
    if n == 0 {
      assert ops + seq(n, _ => Pause) == ops;
    } else {
      PauseMany(m, ops, n - 1, w);
      ExecLast(m, ops + seq(n - 1, _ => Pause), Pause, w);
      assert ops + seq(n, _ => Pause) == ops + seq(n - 1, _ => Pause) + [Pause];
    }
  }

  /** Start a run, pause 2^64 - 1 times before its callback fires, and start again. */
  lemma WrapAroundRun(w: World) returns (ops: seq<Op>)
    ensures var m := ExecAll(BOOT, ops, w);
      && m.running && AnyAlive(m.harts)
      && m.token == TWO64 + 1 && m.timers == multiset{1, TWO64 + 1}
  {
    var start := [LoadFirmware(FW_BASE), Run, Pause];
    assert start == [] + [LoadFirmware(FW_BASE)] + [Run] + [Pause];
    ExecLast(BOOT, [], LoadFirmware(FW_BASE), w);
    ExecLast(BOOT, [] + [LoadFirmware(FW_BASE)], Run, w);
    ExecLast(BOOT, [] + [LoadFirmware(FW_BASE)] + [Run], Pause, w);
    PauseMany(BOOT, start, TWO64 - 2, w);
    var paused := start + seq(TWO64 - 2, _ => Pause);
    ExecLast(BOOT, paused, Run, w);
    ops := paused + [Run];
    assert !ExecAll(BOOT, ops, w).harts[0].halted;
  }

  /** The wrap-around is real: that first callback passes for the current one, and ticks beside it. */
  lemma WrapAroundRevives(w: World)
    ensures exists ops: seq<Op> :: var m := ExecAll(BOOT, ops, w);
      m.running && |Current(m)| > 1 && 1 in m.timers && 1 < m.token && m.trace < Exec(m, Fire(1), w).trace
  {
    hide ExecAll, Exec, Current, Revenants, AnyAlive;
    var ops := WrapAroundRun(w);
    var m := ExecAll(BOOT, ops, w);
    RunOneChain(ops, w);
    RevenantsAre(m);
    assert 1 in Revenants(m);
    FireRunsGuestIff(m, 1, w);
  }
}
