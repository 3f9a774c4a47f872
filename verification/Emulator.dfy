/**
 The emulator object whose methods update the run-loop fields in place (cmd/rvwasm/main.go).
 Each method is proved to do to its fields what the function of module Machine does to the state.
 The guest's answers (World) are a parameter.
 */
module EmulatorLoop {
  import M = Machine
  import opened Options

  class Emulator {
    var running: bool
    var runToken: nat  // read modulo 2^64
    var runPending: nat
    var timers: multiset<nat>  // the browser's queue of scheduled ticks
    var harts: seq<M.Hart>
    var breakpoints: map<nat, M.Breakpoint>
    var stopReason: M.Stop
    var entry: nat
    var firmwareLoaded: bool
    var runLastSteps: nat
    var clock: nat
    ghost var trace: seq<M.Turn>

    ghost function State(): M.Machine
      reads this
    {
      M.Machine(running, runToken, runPending, timers, harts, breakpoints, stopReason, entry, firmwareLoaded, clock, trace)
    }

    constructor ()
      ensures State() == M.BOOT
    {
      running, runToken, runPending, timers := false, 0, 0, multiset{};
      harts, breakpoints, stopReason := [M.ResetHart(M.FW_BASE)], map[], M.NoStop;
      entry, firmwareLoaded, runLastSteps, clock, trace := M.FW_BASE, false, 0, 0, [];
    }

    // Harts

    method AnyHartAlive() returns (alive: bool)
      ensures alive == M.AnyAlive(harts)
    {
      for i := 0 to |harts|
        invariant forall k :: 0 <= k < i ==> harts[k].halted
      {
        if !harts[i].halted {
          return true;
        }
      }
      return false;
    }

    method AnyHartError() returns (failed: bool)
      ensures failed == M.AnyError(harts)
    {
      for i := 0 to |harts|
        invariant forall k :: 0 <= k < i ==> !harts[k].error
      {
        if harts[i].error {
          return true;
        }
      }
      return false;
    }

    method HaltAllHarts()
      modifies this`harts
      ensures harts == M.HaltAll(old(harts))
    {
      for i := 0 to |harts|
        invariant |harts| == |old(harts)|
        invariant forall k :: 0 <= k < |harts| ==> harts[k] == if k < i then old(harts)[k].(halted := true) else old(harts)[k]
      {
        harts := harts[i := harts[i].(halted := true)];
      }
    }

    method ResetHarts()
      modifies this`harts
      ensures harts == M.ResetAll(old(harts), entry)
    {
      for i := 0 to |harts|
        invariant |harts| == |old(harts)|
        invariant forall k :: 0 <= k < i ==> harts[k] == M.ResetHart(entry)
      {
        harts := harts[i := M.ResetHart(entry)];
      }
    }

    method RequestSystemPoweroff()
      modifies this
      ensures State() == M.RequestPoweroff(old(State()))
    {
      stopReason := M.SysconPoweroff;
      running := false;
      runToken := runToken + 1;
      HaltAllHarts();
    }

    method RequestSystemReboot()
      modifies this
      ensures State() == M.RequestReboot(old(State()))
    {
      stopReason := M.SysconReboot;
      running := false;
      runToken := runToken + 1;
      ResetHarts();
    }

    /** What the guest can do to the machine while hart j steps. */
    method Perform(j: nat, act: M.Act)
      requires j < |harts|
      modifies this
      ensures State() == M.Apply(old(State()), j, act)
    {
      match act {
        case ChangeHarts(changed) => harts := M.Overlay(harts, changed);
        case Srst =>
          running := false;
          harts := harts[j := harts[j].(halted := true)];
        case Poweroff => RequestSystemPoweroff();
        case Reboot => RequestSystemReboot();
      }
    }

    /** The opaque Hart.Step: whatever the guest does, act by act. */
    method Step(j: nat, armed: bool, w: M.World) returns (retired: bool, watchpoint: bool)
      requires j < |harts|
      modifies this
      ensures State() == M.StepHart(old(State()), j, armed, w)
      ensures retired == w.step(old(clock)).retired && watchpoint == w.step(old(clock)).watchpoint
    {
      hide M.Apply;
      var effect := w.step(clock);
      trace := trace + [M.Stepped(j, harts[j].pc, harts[j].mode, armed, effect.retired, effect.watchpoint)];
      clock := clock + 1;
      ghost var begun := State();
      assert effect.acts[0..] == effect.acts;
      for i := 0 to |effect.acts|
        invariant |harts| == |old(harts)|
        invariant M.ApplyAll(State(), j, effect.acts[i..]) == M.ApplyAll(begun, j, effect.acts)
      {
        assert effect.acts[i..][1..] == effect.acts[i + 1..];
        Perform(j, effect.acts[i]);
      }
      return effect.retired, effect.watchpoint;
    }

    // Slices

    method CheckBreakpoint(j: nat) returns (fired: bool)
      requires j < |harts|
      modifies this`breakpoints, this`stopReason
      ensures M.CheckResult(State(), fired) == M.CheckBreakpoint(old(State()), j)
    {
      var pc := harts[j].pc;
      if pc !in breakpoints {
        return false;
      }
      var bp := breakpoints[pc];
      if bp.hart >= 0 && bp.hart != j {
        return false;
      }
      if bp.mode != None && bp.mode != Some(harts[j].mode) {
        return false;
      }
      bp := bp.(hits := bp.hits + 1);
      breakpoints := breakpoints[pc := bp];
      if bp.afterHits != 0 && bp.hits < bp.afterHits {
        return false;
      }
      stopReason := M.BreakpointHit(j, pc, bp.hits);
      return true;
    }

    /** One hart's turn, the body of runSlice's inner loop. */
    method TakeTurn(j: nat, armed: bool, w: M.World) returns (ran: nat, stop: bool)
      requires j < |harts|
      modifies this
      ensures M.TurnResult(State(), ran, stop) == M.TakeTurn(old(State()), j, armed, w)
    {
      if harts[j].halted {
        trace := trace + [M.Skipped(j)];
        return 0, false;
      }
      ghost var pc, mode := harts[j].pc, harts[j].mode;
      if armed {
        var fired := CheckBreakpoint(j);
        if fired {
          running := false;
          trace := trace + [M.Stopped(j, pc, mode)];
          return 0, true;
        }
      }
      var retired, watchpoint := Step(j, armed, w);
      if watchpoint {
        stopReason := M.WatchpointHit(j);
        running := false;
      }
      return if retired then 1 else 0, watchpoint;
    }

    /** The inner loop of runSlice: one turn for each hart. */
    method RunRound(armed: bool, w: M.World) returns (ran: nat, stop: bool)
      modifies this
      ensures M.TurnResult(State(), ran, stop) == M.Sweep(old(State()), 0, armed, w)
    {
      hide M.TakeTurn;
      ran, stop := 0, false;
      ghost var sweep := M.Sweep(State(), 0, armed, w);
      for j := 0 to |harts|
        invariant |harts| == |old(harts)| && !stop
        invariant var rest := M.Sweep(State(), j, armed, w); sweep == rest.(ran := ran + rest.ran)
      {
        var one: nat;
        one, stop := TakeTurn(j, armed, w);
        ran := ran + one;
        if stop {
          return;
        }
      }
    }

    method RunSlice(n: int, w: M.World) returns (ran: nat)
      modifies this
      ensures State() == M.Slice(old(State()), n, w).m && ran == M.Slice(old(State()), n, w).ran
    {
      hide M.Sweep;
      ran := 0;
      stopReason := M.NoStop;
      var armed := n != 1;
      var i := 0;
      ghost var rounds := if n > 0 then n else 0;
      ghost var all := M.Rounds(State(), rounds, armed, w);
      while i < n
        invariant 0 <= i <= rounds
        invariant var rest := M.Rounds(State(), rounds - i, armed, w); all == rest.(ran := ran + rest.ran)
      {
        var progress, stop := RunRound(armed, w);
        ran := ran + progress;
        if stop || progress == 0 {
          return;
        }
        i := i + 1;
      }
    }

    method RunSliceTimeboxed(maxSteps: int, w: M.World) returns (ran: nat)
      modifies this
      ensures M.DriveResult(State(), ran) == M.SliceTimeboxed(old(State()), maxSteps, w)
    {
      var budget := if maxSteps <= 0 then 1 else maxSteps;
      ran := RunBudget(budget, w);
    }

    method RunBudget(budget: nat, w: M.World) returns (ran: nat)
      modifies this
      ensures M.DriveResult(State(), ran) == M.Timebox(old(State()), 0, budget, w)
    {
      hide M.Slice, M.AnyAlive, M.AnyError;
      ran := 0;
      var alive := AnyHartAlive();
      while running && alive && ran < budget
        invariant alive == M.AnyAlive(harts)
        invariant M.Timebox(State(), ran, budget, w) == M.Timebox(old(State()), 0, budget, w)
        decreases if ran <= budget then budget - ran else 0
      {
        ghost var begun := State();
        var chunk := M.MICRO_CHUNK;
        if budget - ran < chunk {
          chunk := budget - ran;
        }
        var n := RunSlice(chunk, w);
        assert State() == M.Slice(begun, chunk, w).m && n == M.Slice(begun, chunk, w).ran;
        ran := ran + n;
        var failed := AnyHartError();
        if n == 0 || !running || stopReason != M.NoStop || failed {
          return;
        }
        var late := w.late(clock);
        clock := clock + 1;
        if late {
          return;
        }
        alive := AnyHartAlive();
      }
    }

    method RunSmokePreset(steps: nat, w: M.World) returns (ran: nat)
      modifies this
      ensures M.DriveResult(State(), ran)
        == M.SmokeLoop(old(State()).(harts := M.ResetAll(old(harts), old(entry))), 0, steps, w)
    {
      ResetHarts();
      ran := RunSmokeLoop(steps, w);
    }

    method RunSmokeLoop(steps: nat, w: M.World) returns (ran: nat)
      modifies this
      ensures M.DriveResult(State(), ran) == M.SmokeLoop(old(State()), 0, steps, w)
    {
      hide M.Slice, M.AnyAlive, M.AnyError;
      ran := 0;
      var alive := AnyHartAlive();
      while ran < steps && alive
        invariant alive == M.AnyAlive(harts)
        invariant M.SmokeLoop(State(), ran, steps, w) == M.SmokeLoop(old(State()), 0, steps, w)
        decreases if ran <= steps then steps - ran else 0
      {
        ghost var begun := State();
        var chunk := M.SMOKE_CHUNK;
        if steps - ran < chunk {
          chunk := steps - ran;
        }
        var n := RunSlice(chunk, w);
        assert State() == M.Slice(begun, chunk, w).m && n == M.Slice(begun, chunk, w).ran;
        ran := ran + n;
        var failed := AnyHartError();
        if n == 0 || stopReason != M.NoStop || failed {
          return;
        }
        alive := AnyHartAlive();
      }
    }

    // Ticks and commands

    method ScheduleRunTick(token: nat)
      modifies this
      ensures State() == M.Schedule(old(State()), token)
    {
      if !running {
        return;
      }
      runPending := runPending + 1;
      timers := timers + multiset{token};
    }

    method RunTick(token: nat, w: M.World)
      modifies this
      ensures State() == M.Tick(old(State()), token, w)
    {
      hide M.SliceTimeboxed, M.AnyAlive, M.AnyError;
      if !running || token % M.TWO64 != runToken % M.TWO64 {
        return;
      }
      runLastSteps := RunSliceTimeboxed(M.MAX_STEPS_PER_TICK, w);
      var failed := AnyHartError();
      if failed {
        running := false;
        runToken := runToken + 1;
        return;
      }
      var alive := AnyHartAlive();
      if !alive {
        running := false;
        runToken := runToken + 1;
        return;
      }
      if !running || token % M.TWO64 != runToken % M.TWO64 {
        return;
      }
      ScheduleRunTick(token);
    }

    /** The browser fires one of the scheduled callbacks. */
    method Fire(token: nat, w: M.World)
      requires token in timers
      modifies this
      ensures State() == M.Exec(old(State()), M.Fire(token), w)
    {
      hide M.Tick;
      timers := timers - multiset{token};
      if runPending > 0 {
        runPending := runPending - 1;
      }
      if !running || token % M.TWO64 != runToken % M.TWO64 {
        return;
      }
      RunTick(token, w);
    }

    method Run(w: M.World)
      modifies this
      ensures State() == M.Exec(old(State()), M.Run, w)
    {
      if running || !firmwareLoaded {
        return;
      }
      running := true;
      runToken := runToken + 1;
      ScheduleRunTick(runToken);
    }

    method Pause(w: M.World)
      modifies this
      ensures State() == M.Exec(old(State()), M.Pause, w)
    {
      running := false;
      runToken := runToken + 1;
    }

    method Reset(w: M.World)
      modifies this
      ensures State() == M.Exec(old(State()), M.Reset, w)
    {
      running := false;
      runToken := runToken + 1;
      ResetHarts();
    }

    method AddBreakpoint(pc: nat, bp: M.Breakpoint, w: M.World)
      modifies this`breakpoints
      ensures State() == M.Exec(old(State()), M.AddBreakpoint(pc, bp), w)
    {
      breakpoints := breakpoints[pc := bp.(hits := if pc in breakpoints then breakpoints[pc].hits else 0)];
    }
  }
}
