/**
 The emulator's run loop as functions on machine states (cmd/rvwasm/main.go).

 The guest is opaque: one Hart.Step call is an arbitrary Effect drawn from a World, and so is the
 wall clock.  `clock` counts the consultations of the World, so that every consultation has an
 answer of its own.  `trace` records what happened at each hart's turn.
 */
module Machine {

  import opened Options

  /** runToken wraps around here. */
  const TWO64 := 0x1_0000_0000_0000_0000

  const MAX_STEPS_PER_TICK := 50000
  const MICRO_CHUNK := 1024
  const SMOKE_CHUNK := 1000
  const MAX_HARTS := 8
  const FW_BASE := 0x8000_0000

  datatype Priv = UserMode | SupervisorMode | MachineMode

  datatype Hart = Hart(pc: nat, mode: Priv, halted: bool, error: bool)

  /** `hart` is negative when the breakpoint applies to every hart. */
  datatype Breakpoint = Breakpoint(afterHits: nat, mode: Option<Priv>, hart: int, hits: nat)

  datatype Stop = NoStop | SysconPoweroff | SysconReboot | BreakpointHit(hart: nat, pc: nat, hits: nat) | WatchpointHit(hart: nat)

  /** What the guest can do during one Step: change any hart in any way, or reset the system. */
  datatype Act = ChangeHarts(harts: seq<Hart>) | Srst | Poweroff | Reboot

  datatype Effect = Effect(retired: bool, acts: seq<Act>, watchpoint: bool)

  datatype World = World(step: nat -> Effect, late: nat -> bool)

  /** One hart's turn in a slice; `armed` tells whether the slice looks at breakpoints, `watched` whether
   the step hit a watchpoint. */
  datatype Turn =
    | Skipped(hart: nat)
    | Stopped(hart: nat, pc: nat, mode: Priv)
    | Stepped(hart: nat, pc: nat, mode: Priv, armed: bool, retired: bool, watched: bool)

  /**
   `token` counts the bumps of runToken; the program sees it, and the token a callback carries, only
   modulo 2^64.  `timers` holds the tokens of the callbacks handed to the browser and not yet fired.
   */
  datatype Machine = Machine(
    running: bool,
    token: nat,
    pending: nat,
    timers: multiset<nat>,
    harts: seq<Hart>,
    breakpoints: map<nat, Breakpoint>,
    stop: Stop,
    entry: nat,
    firmwareLoaded: bool,
    clock: nat,
    trace: seq<Turn>)

  // Harts

  function ResetHart(entry: nat): Hart {
    Hart(entry, MachineMode, false, false)
  }

  function ResetAll(harts: seq<Hart>, entry: nat): (r: seq<Hart>)
    ensures |r| == |harts|
  {
    seq(|harts|, _ => ResetHart(entry))
  }

  function HaltAll(harts: seq<Hart>): (r: seq<Hart>)
    ensures |r| == |harts|
  {
    seq(|harts|, i requires 0 <= i < |harts| => harts[i].(halted := true))
  }

  predicate AnyAlive(harts: seq<Hart>) {
    exists i :: 0 <= i < |harts| && !harts[i].halted
  }

  predicate AnyError(harts: seq<Hart>) {
    exists i :: 0 <= i < |harts| && harts[i].error
  }

  /** Whatever the guest did to the harts, their number stays. */
  function Overlay(harts: seq<Hart>, changed: seq<Hart>): (r: seq<Hart>)
    ensures |r| == |harts|
  {
    seq(|harts|, i requires 0 <= i < |harts| => if i < |changed| then changed[i] else harts[i])
  }

  // System resets

  function RequestPoweroff(m: Machine): Machine {
    m.(stop := SysconPoweroff, running := false, token := m.token + 1, harts := HaltAll(m.harts))
  }

  function RequestReboot(m: Machine): Machine {
    m.(stop := SysconReboot, running := false, token := m.token + 1, harts := ResetAll(m.harts, m.entry))
  }

  /** SRST leaves the token alone. */
  function SystemReset(m: Machine, j: nat): Machine
    requires j < |m.harts|
  {
    m.(running := false, harts := m.harts[j := m.harts[j].(halted := true)])
  }

  function Apply(m: Machine, j: nat, act: Act): (m': Machine)
    requires j < |m.harts|
    ensures |m'.harts| == |m.harts|
  {
    match act
    case ChangeHarts(harts) => m.(harts := Overlay(m.harts, harts))
    case Srst => SystemReset(m, j)
    case Poweroff => RequestPoweroff(m)
    case Reboot => RequestReboot(m)
  }

  function ApplyAll(m: Machine, j: nat, acts: seq<Act>): (m': Machine)
    requires j < |m.harts|
    ensures |m'.harts| == |m.harts|
    decreases |acts|
  {
    if acts == [] then m else ApplyAll(Apply(m, j, acts[0]), j, acts[1..])
  }

  // Slices

  function StepHart(m: Machine, j: nat, armed: bool, w: World): (m': Machine)
    requires j < |m.harts|
    ensures |m'.harts| == |m.harts|
  {
    var effect := w.step(m.clock);
    var turn := Stepped(j, m.harts[j].pc, m.harts[j].mode, armed, effect.retired, effect.watchpoint);
    ApplyAll(m.(clock := m.clock + 1, trace := m.trace + [turn]), j, effect.acts)
  }

  /** Does a visit of hart j at pc in this mode qualify for the breakpoint? */
  predicate Applies(bp: Breakpoint, j: nat, mode: Priv) {
    && (bp.hart < 0 || bp.hart == j)
    && (bp.mode == None || bp.mode == Some(mode))
  }

  /** Does a breakpoint that has now been hit `hits` times stop the machine? */
  predicate Fires(bp: Breakpoint, hits: nat) {
    bp.afterHits == 0 || bp.afterHits <= hits
  }

  datatype CheckResult = CheckResult(m: Machine, fired: bool)

  function CheckBreakpoint(m: Machine, j: nat): CheckResult
    requires j < |m.harts|
  {
    var pc, mode := m.harts[j].pc, m.harts[j].mode;
    if pc !in m.breakpoints || !Applies(m.breakpoints[pc], j, mode) then CheckResult(m, false) else
    var hits := m.breakpoints[pc].hits + 1;
    var m' := m.(breakpoints := m.breakpoints[pc := m.breakpoints[pc].(hits := hits)]);
    if !Fires(m.breakpoints[pc], hits) then CheckResult(m', false) else
    CheckResult(m'.(stop := BreakpointHit(j, pc, hits)), true)
  }

  datatype TurnResult = TurnResult(m: Machine, ran: nat, stop: bool)

  function TakeTurn(m: Machine, j: nat, armed: bool, w: World): (r: TurnResult)
    requires j < |m.harts|
    ensures |r.m.harts| == |m.harts| && r.ran <= 1
  {
    if m.harts[j].halted then TurnResult(m.(trace := m.trace + [Skipped(j)]), 0, false) else
    var c := if armed then CheckBreakpoint(m, j) else CheckResult(m, false);
    if c.fired then
      TurnResult(c.m.(running := false, trace := m.trace + [Stopped(j, m.harts[j].pc, m.harts[j].mode)]), 0, true)
    else
      var effect := w.step(m.clock);
      var m' := StepHart(c.m, j, armed, w);
      var ran := if effect.retired then 1 else 0;
      if effect.watchpoint then TurnResult(m'.(stop := WatchpointHit(j), running := false), ran, true)
      else TurnResult(m', ran, false)
  }

  /** The turns of harts j, j+1, ... of one round. */
  function Sweep(m: Machine, j: nat, armed: bool, w: World): (r: TurnResult)
    requires j <= |m.harts|
    ensures |r.m.harts| == |m.harts| && r.ran <= |m.harts| - j
    decreases |m.harts| - j
  {
    if j == |m.harts| then TurnResult(m, 0, false) else
    var t := TakeTurn(m, j, armed, w);
    if t.stop then t else
    var s := Sweep(t.m, j + 1, armed, w);
    s.(ran := t.ran + s.ran)
  }

  /** How a slice ended: all its rounds ran, a round made no progress, or a turn stopped it. */
  datatype End = Full | Idle | Early

  datatype SliceResult = SliceResult(m: Machine, ran: nat, end: End)

  function Rounds(m: Machine, n: nat, armed: bool, w: World): (r: SliceResult)
    ensures |r.m.harts| == |m.harts|
    decreases n
  {
    if n == 0 then SliceResult(m, 0, Full) else
    var s := Sweep(m, 0, armed, w);
    if s.stop then SliceResult(s.m, s.ran, Early)
    else if s.ran == 0 then SliceResult(s.m, 0, Idle)
    else
      var rest := Rounds(s.m, n - 1, armed, w);
      rest.(ran := s.ran + rest.ran)
  }

  function Slice(m: Machine, n: int, w: World): (r: SliceResult)
    ensures |r.m.harts| == |m.harts|
  {
    Rounds(m.(stop := NoStop), if n > 0 then n else 0, n != 1, w)
  }

  // Slice drivers

  datatype DriveResult = DriveResult(m: Machine, ran: nat)

  function Min(a: nat, b: nat): nat {
    if a <= b then a else b
  }

  /** Has a slice left the machine stopped? */
  predicate Interrupted(m: Machine) {
    m.stop != NoStop || AnyError(m.harts)
  }

  function Timebox(m: Machine, ran: nat, maxSteps: nat, w: World): (r: DriveResult)
    decreases if ran <= maxSteps then maxSteps - ran else 0
  {
    if !m.running || !AnyAlive(m.harts) || ran >= maxSteps then DriveResult(m, ran) else
    var s := Slice(m, Min(MICRO_CHUNK, maxSteps - ran), w);
    if s.ran == 0 || !s.m.running || Interrupted(s.m) then DriveResult(s.m, ran + s.ran) else
    var m' := s.m.(clock := s.m.clock + 1);
    if w.late(s.m.clock) then DriveResult(m', ran + s.ran) else
    Timebox(m', ran + s.ran, maxSteps, w)
  }

  function SliceTimeboxed(m: Machine, maxSteps: int, w: World): DriveResult {
    Timebox(m, 0, if maxSteps <= 0 then 1 else maxSteps, w)
  }

  function SmokeLoop(m: Machine, ran: nat, steps: nat, w: World): (r: DriveResult)
    decreases if ran <= steps then steps - ran else 0
  {
    if ran >= steps || !AnyAlive(m.harts) then DriveResult(m, ran) else
    var s := Slice(m, Min(SMOKE_CHUNK, steps - ran), w);
    if s.ran == 0 || Interrupted(s.m) then DriveResult(s.m, ran + s.ran) else
    SmokeLoop(s.m, ran + s.ran, steps, w)
  }

  // Ticks

  /** Do two tokens look the same to the program? */
  predicate SameToken(a: nat, b: nat) {
    a % TWO64 == b % TWO64
  }

  function Schedule(m: Machine, token: nat): Machine {
    if !m.running then m else m.(pending := m.pending + 1, timers := m.timers + multiset{token})
  }

  function Tick(m: Machine, token: nat, w: World): Machine {
    if !m.running || !SameToken(token, m.token) then m else
    var m' := SliceTimeboxed(m, MAX_STEPS_PER_TICK, w).m;
    if AnyError(m'.harts) || !AnyAlive(m'.harts) then m'.(running := false, token := m'.token + 1)
    else if !m'.running || !SameToken(token, m'.token) then m'
    else Schedule(m', token)
  }

  // What the user and the browser can do

  datatype Op =
    | Run
    | Pause
    | Reset
    | PowerOff
    | Restart
    | StepGuest(n: int)
    | Fire(token: nat)
    | Smoke(steps: nat)
    | LoadFirmware(entry: nat)
    | SetHartCount(n: int)
    | AddBreakpoint(pc: nat, bp: Breakpoint)
    | ClearBreakpoints

  /** Start the clicked-on run, unless it is running already or has nothing to run. */
  function StartRun(m: Machine): Machine {
    if m.running || !m.firmwareLoaded then m else Schedule(m.(running := true, token := m.token + 1), m.token + 1)
  }

  function FireTimer(m: Machine, token: nat, w: World): Machine {
    if token !in m.timers then m else
    var m' := m.(timers := m.timers - multiset{token}, pending := if m.pending > 0 then m.pending - 1 else 0);
    if !m'.running || !SameToken(token, m'.token) then m' else Tick(m', token, w)
  }

  function NewMachine(m: Machine, n: int): Machine {
    var count := if n < 1 then 1 else if n > MAX_HARTS then MAX_HARTS else n;
    m.(harts := seq(count, _ => ResetHart(m.entry)), stop := NoStop, firmwareLoaded := false)
  }

  function KeepHits(m: Machine, pc: nat, bp: Breakpoint): Breakpoint {
    if pc in m.breakpoints then bp.(hits := m.breakpoints[pc].hits) else bp.(hits := 0)
  }

  function Exec(m: Machine, op: Op, w: World): Machine {
    match op
    case Run => StartRun(m)
    case Pause => m.(running := false, token := m.token + 1)
    case Reset => m.(running := false, token := m.token + 1, harts := ResetAll(m.harts, m.entry))
    case PowerOff => RequestPoweroff(m)
    case Restart => RequestReboot(m)
    case StepGuest(n) => Slice(m, n, w).m
    case Fire(token) => FireTimer(m, token, w)
    case Smoke(steps) => SmokeLoop(m.(harts := ResetAll(m.harts, m.entry)), 0, steps, w).m
    case LoadFirmware(entry) => m.(entry := entry, firmwareLoaded := true, harts := ResetAll(m.harts, entry))
    case SetHartCount(n) => if m.running then m else NewMachine(m, n)
    case AddBreakpoint(pc, bp) => m.(breakpoints := m.breakpoints[pc := KeepHits(m, pc, bp)])
    case ClearBreakpoints => m.(breakpoints := map[], stop := NoStop)
  }

  function ExecAll(m: Machine, ops: seq<Op>, w: World): Machine
    decreases |ops|
  {
    if ops == [] then m else Exec(ExecAll(m, ops[..|ops| - 1], w), ops[|ops| - 1], w)
  }

  const BOOT := Machine(false, 0, 0, multiset{}, [ResetHart(FW_BASE)], map[], NoStop, FW_BASE, false, 0, [])
}
