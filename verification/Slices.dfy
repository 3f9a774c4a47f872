/** Slices of guest execution: round-robin fairness, completeness, and how far the drivers overshoot. */
module Slices {
  import opened Machine
  import opened Ticks

  // Counting turns

  function Steps(ts: seq<Turn>, h: nat): nat {
    if ts == [] then 0 else
    Steps(ts[..|ts| - 1], h) + if ts[|ts| - 1].Stepped? && ts[|ts| - 1].hart == h then 1 else 0
  }

  function Retired(ts: seq<Turn>): nat {
    if ts == [] then 0 else
    Retired(ts[..|ts| - 1]) + if ts[|ts| - 1].Stepped? && ts[|ts| - 1].retired then 1 else 0
  }

  lemma {:induction false} RetiredAppend(ts: seq<Turn>, us: seq<Turn>)
    ensures Retired(ts + us) == Retired(ts) + Retired(us)
    decreases |us|
  {
    if us == [] {
      assert ts + us == ts;
    } else {
      RetiredAppend(ts, us[..|us| - 1]);
      assert (ts + us)[..|ts + us| - 1] == ts + us[..|us| - 1];
    }
  }

  // Whose turn it is

  /** The harts take turns in order, hart `first` first, of H harts. */
  ghost predicate InTurn(ts: seq<Turn>, first: nat, H: nat)
    requires H > 0
  {
    forall i :: 0 <= i < |ts| ==> ts[i].hart == (first + i) % H
  }

  ghost predicate Unstopped(ts: seq<Turn>) {
    forall i :: 0 <= i < |ts| ==> !ts[i].Stopped?
  }

  ghost predicate NeverSkipped(ts: seq<Turn>, h: nat) {
    forall i :: 0 <= i < |ts| ==> ts[i] != Skipped(h)
  }

  /** A turn ends its slice if a breakpoint stopped it or its step hit a watchpoint. */
  predicate Halts(t: Turn) {
    t.Stopped? || (t.Stepped? && t.watched)
  }

  ghost predicate Unhalted(ts: seq<Turn>) {
    forall i :: 0 <= i < |ts| ==> !Halts(ts[i])
  }

  /** Only the last turn may end the slice. */
  ghost predicate HaltsLast(ts: seq<Turn>) {
    ts != [] ==> Unhalted(ts[..|ts| - 1])
  }

  predicate Halted(ts: seq<Turn>) {
    ts != [] && Halts(ts[|ts| - 1])
  }

  /** Every turn was taken with breakpoints looked at, or every one without. */
  ghost predicate ArmedAs(ts: seq<Turn>, armed: bool) {
    forall i :: 0 <= i < |ts| ==> match ts[i]
      case Skipped(_) => true
      case Stopped(_, _, _) => armed
      case Stepped(_, _, _, looked, _, _) => looked == armed
  }

  lemma ArmedAppend(ts: seq<Turn>, us: seq<Turn>, armed: bool)
    requires ArmedAs(ts, armed) && ArmedAs(us, armed)
    ensures ArmedAs(ts + us, armed)
  {}

  lemma TakeTurnTurns(m: Machine, j: nat, armed: bool, w: World) returns (turn: Turn)
    requires j < |m.harts|
    ensures TakeTurn(m, j, armed, w).m.trace == m.trace + [turn]
    ensures turn.hart == j && (turn.Stopped? ==> TakeTurn(m, j, armed, w).stop)
    ensures TakeTurn(m, j, armed, w).ran == Retired([turn]) && ArmedAs([turn], armed)
    ensures TakeTurn(m, j, armed, w).stop <==> Halts(turn)
  {
    hide StepHart;
    var c := if armed then CheckBreakpoint(m, j) else CheckResult(m, false);
    StepHartGuest(c.m, j, armed, w);
    var pc, mode := m.harts[j].pc, m.harts[j].mode;
    turn := if m.harts[j].halted then Skipped(j)
            else if c.fired then Stopped(j, pc, mode)
            else Stepped(j, pc, mode, armed, w.step(m.clock).retired, w.step(m.clock).watchpoint);
  }

  lemma SweepStep(m: Machine, j: nat, armed: bool, w: World)
    requires j < |m.harts|
    ensures var t := TakeTurn(m, j, armed, w);
      Sweep(m, j, armed, w) == if t.stop then t else
        var s := Sweep(t.m, j + 1, armed, w);
        s.(ran := t.ran + s.ran)
  {
    hide TakeTurn;
  }

  lemma HaltsLastAppend(ts: seq<Turn>, us: seq<Turn>)
    requires HaltsLast(ts) && !Halted(ts) && HaltsLast(us)
    ensures HaltsLast(ts + us) && (us != [] ==> Halted(ts + us) == Halted(us)) && (us == [] ==> !Halted(ts + us))
  {
    var all := ts + us;
    forall i | 0 <= i < |all| - 1 ensures !Halts(all[i]) {
      if i < |ts| - 1 {
        assert ts[..|ts| - 1][i] == all[i];
      } else if i >= |ts| {
        assert us[..|us| - 1][i - |ts|] == all[i];
      }
    }
  }

  lemma {:induction false} SweepEnds(m: Machine, j: nat, armed: bool, w: World) returns (ts: seq<Turn>)
    requires j <= |m.harts|
    ensures Sweep(m, j, armed, w).m.trace == m.trace + ts && Sweep(m, j, armed, w).ran == Retired(ts)
    ensures HaltsLast(ts) && (Sweep(m, j, armed, w).stop <==> Halted(ts))
    ensures |ts| <= |m.harts| - j && (!Sweep(m, j, armed, w).stop ==> |ts| == |m.harts| - j)
    decreases |m.harts| - j
  {
    if j == |m.harts| {
      ts := [];
      assert m.trace + ts == m.trace;
    } else {
      hide TakeTurn, Sweep, Retired;
      SweepStep(m, j, armed, w);
      var turn := TakeTurnTurns(m, j, armed, w);
      var t := TakeTurn(m, j, armed, w);
      ts := [turn];
      if !t.stop {
        var rest := SweepEnds(t.m, j + 1, armed, w);
        ts := [turn] + rest;
        HaltsLastAppend([turn], rest);
        RetiredAppend([turn], rest);
        assert m.trace + ts == t.m.trace + rest;
      }
    }
  }

  lemma {:induction false} SweepHarts(m: Machine, j: nat, armed: bool, w: World) returns (ts: seq<Turn>)
    requires j <= |m.harts|
    ensures Sweep(m, j, armed, w).m.trace == m.trace + ts
    ensures (forall i :: 0 <= i < |ts| ==> ts[i].hart == j + i) && ArmedAs(ts, armed)
    decreases |m.harts| - j
  {
    if j == |m.harts| {
      ts := [];
      assert m.trace + ts == m.trace;
    } else {
      hide TakeTurn, Sweep, Retired, ArmedAs;
      SweepStep(m, j, armed, w);
      var turn := TakeTurnTurns(m, j, armed, w);
      var t := TakeTurn(m, j, armed, w);
      ts := [turn];
      if !t.stop {
        var rest := SweepHarts(t.m, j + 1, armed, w);
        ts := [turn] + rest;
        ArmedAppend([turn], rest, armed);
        assert m.trace + ts == t.m.trace + rest;
      }
    }
  }

  lemma UnhaltedUnstopped(ts: seq<Turn>)
    requires HaltsLast(ts)
    ensures if Halted(ts) then Unstopped(ts[..|ts| - 1]) else Unstopped(ts)
  {
    if ts != [] {
      assert ts == ts[..|ts| - 1] + [ts[|ts| - 1]];
    }
  }

  lemma SweepTurns(m: Machine, j: nat, armed: bool, w: World) returns (ts: seq<Turn>)
    requires j <= |m.harts|
    ensures var s := Sweep(m, j, armed, w);
      && s.m.trace == m.trace + ts && s.ran == Retired(ts) && |ts| <= |m.harts| - j
      && (!s.stop ==> |ts| == |m.harts| - j && Unstopped(ts))
      && (s.stop ==> ts != [] && Unstopped(ts[..|ts| - 1]))
    ensures (forall i :: 0 <= i < |ts| ==> ts[i].hart == j + i) && ArmedAs(ts, armed)
  {
    hide Sweep, Retired, ArmedAs, HaltsLast, Unstopped;
    ts := SweepEnds(m, j, armed, w);
    var us := SweepHarts(m, j, armed, w);
    assert (m.trace + ts)[|m.trace|..] == ts && (m.trace + us)[|m.trace|..] == us;
    UnhaltedUnstopped(ts);
  }

  lemma ModUnique(x: nat, H: nat, q: nat, r: nat)
    requires r < H && x == q * H + r
    ensures x / H == q && x % H == r
  {
    var e := q - x / H;
    assert e * H == x % H - r;
    SmallMultiple(e, H);
  }

  lemma SmallMultiple(e: int, d: int)
    requires -d < e * d < d
    ensures e == 0
  {}

  lemma NextTurn(k: nat, H: nat)
    requires H > 0
    ensures if k % H + 1 < H then (k + 1) / H == k / H && (k + 1) % H == k % H + 1
            else (k + 1) / H == k / H + 1 && (k + 1) % H == 0
  {
    if k % H + 1 < H {
      ModUnique(k + 1, H, k / H, k % H + 1);
    } else {
      ModUnique(k + 1, H, k / H + 1, 0);
    }
  }

  lemma NextRound(i: nat, H: nat)
    requires H > 0
    ensures (H + i) % H == i % H && (i < H ==> i % H == i)
  {
    ModUnique(H + i, H, i / H + 1, i % H);
    if i < H {
      ModUnique(i, H, 0, i);
    }
  }

  /** A round's turns followed by round-robin turns are round-robin turns. */
  lemma PrependRound(first: seq<Turn>, rest: seq<Turn>, H: nat)
    requires H > 0 && (|first| == H || rest == [])
    requires |first| <= H && forall i :: 0 <= i < |first| ==> first[i].hart == i
    requires InTurn(rest, 0, H)
    ensures InTurn(first + rest, 0, H)
  {
    var ts := first + rest;
    forall i | 0 <= i < |ts| ensures ts[i].hart == (0 + i) % H {
      if i < |first| {
        NextRound(i, H);
      } else {
        assert ts[i] == rest[i - H];
        NextRound(i - H, H);
      }
    }
  }

  lemma MulSuccessor(n: nat, H: nat)
    ensures (n + 1) * H == n * H + H
  {}

  lemma NoTurns(H: nat)
    requires H > 0
    ensures InTurn([], 0, H) && Retired([]) == 0 && forall armed :: ArmedAs([], armed)
  {}

  /** The turns of a slice: round robin from hart 0, stopped only at its last turn, if at all. */
  lemma {:induction false} RoundsTurns(m: Machine, n: nat, armed: bool, w: World) returns (ts: seq<Turn>)
    requires |m.harts| > 0
    ensures Rounds(m, n, armed, w).m.trace == m.trace + ts
    ensures Rounds(m, n, armed, w).ran == Retired(ts)
    ensures |ts| <= n * |m.harts|
    ensures Rounds(m, n, armed, w).end == Full ==> |ts| == n * |m.harts|
    ensures if Rounds(m, n, armed, w).end == Early then ts != [] && Unstopped(ts[..|ts| - 1]) else Unstopped(ts)
    ensures InTurn(ts, 0, |m.harts|) && ArmedAs(ts, armed)
    decreases n
  {
    hide Sweep, Retired, InTurn, ArmedAs;
    if n == 0 {
      ts := [];
      assert m.trace + ts == m.trace;
      NoTurns(|m.harts|);
    } else {
      var first := SweepTurns(m, 0, armed, w);
      var s := Sweep(m, 0, armed, w);
      var rest: seq<Turn> := [];
      MulSuccessor(n - 1, |m.harts|);
      if !s.stop && s.ran != 0 {
        rest := RoundsTurns(s.m, n - 1, armed, w);
        if rest != [] {
          assert (first + rest)[..|first + rest| - 1] == first + rest[..|rest| - 1];
        }
        assert m.trace + (first + rest) == s.m.trace + rest;
      } else {
        assert first + rest == first;
        NoTurns(|m.harts|);
      }
      ts := first + rest;
      PrependRound(first, rest, |m.harts|);
      RetiredAppend(first, rest);
      ArmedAppend(first, rest, armed);
    }
  }

  // How a slice ends

  /** A halted hart is skipped; any other is stopped where it stands or stepped there, with the guest's answers on record. */
  lemma TurnRecords(m: Machine, j: nat, armed: bool, w: World) returns (turn: Turn)
    requires j < |m.harts|
    ensures TakeTurn(m, j, armed, w).m.trace == m.trace + [turn] && turn.hart == j
    ensures turn.Skipped? <==> m.harts[j].halted
    ensures turn.Skipped? ==> TakeTurn(m, j, armed, w).m == m.(trace := m.trace + [turn]) && TakeTurn(m, j, armed, w).ran == 0
    ensures !turn.Skipped? ==> turn.pc == m.harts[j].pc && turn.mode == m.harts[j].mode
    ensures turn.Stopped? ==> armed && TakeTurn(m, j, armed, w).m.harts == m.harts && TakeTurn(m, j, armed, w).ran == 0
    ensures turn.Stepped? ==>
      && turn.armed == armed && turn.retired == w.step(m.clock).retired && turn.watched == w.step(m.clock).watchpoint
      && TakeTurn(m, j, armed, w).ran == if turn.retired then 1 else 0
  {
    hide StepHart;
    var c := if armed then CheckBreakpoint(m, j) else CheckResult(m, false);
    StepHartGuest(c.m, j, armed, w);
    var pc, mode := m.harts[j].pc, m.harts[j].mode;
    turn := if m.harts[j].halted then Skipped(j)
            else if c.fired then Stopped(j, pc, mode)
            else Stepped(j, pc, mode, armed, w.step(m.clock).retired, w.step(m.clock).watchpoint);
  }

  /** The turns of round k, if the slice completed it. */
  function RoundAt(ts: seq<Turn>, H: nat, k: nat): seq<Turn> {
    MulSuccessor(k, H);
    if (k + 1) * H <= |ts| then ts[k * H..(k + 1) * H] else []
  }

  /** Does every round but the last one retire a step? */
  ghost predicate Progresses(ts: seq<Turn>, H: nat) {
    forall k: nat :: (k + 1) * H < |ts| ==> Retired(RoundAt(ts, H, k)) > 0
  }

  /** Do the turns end on a whole round in which nothing retired and nothing stopped the slice? */
  ghost predicate EndsIdle(ts: seq<Turn>, H: nat)
    requires H > 0
  {
    H <= |ts| && |ts| % H == 0 && !Halted(ts) && Retired(ts[|ts| - H..]) == 0
  }

  lemma OneRound(ts: seq<Turn>, H: nat)
    requires H > 0 && |ts| <= H
    ensures Progresses(ts, H) && (EndsIdle(ts, H) <==> |ts| == H && !Halted(ts) && Retired(ts) == 0)
  {
    hide Retired, Halted, RoundAt;
    forall k: nat ensures (k + 1) * H < |ts| ==> Retired(RoundAt(ts, H, k)) > 0 {
      MulMonotone(1, k + 1, H);
    }
    if |ts| == H {
      ModUnique(|ts|, H, 1, 0);
      assert ts[|ts| - H..] == ts;
    } else {
      ModUnique(|ts|, H, 0, |ts|);
    }
  }

  lemma FirstRound(first: seq<Turn>, rest: seq<Turn>, H: nat)
    requires |first| == H
    ensures RoundAt(first + rest, H, 0) == first
  {}

  lemma LaterRound(first: seq<Turn>, rest: seq<Turn>, H: nat, k: nat)
    requires |first| == H
    ensures RoundAt(first + rest, H, k + 1) == RoundAt(rest, H, k)
    ensures (k + 2) * H < |first + rest| <==> (k + 1) * H < |rest|
  {
    MulSuccessor(k, H);
    MulSuccessor(k + 1, H);
    var ts, from, to := first + rest, k * H, (k + 1) * H;
    if to <= |rest| {
      assert ts[H + from..H + to] == rest[from..to];
    }
  }

  lemma MoreRounds(first: seq<Turn>, rest: seq<Turn>, H: nat)
    requires |first| == H > 0 && rest != [] && Retired(first) > 0 && Progresses(rest, H)
    ensures Progresses(first + rest, H)
  {
    hide Retired, RoundAt;
    forall k: nat | (k + 1) * H < |first + rest| ensures Retired(RoundAt(first + rest, H, k)) > 0 {
      if k == 0 {
        FirstRound(first, rest, H);
      } else {
        LaterRound(first, rest, H, k - 1);
      }
    }
  }

  lemma SameEnd(first: seq<Turn>, rest: seq<Turn>, H: nat)
    requires |first| == H > 0 && rest != [] && Halted(first + rest) == Halted(rest)
    ensures EndsIdle(first + rest, H) <==> EndsIdle(rest, H)
  {
    hide Retired, Halted;
    NextRound(|rest|, H);
    if H <= |rest| {
      assert (first + rest)[|first + rest| - H..] == rest[|rest| - H..];
    } else {
      ModUnique(|rest|, H, 0, |rest|);
    }
  }

  lemma {:induction false} RoundsEnd(m: Machine, n: nat, armed: bool, w: World) returns (ts: seq<Turn>)
    requires |m.harts| > 0
    ensures Rounds(m, n, armed, w).m.trace == m.trace + ts
    ensures HaltsLast(ts) && (Rounds(m, n, armed, w).end == Early <==> Halted(ts))
    ensures Progresses(ts, |m.harts|) && (Rounds(m, n, armed, w).end == Idle <==> EndsIdle(ts, |m.harts|))
    ensures n > 0 ==> ts != []
    decreases n
  {
    hide Sweep, Retired, Progresses, EndsIdle, HaltsLast;
    if n == 0 {
      ts := [];
      assert m.trace + ts == m.trace;
      OneRound(ts, |m.harts|);
      NoneHalts();
    } else {
      var first := SweepEnds(m, 0, armed, w);
      var s := Sweep(m, 0, armed, w);
      ts := first;
      OneRound(first, |m.harts|);
      if !s.stop && s.ran != 0 && n > 1 {
        var rest := RoundsEnd(s.m, n - 1, armed, w);
        ts := first + rest;
        HaltsLastAppend(first, rest);
        MoreRounds(first, rest, |m.harts|);
        SameEnd(first, rest, |m.harts|);
        assert m.trace + ts == s.m.trace + rest;
      }
    }
  }

  lemma NoneHalts()
    ensures HaltsLast([])
  {}

  // Fairness

  /** A hart that is never skipped has stepped once per completed round, and once more if its turn has come. */
  lemma {:induction false} StepsOf(ts: seq<Turn>, h: nat, H: nat)
    requires h < H && InTurn(ts, 0, H) && Unstopped(ts) && NeverSkipped(ts, h)
    ensures Steps(ts, h) == |ts| / H + if h < |ts| % H then 1 else 0
    decreases |ts|
  {
    if ts == [] {
      ModUnique(0, H, 0, 0);
    } else {
      var k := |ts| - 1;
      var before := ts[..k];
      StepsOf(before, h, H);
      NextTurn(k, H);
      assert ts[k].hart == (0 + k) % H;
      assert ts[k] != Skipped(h) && !ts[k].Stopped?;
    }
  }

  /** A slice's turns, cut anywhere, have given any two never-skipped harts the same number of steps but one. */
  lemma Fair(ts: seq<Turn>, a: nat, b: nat, H: nat)
    requires a < H && b < H && InTurn(ts, 0, H)
    requires ts != [] ==> Unstopped(ts[..|ts| - 1])
    requires NeverSkipped(ts, a) && NeverSkipped(ts, b)
    ensures -1 <= Steps(ts, a) - Steps(ts, b) <= 1
  {
    if Unstopped(ts) {
      StepsOf(ts, a, H);
      StepsOf(ts, b, H);
    } else {
      var before := ts[..|ts| - 1];
      assert ts[|ts| - 1].Stopped?;
      StepsOf(before, a, H);
      StepsOf(before, b, H);
    }
  }

  /** The turns a slice takes. */
  ghost function SliceTurns(m: Machine, n: int, w: World): seq<Turn> {
    SliceGuest(m, n, w);
    Slice(m, n, w).m.trace[|m.trace|..]
  }

  lemma SliceTurnsRoundRobin(m: Machine, n: int, w: World) returns (ts: seq<Turn>)
    requires |m.harts| > 0
    ensures ts == SliceTurns(m, n, w) && InTurn(ts, 0, |m.harts|) && Slice(m, n, w).ran == Retired(ts)
    ensures |ts| <= (if n > 0 then n else 0) * |m.harts|
    ensures Slice(m, n, w).end == Full ==> Unstopped(ts) && |ts| == (if n > 0 then n else 0) * |m.harts|
    ensures ts != [] ==> Unstopped(ts[..|ts| - 1])
    ensures ArmedAs(ts, n != 1)
  {
    hide Rounds;
    ts := RoundsTurns(m.(stop := NoStop), if n > 0 then n else 0, n != 1, w);
    SliceGuest(m, n, w);
  }

  /** Fairness of runSlice, at every point of the slice. */
  lemma SliceFair(m: Machine, n: int, w: World, cut: nat, a: nat, b: nat)
    requires a < |m.harts| && b < |m.harts| && cut <= |SliceTurns(m, n, w)|
    requires NeverSkipped(SliceTurns(m, n, w)[..cut], a) && NeverSkipped(SliceTurns(m, n, w)[..cut], b)
    ensures -1 <= Steps(SliceTurns(m, n, w)[..cut], a) - Steps(SliceTurns(m, n, w)[..cut], b) <= 1
  {
    hide Slice, SliceTurns;
    var ts := SliceTurnsRoundRobin(m, n, w);
    var sofar := ts[..cut];
    if sofar != [] {
      assert sofar[..cut - 1] == ts[..|ts| - 1][..cut - 1];
    }
    Fair(sofar, a, b, |m.harts|);
  }

  /** A slice that is neither stopped nor idle gives every never-skipped hart exactly n steps. */
  lemma FullSliceSteps(m: Machine, n: nat, w: World, h: nat)
    requires h < |m.harts| && Slice(m, n, w).end == Full
    requires NeverSkipped(SliceTurns(m, n, w), h)
    ensures Steps(SliceTurns(m, n, w), h) == n
  {
    hide Slice, SliceTurns;
    var ts := SliceTurnsRoundRobin(m, n, w);
    StepsOf(ts, h, |m.harts|);
    ModUnique(n * |m.harts|, |m.harts|, n, 0);
  }

  /**
   A slice ends early exactly on a turn that stops it, is idle exactly when its last round is whole,
   unstopped and without a retired step, and otherwise takes all its rounds; every round before the
   last retired a step.
   */
  lemma SliceEnds(m: Machine, n: int, w: World)
    requires |m.harts| > 0
    ensures HaltsLast(SliceTurns(m, n, w)) && Progresses(SliceTurns(m, n, w), |m.harts|)
    ensures Slice(m, n, w).end == Early <==> Halted(SliceTurns(m, n, w))
    ensures Slice(m, n, w).end == Idle <==> EndsIdle(SliceTurns(m, n, w), |m.harts|)
    ensures n > 0 ==> SliceTurns(m, n, w) != []
  {
    hide Rounds, HaltsLast, Progresses, EndsIdle;
    var ts := RoundsEnd(m.(stop := NoStop), if n > 0 then n else 0, n != 1, w);
    SliceGuest(m, n, w);
    assert SliceTurns(m, n, w) == ts;
  }

  /** Whatever ended the slice is on record, and the machine stands still. */
  ghost predicate Announced(m: Machine) {
    && m.trace != [] && !m.running
    && match m.trace[|m.trace| - 1]
       case Skipped(_) => false
       case Stopped(h, pc, _) => pc in m.breakpoints && m.stop == BreakpointHit(h, pc, m.breakpoints[pc].hits)
       case Stepped(h, _, _, _, _, watched) => watched && m.stop == WatchpointHit(h)
  }

  lemma TakeTurnAnnounces(m: Machine, j: nat, armed: bool, w: World)
    requires j < |m.harts|
    ensures TakeTurn(m, j, armed, w).stop ==> Announced(TakeTurn(m, j, armed, w).m)
  {
    hide StepHart;
    var c := if armed then CheckBreakpoint(m, j) else CheckResult(m, false);
    StepHartGuest(c.m, j, armed, w);
  }

  lemma {:induction false} SweepAnnounces(m: Machine, j: nat, armed: bool, w: World)
    requires j <= |m.harts|
    ensures Sweep(m, j, armed, w).stop ==> Announced(Sweep(m, j, armed, w).m)
    decreases |m.harts| - j
  {
    hide TakeTurn, Announced;
    if j < |m.harts| {
      TakeTurnAnnounces(m, j, armed, w);
      if !TakeTurn(m, j, armed, w).stop {
        SweepAnnounces(TakeTurn(m, j, armed, w).m, j + 1, armed, w);
      }
    }
  }

  lemma {:induction false} RoundsAnnounce(m: Machine, n: nat, armed: bool, w: World)
    ensures Rounds(m, n, armed, w).end == Early ==> Announced(Rounds(m, n, armed, w).m)
    decreases n
  {
    hide Sweep, Announced;
    if n > 0 {
      SweepAnnounces(m, 0, armed, w);
      if !Sweep(m, 0, armed, w).stop && Sweep(m, 0, armed, w).ran != 0 {
        RoundsAnnounce(Sweep(m, 0, armed, w).m, n - 1, armed, w);
      }
    }
  }

  /** A slice that ends early leaves the machine stopped, with the reason; an earlier reason is forgotten. */
  lemma SliceStops(m: Machine, n: int, w: World, earlier: Stop)
    ensures Slice(m, n, w).end == Early ==> Announced(Slice(m, n, w).m)
    ensures Slice(m.(stop := earlier), n, w) == Slice(m, n, w)
  {
    hide Rounds, Announced;
    RoundsAnnounce(m.(stop := NoStop), if n > 0 then n else 0, n != 1, w);
    assert m.(stop := earlier).(stop := NoStop) == m.(stop := NoStop);
  }

  // What the drivers do, slice by slice

  /** One slice of a driver: where it began and how many steps had been run before. */
  datatype Leg = Leg(start: Machine, spent: nat)

  ghost function LegSlice(l: Leg, chunk: nat, budget: nat, w: World): SliceResult {
    Slice(l.start, if l.spent + chunk <= budget then chunk else if l.spent <= budget then budget - l.spent else 0, w)
  }

  /** Would the driver go on after this slice, as far as the slice itself is concerned? */
  ghost predicate Proceeds(s: SliceResult, timed: bool, w: World) {
    && s.ran > 0 && s.m.stop == NoStop
    && (forall i :: 0 <= i < |s.m.harts| ==> !s.m.harts[i].error)
    && (timed ==> s.m.running && !w.late(s.m.clock))
  }

  /** Would the driver begin a slice here?  The time-boxed driver wants the machine running. */
  ghost predicate Begins(m: Machine, spent: nat, budget: nat, timed: bool) {
    && spent < budget && (timed ==> m.running)
    && exists i :: 0 <= i < |m.harts| && !m.harts[i].halted
  }

  /** The machine as the driver leaves it or goes on with it: looking at the clock is an event of its own. */
  ghost predicate After(s: SliceResult, m: Machine) {
    m.(clock := s.m.clock) == s.m && s.m.clock <= m.clock <= s.m.clock + 1
  }

  ghost predicate Follows(a: Leg, b: Leg, budget: nat, chunk: nat, timed: bool, w: World) {
    var s := LegSlice(a, chunk, budget, w);
    Proceeds(s, timed, w) && After(s, b.start) && b.spent == a.spent + s.ran
  }

  /**
   The slices of a driver from m on, `spent` steps run before: each begins where it may, follows a
   slice that went well, and the last is the last for a reason.
   */
  ghost predicate Drives(m: Machine, spent: nat, legs: seq<Leg>, r: DriveResult, budget: nat, chunk: nat, timed: bool, w: World) {
    && (forall i :: 0 <= i < |legs| ==> Begins(legs[i].start, legs[i].spent, budget, timed))
    && (forall i :: 0 <= i < |legs| - 1 ==> Follows(legs[i], legs[i + 1], budget, chunk, timed, w))
    && if legs == [] then r == DriveResult(m, spent) && !Begins(m, spent, budget, timed) else
       var last := legs[|legs| - 1];
       var s := LegSlice(last, chunk, budget, w);
       && legs[0] == Leg(m, spent) && After(s, r.m) && r.ran == last.spent + s.ran
       && (Proceeds(s, timed, w) ==> !Begins(r.m, r.ran, budget, timed))
  }

  lemma DrivesOne(m: Machine, spent: nat, r: DriveResult, budget: nat, chunk: nat, timed: bool, w: World)
    requires Begins(m, spent, budget, timed)
    requires var s := LegSlice(Leg(m, spent), chunk, budget, w);
      !Proceeds(s, timed, w) && After(s, r.m) && r.ran == spent + s.ran
    ensures Drives(m, spent, [Leg(m, spent)], r, budget, chunk, timed, w)
  {
    hide Begins, Proceeds, After, LegSlice;
  }

  lemma DrivesMore(m: Machine, spent: nat, next: Machine, rest: seq<Leg>, r: DriveResult, budget: nat, chunk: nat, timed: bool, w: World)
    requires Begins(m, spent, budget, timed)
    requires var s := LegSlice(Leg(m, spent), chunk, budget, w);
      Proceeds(s, timed, w) && After(s, next) && Drives(next, spent + s.ran, rest, r, budget, chunk, timed, w)
    ensures Drives(m, spent, [Leg(m, spent)] + rest, r, budget, chunk, timed, w)
  {
    hide Begins, Proceeds, After, LegSlice;
    var legs := [Leg(m, spent)] + rest;
    forall i | 0 <= i < |legs| - 1 ensures Follows(legs[i], legs[i + 1], budget, chunk, timed, w) {
      if i > 0 {
        assert legs[i] == rest[i - 1] && legs[i + 1] == rest[i];
      }
    }
  }

  lemma {:induction false} TimeboxDrives(m: Machine, ran: nat, budget: nat, w: World) returns (legs: seq<Leg>)
    ensures Drives(m, ran, legs, Timebox(m, ran, budget, w), budget, 1024, true, w)
    decreases if ran <= budget then budget - ran else 0
  {
    hide Slice, Drives;
    if !m.running || !AnyAlive(m.harts) || ran >= budget {
      legs := [];
      DrivesNone(m, ran, budget, 1024, true, w);
    } else {
      var s := LegSlice(Leg(m, ran), 1024, budget, w);
      var next := s.m.(clock := s.m.clock + 1);
      if Proceeds(s, true, w) {
        var rest := TimeboxDrives(next, ran + s.ran, budget, w);
        legs := [Leg(m, ran)] + rest;
        DrivesMore(m, ran, next, rest, Timebox(m, ran, budget, w), budget, 1024, true, w);
      } else {
        legs := [Leg(m, ran)];
        DrivesOne(m, ran, Timebox(m, ran, budget, w), budget, 1024, true, w);
      }
    }
  }

  lemma DrivesNone(m: Machine, spent: nat, budget: nat, chunk: nat, timed: bool, w: World)
    requires !Begins(m, spent, budget, timed)
    ensures Drives(m, spent, [], DriveResult(m, spent), budget, chunk, timed, w)
  {}

  lemma {:induction false} SmokeDrives(m: Machine, ran: nat, steps: nat, w: World) returns (legs: seq<Leg>)
    ensures Drives(m, ran, legs, SmokeLoop(m, ran, steps, w), steps, 1000, false, w)
    decreases if ran <= steps then steps - ran else 0
  {
    hide Slice, Drives;
    if ran >= steps || !AnyAlive(m.harts) {
      legs := [];
      DrivesNone(m, ran, steps, 1000, false, w);
    } else {
      var s := LegSlice(Leg(m, ran), 1000, steps, w);
      if Proceeds(s, false, w) {
        var rest := SmokeDrives(s.m, ran + s.ran, steps, w);
        legs := [Leg(m, ran)] + rest;
        DrivesMore(m, ran, s.m, rest, SmokeLoop(m, ran, steps, w), steps, 1000, false, w);
      } else {
        legs := [Leg(m, ran)];
        DrivesOne(m, ran, SmokeLoop(m, ran, steps, w), steps, 1000, false, w);
      }
    }
  }

  /** The time-boxed driver: slices of 1024 steps, or what is left, for a budget of at least one. */
  lemma SliceTimeboxedDrives(m: Machine, maxSteps: int, w: World) returns (legs: seq<Leg>)
    ensures Drives(m, 0, legs, SliceTimeboxed(m, maxSteps, w), if maxSteps < 1 then 1 else maxSteps, 1024, true, w)
  {
    hide Drives;
    legs := TimeboxDrives(m, 0, if maxSteps < 1 then 1 else maxSteps, w);
  }

  // Step counts of slices and drivers

  lemma {:induction false} RetiredBound(ts: seq<Turn>)
    ensures Retired(ts) <= |ts|
  {
    if ts != [] {
      RetiredBound(ts[..|ts| - 1]);
    }
  }

  /** ran counts the retired steps, at most n per hart. */
  lemma SliceRan(m: Machine, n: int, w: World)
    requires |m.harts| > 0
    ensures Slice(m, n, w).ran == Retired(SliceTurns(m, n, w))
    ensures Slice(m, n, w).ran <= (if n > 0 then n else 0) * |m.harts|
  {
    hide Slice, SliceTurns;
    var ts := SliceTurnsRoundRobin(m, n, w);
    RetiredBound(ts);
  }

  lemma MulMonotone(a: nat, b: nat, d: nat)
    requires a <= b
    ensures a * d <= b * d
  {}

  /** A slice of c steps, begun below the target, ends at most c * (H - 1) above it. */
  lemma ChunkOvershoot(m: Machine, ran: nat, c: nat, limit: nat, target: nat, w: World)
    requires |m.harts| > 0 && c <= limit && ran + c <= target
    ensures ran + Slice(m, c, w).ran <= target + limit * (|m.harts| - 1)
  {
    hide Slice, SliceTurns;
    var H := |m.harts|;
    SliceRan(m, c, w);
    MulMonotone(c, limit, H - 1);
    assert c * H == c + c * (H - 1);
  }

  lemma TimeboxStep(m: Machine, ran: nat, maxSteps: nat, w: World)
    requires ran < maxSteps
    ensures var s := Slice(m, Min(MICRO_CHUNK, maxSteps - ran), w);
      var r := Timebox(m, ran, maxSteps, w);
      || r.ran == ran || r.ran == ran + s.ran
      || (s.ran > 0 && r == Timebox(s.m.(clock := s.m.clock + 1), ran + s.ran, maxSteps, w))
  {
    hide Slice, AnyAlive, Interrupted;
  }

  lemma {:induction false} TimeboxBound(m: Machine, ran: nat, maxSteps: nat, limit: nat, bound: nat, w: World)
    requires |m.harts| > 0 && bound == maxSteps + limit * (|m.harts| - 1)
    requires limit == MICRO_CHUNK || limit == maxSteps <= MICRO_CHUNK
    ensures Timebox(m, ran, maxSteps, w).ran <= if ran < maxSteps then bound else ran
    decreases if ran <= maxSteps then maxSteps - ran else 0
  {
    hide Slice, AnyAlive, Interrupted;
    if ran < maxSteps {
      hide Timebox;
      var chunk := Min(MICRO_CHUNK, maxSteps - ran);
      var s := Slice(m, chunk, w);
      ChunkOvershoot(m, ran, chunk, limit, maxSteps, w);
      TimeboxStep(m, ran, maxSteps, w);
      if s.ran > 0 {
        TimeboxBound(s.m.(clock := s.m.clock + 1), ran + s.ran, maxSteps, limit, bound, w);
      }
    }
  }

  /** runSliceTimeboxed may run past its budget, but by at most one chunk per further hart. */
  lemma SliceTimeboxedBound(m: Machine, maxSteps: int, w: World)
    requires |m.harts| > 0
    ensures var budget := if maxSteps <= 0 then 1 else maxSteps;
      SliceTimeboxed(m, maxSteps, w).ran <= budget + Min(MICRO_CHUNK, budget) * (|m.harts| - 1)
  {
    var budget := if maxSteps <= 0 then 1 else maxSteps;
    var limit := Min(MICRO_CHUNK, budget);
    TimeboxBound(m, 0, budget, limit, budget + limit * (|m.harts| - 1), w);
  }

  lemma {:induction false} SmokeLoopBound(m: Machine, ran: nat, steps: nat, bound: nat, w: World)
    requires |m.harts| > 0 && bound == steps + SMOKE_CHUNK * (|m.harts| - 1)
    ensures SmokeLoop(m, ran, steps, w).ran <= if ran < steps then bound else ran
    decreases if ran <= steps then steps - ran else 0
  {
    hide Slice, AnyAlive, Interrupted;
    if ran < steps && AnyAlive(m.harts) {
      var chunk := Min(SMOKE_CHUNK, steps - ran);
      var s := Slice(m, chunk, w);
      ChunkOvershoot(m, ran, chunk, SMOKE_CHUNK, steps, w);
      if s.ran != 0 {
        SmokeLoopBound(s.m, ran + s.ran, steps, bound, w);
      }
    }
  }

  lemma SmokeBound(m: Machine, steps: nat, w: World)
    requires |m.harts| > 0
    ensures SmokeLoop(m, 0, steps, w).ran <= steps + SMOKE_CHUNK * (|m.harts| - 1)
  {
    SmokeLoopBound(m, 0, steps, steps + SMOKE_CHUNK * (|m.harts| - 1), w);
  }

  // The overshoot is real

  /** Nothing in the machine or in the guest ever stops anything. */
  ghost predicate Quiet(m: Machine, w: World) {
    && m.breakpoints == map[] && m.running && m.stop == NoStop
    && (forall i :: 0 <= i < |m.harts| ==> !m.harts[i].halted && !m.harts[i].error)
    && (forall k: nat :: w.step(k) == Effect(true, [], false))
  }

  lemma {:induction false} QuietSweep(m: Machine, j: nat, armed: bool, w: World)
    requires j <= |m.harts| && Quiet(m, w)
    ensures var s := Sweep(m, j, armed, w); Quiet(s.m, w) && !s.stop && s.ran == |m.harts| - j
    decreases |m.harts| - j
  {
    if j < |m.harts| {
      assert w.step(m.clock) == Effect(true, [], false);
      QuietSweep(TakeTurn(m, j, armed, w).m, j + 1, armed, w);
    }
  }

  lemma {:induction false} QuietRounds(m: Machine, n: nat, armed: bool, w: World)
    requires |m.harts| > 0 && Quiet(m, w)
    ensures var r := Rounds(m, n, armed, w); Quiet(r.m, w) && r.ran == n * |m.harts|
    decreases n
  {
    hide Sweep, Quiet;
    if n > 0 {
      QuietSweep(m, 0, armed, w);
      QuietRounds(Sweep(m, 0, armed, w).m, n - 1, armed, w);
      MulSuccessor(n - 1, |m.harts|);
    }
  }

  /** A budget of one chunk is spent once the first slice has run that much. */
  lemma OneChunk(m: Machine, maxSteps: nat, w: World)
    requires m.running && AnyAlive(m.harts) && 0 < maxSteps <= MICRO_CHUNK
    requires maxSteps <= Slice(m, maxSteps, w).ran
    ensures SliceTimeboxed(m, maxSteps, w).ran == Slice(m, maxSteps, w).ran
  {
    hide Slice, AnyAlive, Interrupted;
    var s := Slice(m, maxSteps, w);
    assert Min(MICRO_CHUNK, maxSteps - 0) == maxSteps && 0 + s.ran == s.ran;
    assert Timebox(s.m.(clock := s.m.clock + 1), s.ran, maxSteps, w).ran == s.ran;
  }

  /** On a quiet machine a budget of one chunk or less is overrun by exactly the bound. */
  lemma OvershootAttained(m: Machine, maxSteps: nat, w: World)
    requires |m.harts| > 0 && Quiet(m, w) && 0 < maxSteps <= MICRO_CHUNK
    ensures SliceTimeboxed(m, maxSteps, w).ran == maxSteps + Min(MICRO_CHUNK, maxSteps) * (|m.harts| - 1)
  {
    hide Rounds, SliceTimeboxed;
    assert !m.harts[0].halted;
    assert m.(stop := NoStop) == m;
    QuietRounds(m, maxSteps, maxSteps != 1, w);
    assert maxSteps * |m.harts| == maxSteps + maxSteps * (|m.harts| - 1);
    OneChunk(m, maxSteps, w);
  }

  /** What a quiet machine of H harts runs for a budget spent in chunks of c: all of it, with the last slice whole. */
  function QuietTotal(budget: nat, c: nat, H: nat): nat
    requires c > 0 && H > 0
  {
    var rest := budget % (c * H);
    budget - rest + Min(rest, c) * H
  }

  lemma QuietSlice(m: Machine, n: nat, w: World)
    requires |m.harts| > 0 && Quiet(m, w)
    ensures var s := Slice(m, n, w); Quiet(s.m, w) && s.ran == n * |m.harts| && !Interrupted(s.m) && AnyAlive(s.m.harts)
  {
    hide Rounds;
    assert m.(stop := NoStop) == m;
    QuietRounds(m, n, n != 1, w);
    assert !Slice(m, n, w).m.harts[0].halted;
  }

  lemma ChunkLeft(left: nat, c: nat, H: nat)
    requires c > 0 && H > 0 && left > 0
    ensures QuietTotal(0, c, H) == 0
    ensures left >= c * H ==> QuietTotal(left, c, H) == c * H + QuietTotal(left - c * H, c, H)
    ensures left < c * H ==> QuietTotal(left, c, H) == Min(left, c) * H
  {
    var p := c * H;
    if left >= p {
      ModUnique(left, p, left / p, left % p);
      ModUnique(left - p, p, left / p - 1, left % p);
    } else {
      ModUnique(left, p, 0, left);
    }
  }

  /** Only a whole chunk can leave some of the budget. */
  lemma WholeChunk(left: nat, c: nat, H: nat)
    requires c > 0 && H > 0 && Min(left, c) * H < left
    ensures c * H < left && Min(left, c) == c
  {
    MulMonotone(1, H, left);
  }

  lemma {:induction false} QuietTimebox(m: Machine, ran: nat, budget: nat, w: World)
    requires |m.harts| > 0 && Quiet(m, w) && ran <= budget && forall k: nat :: !w.late(k)
    ensures Timebox(m, ran, budget, w).ran == ran + QuietTotal(budget - ran, MICRO_CHUNK, |m.harts|)
    decreases budget - ran
  {
    hide Slice, Interrupted, QuietTotal;
    assert !m.harts[0].halted;
    var chunk := Min(MICRO_CHUNK, budget - ran);
    var p := MICRO_CHUNK * |m.harts|;
    if ran < budget {
      ChunkLeft(budget - ran, MICRO_CHUNK, |m.harts|);
      QuietSlice(m, chunk, w);
      var next := Slice(m, chunk, w).m.(clock := Slice(m, chunk, w).m.clock + 1);
      if chunk * |m.harts| < budget - ran {
        WholeChunk(budget - ran, MICRO_CHUNK, |m.harts|);
        QuietTimebox(next, ran + p, budget, w);
      } else {
        assert Timebox(next, ran + chunk * |m.harts|, budget, w).ran == ran + chunk * |m.harts|;
      }
    } else {
      ChunkLeft(1, MICRO_CHUNK, |m.harts|);
    }
  }

  lemma {:induction false} QuietSmoke(m: Machine, ran: nat, steps: nat, w: World)
    requires |m.harts| > 0 && Quiet(m, w) && ran <= steps
    ensures SmokeLoop(m, ran, steps, w).ran == ran + QuietTotal(steps - ran, SMOKE_CHUNK, |m.harts|)
    decreases steps - ran
  {
    hide Slice, Interrupted, QuietTotal;
    assert !m.harts[0].halted;
    var chunk := Min(SMOKE_CHUNK, steps - ran);
    var p := SMOKE_CHUNK * |m.harts|;
    if ran < steps {
      ChunkLeft(steps - ran, SMOKE_CHUNK, |m.harts|);
      QuietSlice(m, chunk, w);
      if chunk * |m.harts| < steps - ran {
        WholeChunk(steps - ran, SMOKE_CHUNK, |m.harts|);
        QuietSmoke(Slice(m, chunk, w).m, ran + p, steps, w);
      } else {
        assert SmokeLoop(Slice(m, chunk, w).m, ran + chunk * |m.harts|, steps, w).ran == ran + chunk * |m.harts|;
      }
    } else {
      ChunkLeft(1, SMOKE_CHUNK, |m.harts|);
    }
  }

  /** The overshoot of both drivers on a quiet machine, for every budget. */
  lemma OvershootExact(m: Machine, budget: nat, w: World)
    requires |m.harts| > 0 && Quiet(m, w) && budget > 0
    ensures SmokeLoop(m, 0, budget, w).ran == QuietTotal(budget, SMOKE_CHUNK, |m.harts|)
    ensures (forall k: nat :: !w.late(k)) ==>
      SliceTimeboxed(m, budget, w).ran == QuietTotal(budget, MICRO_CHUNK, |m.harts|)
  {
    hide Timebox, SmokeLoop, QuietTotal;
    QuietSmoke(m, 0, budget, w);
    if forall k: nat :: !w.late(k) {
      QuietTimebox(m, 0, budget, w);
    }
  }

  /** Both bounds are met, for budgets as large as one likes, by one chunk more than whole rounds of chunks. */
  lemma BoundsAttained(m: Machine, k: nat, w: World)
    requires |m.harts| > 1 && Quiet(m, w)
    ensures var steps := SMOKE_CHUNK * |m.harts| * k + SMOKE_CHUNK;
      SmokeLoop(m, 0, steps, w).ran == steps + SMOKE_CHUNK * (|m.harts| - 1)
    ensures var budget := MICRO_CHUNK * |m.harts| * k + MICRO_CHUNK;
      (forall k: nat :: !w.late(k)) ==> SliceTimeboxed(m, budget, w).ran == budget + MICRO_CHUNK * (|m.harts| - 1)
  {
    hide SmokeLoop, SliceTimeboxed, Quiet, QuietTotal;
    QuietTotalMost(SMOKE_CHUNK, |m.harts|, k);
    QuietTotalMost(MICRO_CHUNK, |m.harts|, k);
    OvershootExact(m, SMOKE_CHUNK * |m.harts| * k + SMOKE_CHUNK, w);
    OvershootExact(m, MICRO_CHUNK * |m.harts| * k + MICRO_CHUNK, w);
  }

  lemma QuietTotalMost(c: nat, H: nat, k: nat)
    requires c > 0 && H > 1
    ensures QuietTotal(c * H * k + c, c, H) == c * H * k + c + c * (H - 1)
  {
    var p := c * H;
    assert c < p && p == c + c * (H - 1);
    ModUnique(p * k + c, p, k, c);
  }
}
