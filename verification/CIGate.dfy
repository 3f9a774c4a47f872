/** The CI quality gate (BuildCIGateReport in internal/analyze/ci_gate.go). */
module CIGate {
  import opened Text
  import opened Retention

  /** Negative maxima and non-positive minima are disabled. */
  datatype Policy = Policy(
    maxIntegrityErrors: int,
    maxIntegrityWarnings: int,
    maxVirtqueueAnomalies: int,
    maxSmokeFailures: int,
    minTraceLines: int,
    minConsoleLines: int,
    requireArtifacts: seq<string>,
    failOnTopCauseContains: seq<string>,
    warnOnMissingBaseline: bool,
    treatWarningsAsFailures: bool)

  datatype Evidence = Evidence(
    integrityErrors: int,
    integrityWarnings: int,
    virtqueueAnomalies: nat,
    smokeFailures: nat,
    traceLines: int,
    consoleLines: int,
    artifactRoles: seq<string>,
    topCause: string,
    missingBaseline: bool)

  datatype CheckName =
    | IntegrityErrors | IntegrityWarnings | VirtqueueAnomalies | SmokeFailures
    | TraceLines | ConsoleLines | Artifact(role: string) | TopStopCause(needle: string) | Baseline

  datatype Check = Check(name: CheckName, status: Status)

  datatype Report = Report(status: Status, exitCode: int, checks: seq<Check>)

  // The checks, each a list of what it adds

  function Threshold(name: CheckName, observed: int, max: int): Check {
    Check(name, if max >= 0 && observed > max then Fail else Pass)
  }

  function WarningCheck(ev: Evidence, p: Policy): Check {
    if p.maxIntegrityWarnings >= 0 && ev.integrityWarnings > p.maxIntegrityWarnings then
      Check(IntegrityWarnings, if p.treatWarningsAsFailures then Fail else Warn)
    else
      Threshold(IntegrityWarnings, ev.integrityWarnings, p.maxIntegrityWarnings)
  }

  function Minimum(name: CheckName, observed: int, min: int): seq<Check> {
    if min > 0 then [Check(name, if observed < min then Fail else Pass)] else []
  }

  predicate Present(ev: Evidence, role: string) {
    exists i :: 0 <= i < |ev.artifactRoles| && TrimSpace(ev.artifactRoles[i]) == role
  }

  function ArtifactCheck(ev: Evidence, role: string): seq<Check> {
    var r := TrimSpace(role);
    if r == "" then [] else [Check(Artifact(r), if Present(ev, r) then Pass else Fail)]
  }

  function ArtifactChecks(ev: Evidence, roles: seq<string>): seq<Check> {
    if roles == [] then [] else ArtifactChecks(ev, roles[..|roles| - 1]) + ArtifactCheck(ev, roles[|roles| - 1])
  }

  predicate CauseMatches(ev: Evidence, needle: string) {
    var n, top := ToLower(TrimSpace(needle)), ToLower(ev.topCause);
    n != "" && top != "" && Contains(top, n)
  }

  function CauseCheck(ev: Evidence, needle: string): seq<Check> {
    if CauseMatches(ev, needle) then [Check(TopStopCause(ToLower(TrimSpace(needle))), Fail)] else []
  }

  function CauseChecks(ev: Evidence, needles: seq<string>): seq<Check> {
    if needles == [] then [] else CauseChecks(ev, needles[..|needles| - 1]) + CauseCheck(ev, needles[|needles| - 1])
  }

  function BaselineCheck(ev: Evidence, p: Policy): seq<Check> {
    if p.warnOnMissingBaseline && ev.missingBaseline then [Check(Baseline, Warn)] else []
  }

  function CountChecks(ev: Evidence, p: Policy): seq<Check> {
    [Threshold(IntegrityErrors, ev.integrityErrors, p.maxIntegrityErrors),
     WarningCheck(ev, p),
     Threshold(VirtqueueAnomalies, ev.virtqueueAnomalies, p.maxVirtqueueAnomalies),
     Threshold(SmokeFailures, ev.smokeFailures, p.maxSmokeFailures)]
    + Minimum(TraceLines, ev.traceLines, p.minTraceLines)
    + Minimum(ConsoleLines, ev.consoleLines, p.minConsoleLines)
  }

  function Checks(ev: Evidence, p: Policy): seq<Check> {
    CountChecks(ev, p) + ArtifactChecks(ev, p.requireArtifacts) + CauseChecks(ev, p.failOnTopCauseContains) + BaselineCheck(ev, p)
  }

  predicate AnyStatus(checks: seq<Check>, s: Status) {
    exists i :: 0 <= i < |checks| && checks[i].status == s
  }

  /** What the gate's status should be, given its checks. */
  function Verdict(checks: seq<Check>, warningsFail: bool): Status {
    if AnyStatus(checks, Fail) then Fail
    else if AnyStatus(checks, Warn) then (if warningsFail then Fail else Warn)
    else Pass
  }

  // The builder

  datatype Draft = Draft(checks: seq<Check>, status: Status)

  /** The `add` closure. */
  function Add(d: Draft, c: Check): Draft {
    Draft(d.checks + [c], Worsen(d.status, c.status))
  }

  /** The draft's status is the worst of its checks. */
  ghost predicate Faithful(d: Draft) {
    d.status == Verdict(d.checks, false)
  }

  lemma AddFaithful(d: Draft, c: Check)
    requires Faithful(d)
    ensures Faithful(Add(d, c))
  {
    forall s: Status ensures AnyStatus(d.checks + [c], s) <==> AnyStatus(d.checks, s) || c.status == s {
      AnyAppend(d.checks, [c], s);
      AnyOne(c, s);
    }
  }

  lemma AnyOne(c: Check, s: Status)
    ensures AnyStatus([c], s) <==> c.status == s
  {
    assert [c][0] == c;
  }

  lemma AnyAppend(a: seq<Check>, b: seq<Check>, s: Status)
    ensures AnyStatus(a + b, s) <==> AnyStatus(a, s) || AnyStatus(b, s)
  {
    if AnyStatus(a, s) {
      var i :| 0 <= i < |a| && a[i].status == s;
      assert (a + b)[i] == a[i];
    }
    if AnyStatus(b, s) {
      var i :| 0 <= i < |b| && b[i].status == s;
      assert (a + b)[|a| + i] == b[i];
    }
  }

  method AddCheck(d: Draft, c: Check) returns (d': Draft)
    requires Faithful(d)
    ensures d'.checks == d.checks + [c] && Faithful(d')
  {
    AddFaithful(d, c);
    d' := Add(d, c);
  }

  /** The `threshold` closure. */
  method AddThreshold(d: Draft, name: CheckName, observed: int, max: int) returns (d': Draft)
    requires Faithful(d)
    ensures d'.checks == d.checks + [Threshold(name, observed, max)] && Faithful(d')
  {
    if max < 0 {
      d' := AddCheck(d, Check(name, Pass));
    } else if observed > max {
      d' := AddCheck(d, Check(name, Fail));
    } else {
      d' := AddCheck(d, Check(name, Pass));
    }
  }

  method AddCounts(ev: Evidence, p: Policy) returns (d: Draft)
    ensures d.checks == CountChecks(ev, p) && Faithful(d)
  {
    d := Draft([], Pass);
    assert Faithful(d);
    hide Faithful, Threshold, WarningCheck, Minimum;
    d := AddThreshold(d, IntegrityErrors, ev.integrityErrors, p.maxIntegrityErrors);
    d := AddWarnings(d, ev, p);
    d := AddThreshold(d, VirtqueueAnomalies, ev.virtqueueAnomalies, p.maxVirtqueueAnomalies);
    d := AddThreshold(d, SmokeFailures, ev.smokeFailures, p.maxSmokeFailures);
    d := AddMinimum(d, TraceLines, ev.traceLines, p.minTraceLines);
    d := AddMinimum(d, ConsoleLines, ev.consoleLines, p.minConsoleLines);
  }

  method AddWarnings(d: Draft, ev: Evidence, p: Policy) returns (d': Draft)
    requires Faithful(d)
    ensures d'.checks == d.checks + [WarningCheck(ev, p)] && Faithful(d')
  {
    if p.maxIntegrityWarnings >= 0 && ev.integrityWarnings > p.maxIntegrityWarnings {
      d' := AddCheck(d, Check(IntegrityWarnings, if p.treatWarningsAsFailures then Fail else Warn));
    } else {
      d' := AddThreshold(d, IntegrityWarnings, ev.integrityWarnings, p.maxIntegrityWarnings);
    }
  }

  method AddMinimum(d: Draft, name: CheckName, observed: int, min: int) returns (d': Draft)
    requires Faithful(d)
    ensures d'.checks == d.checks + Minimum(name, observed, min) && Faithful(d')
  {
    d' := d;
    if min > 0 {
      d' := AddCheck(d, Check(name, if observed < min then Fail else Pass));
    }
  }

  method AddArtifacts(d0: Draft, ev: Evidence, roles: seq<string>) returns (d: Draft)
    requires Faithful(d0)
    ensures d.checks == d0.checks + ArtifactChecks(ev, roles) && Faithful(d)
  {
    hide Faithful, TrimSpace;
    d := d0;
    var present: set<string> := {};
    for i := 0 to |ev.artifactRoles|
      invariant present == set k | 0 <= k < i :: TrimSpace(ev.artifactRoles[k])
    {
      present := present + {TrimSpace(ev.artifactRoles[i])};
    }
    for i := 0 to |roles|
      invariant d.checks == d0.checks + ArtifactChecks(ev, roles[..i]) && Faithful(d)
    {
      assert roles[..i + 1][..i] == roles[..i];
      var role := TrimSpace(roles[i]);
      if role != "" {
        d := AddCheck(d, Check(Artifact(role), if role in present then Pass else Fail));
      }
    }
    assert roles[..|roles|] == roles;
  }

  method AddCauses(d0: Draft, ev: Evidence, needles: seq<string>) returns (d: Draft)
    requires Faithful(d0)
    ensures d.checks == d0.checks + CauseChecks(ev, needles) && Faithful(d)
  {
    hide Faithful, TrimSpace, ToLower, Contains;
    d := d0;
    var top := ToLower(ev.topCause);
    for i := 0 to |needles|
      invariant d.checks == d0.checks + CauseChecks(ev, needles[..i]) && Faithful(d)
    {
      assert needles[..i + 1][..i] == needles[..i];
      var needle := ToLower(TrimSpace(needles[i]));
      if needle != "" && top != "" && Contains(top, needle) {
        d := AddCheck(d, Check(TopStopCause(needle), Fail));
      }
    }
    assert needles[..|needles|] == needles;
  }

  method BuildCIGateReport(ev: Evidence, p: Policy) returns (r: Report)
    ensures r.checks == Checks(ev, p)
    ensures r.status == Verdict(r.checks, p.treatWarningsAsFailures)
    ensures r.exitCode == if r.status == Fail then 1 else 0
  {
    hide CountChecks, ArtifactChecks, CauseChecks, AnyStatus;
    var d := AddCounts(ev, p);
    d := AddArtifacts(d, ev, p.requireArtifacts);
    d := AddCauses(d, ev, p.failOnTopCauseContains);
    if p.warnOnMissingBaseline && ev.missingBaseline {
      d := AddCheck(d, Check(Baseline, Warn));
    }
    if d.status == Fail {
      r := Report(Fail, 1, d.checks);
    } else if p.treatWarningsAsFailures && d.status == Warn {
      r := Report(Fail, 1, d.checks);
    } else {
      r := Report(d.status, 0, d.checks);
    }
  }

  // Stricter policies and worse evidence

  /** Does every non-blank entry of a occur in b, up to surrounding space and case? */
  ghost predicate Covers(a: seq<string>, b: seq<string>) {
    forall i :: 0 <= i < |a| ==> Listed(a[i], b)
  }

  ghost predicate Listed(s: string, b: seq<string>) {
    exists j :: 0 <= j < |b| && TrimSpace(b[j]) == TrimSpace(s)
  }

  ghost predicate Tighter(p: Policy, q: Policy) {
    && TighterMax(p.maxIntegrityErrors, q.maxIntegrityErrors)
    && TighterMax(p.maxIntegrityWarnings, q.maxIntegrityWarnings)
    && TighterMax(p.maxVirtqueueAnomalies, q.maxVirtqueueAnomalies)
    && TighterMax(p.maxSmokeFailures, q.maxSmokeFailures)
    && p.minTraceLines <= q.minTraceLines && p.minConsoleLines <= q.minConsoleLines
    && Covers(p.requireArtifacts, q.requireArtifacts)
    && Covers(p.failOnTopCauseContains, q.failOnTopCauseContains)
    && (p.warnOnMissingBaseline ==> q.warnOnMissingBaseline)
    && (p.treatWarningsAsFailures ==> q.treatWarningsAsFailures)
  }

  ghost predicate Worse(e: Evidence, f: Evidence) {
    && e.integrityErrors <= f.integrityErrors && e.integrityWarnings <= f.integrityWarnings
    && e.virtqueueAnomalies <= f.virtqueueAnomalies && e.smokeFailures <= f.smokeFailures
    && f.traceLines <= e.traceLines && f.consoleLines <= e.consoleLines
    && (forall role :: Present(f, role) ==> Present(e, role))
    && Contains(ToLower(f.topCause), ToLower(e.topCause))
    && (e.missingBaseline ==> f.missingBaseline)
  }

  lemma ContainsTransitive(a: string, b: string, c: string)
    requires Contains(a, b) && Contains(b, c)
    ensures Contains(a, c)
  {
    var i :| 0 <= i <= |a| && OccursAt(a, b, i);
    var j :| 0 <= j <= |b| && OccursAt(b, c, j);
    forall k | 0 <= k < |c| ensures a[i + j + k] == c[k] {
      assert a[i..i + |b|][j + k] == b[j + k];
      assert b[j..j + |c|][k] == c[k];
    }
    assert a[i + j..i + j + |c|] == c;
    assert OccursAt(a, c, i + j);
  }

  lemma {:induction false} ArtifactChecksMean(ev: Evidence, roles: seq<string>)
    ensures AnyStatus(ArtifactChecks(ev, roles), Fail)
      <==> exists i :: 0 <= i < |roles| && TrimSpace(roles[i]) != "" && !Present(ev, TrimSpace(roles[i]))
    ensures !AnyStatus(ArtifactChecks(ev, roles), Warn)
    decreases |roles|
  {
    hide Present, TrimSpace;
    if roles != [] {
      var n := |roles| - 1;
      ArtifactChecksMean(ev, roles[..n]);
      assert forall i :: 0 <= i < n ==> roles[..n][i] == roles[i];
      AnyAppend(ArtifactChecks(ev, roles[..n]), ArtifactCheck(ev, roles[n]), Fail);
      AnyAppend(ArtifactChecks(ev, roles[..n]), ArtifactCheck(ev, roles[n]), Warn);
      var one := ArtifactCheck(ev, roles[n]);
      assert one != [] ==> one[0].status != Warn;
      if AnyStatus(ArtifactChecks(ev, roles[..n]), Fail) {
        var i :| 0 <= i < n && TrimSpace(roles[..n][i]) != "" && !Present(ev, TrimSpace(roles[..n][i]));
        assert TrimSpace(roles[i]) != "" && !Present(ev, TrimSpace(roles[i]));
      }
      if TrimSpace(roles[n]) != "" && !Present(ev, TrimSpace(roles[n])) {
        assert one[0].status == Fail;
      }
    }
  }

  lemma {:induction false} CauseChecksMean(ev: Evidence, needles: seq<string>)
    ensures AnyStatus(CauseChecks(ev, needles), Fail) <==> exists i :: 0 <= i < |needles| && CauseMatches(ev, needles[i])
    ensures !AnyStatus(CauseChecks(ev, needles), Warn)
    decreases |needles|
  {
    hide CauseMatches, TrimSpace, ToLower;
    if needles != [] {
      var n := |needles| - 1;
      CauseChecksMean(ev, needles[..n]);
      assert forall i :: 0 <= i < n ==> needles[..n][i] == needles[i];
      AnyAppend(CauseChecks(ev, needles[..n]), CauseCheck(ev, needles[n]), Fail);
      AnyAppend(CauseChecks(ev, needles[..n]), CauseCheck(ev, needles[n]), Warn);
      var one := CauseCheck(ev, needles[n]);
      assert one != [] ==> one[0].status == Fail;
      if AnyStatus(CauseChecks(ev, needles[..n]), Fail) {
        var i :| 0 <= i < n && CauseMatches(ev, needles[..n][i]);
        assert CauseMatches(ev, needles[i]);
      }
    }
  }

  /** Never better: failures stay failures, and warnings stay at least warnings. */
  ghost predicate NoBetter(a: seq<Check>, b: seq<Check>) {
    && (AnyStatus(a, Fail) ==> AnyStatus(b, Fail))
    && (AnyStatus(a, Warn) ==> AnyStatus(b, Warn) || AnyStatus(b, Fail))
  }

  lemma NoBetterAppend(a: seq<Check>, a': seq<Check>, b: seq<Check>, b': seq<Check>)
    requires NoBetter(a, b) && NoBetter(a', b')
    ensures NoBetter(a + a', b + b')
  {
    hide AnyStatus;
    forall s: Status ensures AnyStatus(a + a', s) <==> AnyStatus(a, s) || AnyStatus(a', s) {
      AnyAppend(a, a', s);
    }
    forall s: Status ensures AnyStatus(b + b', s) <==> AnyStatus(b, s) || AnyStatus(b', s) {
      AnyAppend(b, b', s);
    }
  }

  lemma SingleNoBetter(c: Check, d: Check)
    requires Rank(c.status) <= Rank(d.status)
    ensures NoBetter([c], [d])
  {
    assert AnyStatus([d], d.status) by {
      assert [d][0].status == d.status;
    }
  }

  lemma CountsNoBetter(e: Evidence, f: Evidence, p: Policy, q: Policy)
    requires Tighter(p, q) && Worse(e, f)
    ensures NoBetter(CountChecks(e, p), CountChecks(f, q))
  {
    hide Covers, Present, Contains, ToLower, NoBetter;
    var a0, b0 := Threshold(IntegrityErrors, e.integrityErrors, p.maxIntegrityErrors), Threshold(IntegrityErrors, f.integrityErrors, q.maxIntegrityErrors);
    var a1, b1 := WarningCheck(e, p), WarningCheck(f, q);
    var a2, b2 := Threshold(VirtqueueAnomalies, e.virtqueueAnomalies, p.maxVirtqueueAnomalies),
      Threshold(VirtqueueAnomalies, f.virtqueueAnomalies, q.maxVirtqueueAnomalies);
    var a3, b3 := Threshold(SmokeFailures, e.smokeFailures, p.maxSmokeFailures), Threshold(SmokeFailures, f.smokeFailures, q.maxSmokeFailures);
    SingleNoBetter(a0, b0);
    SingleNoBetter(a1, b1);
    SingleNoBetter(a2, b2);
    SingleNoBetter(a3, b3);
    NoBetterAppend([a0], [a1], [b0], [b1]);
    NoBetterAppend([a0] + [a1], [a2], [b0] + [b1], [b2]);
    NoBetterAppend([a0] + [a1] + [a2], [a3], [b0] + [b1] + [b2], [b3]);
    assert [a0, a1, a2, a3] == [a0] + [a1] + [a2] + [a3] && [b0, b1, b2, b3] == [b0] + [b1] + [b2] + [b3];
    MinimumNoBetter(TraceLines, e.traceLines, f.traceLines, p.minTraceLines, q.minTraceLines);
    MinimumNoBetter(ConsoleLines, e.consoleLines, f.consoleLines, p.minConsoleLines, q.minConsoleLines);
    NoBetterAppend([a0, a1, a2, a3], Minimum(TraceLines, e.traceLines, p.minTraceLines),
      [b0, b1, b2, b3], Minimum(TraceLines, f.traceLines, q.minTraceLines));
    NoBetterAppend([a0, a1, a2, a3] + Minimum(TraceLines, e.traceLines, p.minTraceLines), Minimum(ConsoleLines, e.consoleLines, p.minConsoleLines),
      [b0, b1, b2, b3] + Minimum(TraceLines, f.traceLines, q.minTraceLines), Minimum(ConsoleLines, f.consoleLines, q.minConsoleLines));
  }

  lemma MinimumNoBetter(name: CheckName, observed: int, observed': int, min: int, min': int)
    requires observed' <= observed && min <= min'
    ensures NoBetter(Minimum(name, observed, min), Minimum(name, observed', min'))
  {
    var b := Minimum(name, observed', min');
    assert b != [] ==> AnyStatus(b, b[0].status);
  }

  lemma ArtifactsNoBetter(e: Evidence, f: Evidence, roles: seq<string>, roles': seq<string>)
    requires Worse(e, f) && Covers(roles, roles')
    ensures NoBetter(ArtifactChecks(e, roles), ArtifactChecks(f, roles'))
  {
    hide Present, TrimSpace, Contains, ToLower;
    ArtifactChecksMean(e, roles);
    ArtifactChecksMean(f, roles');
    if AnyStatus(ArtifactChecks(e, roles), Fail) {
      var i :| 0 <= i < |roles| && TrimSpace(roles[i]) != "" && !Present(e, TrimSpace(roles[i]));
      assert Listed(roles[i], roles');
    }
  }

  lemma CauseNoBetter(e: Evidence, f: Evidence, a: string, b: string)
    requires Worse(e, f) && TrimSpace(a) == TrimSpace(b) && CauseMatches(e, a)
    ensures CauseMatches(f, b)
  {
    hide Present, TrimSpace, ToLower;
    ContainsTransitive(ToLower(f.topCause), ToLower(e.topCause), ToLower(TrimSpace(a)));
  }

  lemma CausesNoBetter(e: Evidence, f: Evidence, needles: seq<string>, needles': seq<string>)
    requires Worse(e, f) && Covers(needles, needles')
    ensures NoBetter(CauseChecks(e, needles), CauseChecks(f, needles'))
  {
    hide CauseMatches, TrimSpace, ToLower, Worse;
    CauseChecksMean(e, needles);
    CauseChecksMean(f, needles');
    if AnyStatus(CauseChecks(e, needles), Fail) {
      var i :| 0 <= i < |needles| && CauseMatches(e, needles[i]);
      assert Listed(needles[i], needles');
      var j :| 0 <= j < |needles'| && TrimSpace(needles'[j]) == TrimSpace(needles[i]);
      CauseNoBetter(e, f, needles[i], needles'[j]);
    }
  }

  lemma BaselineNoBetter(e: Evidence, f: Evidence, p: Policy, q: Policy)
    requires Tighter(p, q) && Worse(e, f)
    ensures NoBetter(BaselineCheck(e, p), BaselineCheck(f, q))
  {
    hide Covers, Present, Contains, ToLower;
    if p.warnOnMissingBaseline && e.missingBaseline {
      assert BaselineCheck(f, q)[0].status == Warn;
    }
  }

  /** A stricter policy and worse evidence, together or apart, never get a better verdict. */
  lemma GateMonotone(e: Evidence, f: Evidence, p: Policy, q: Policy)
    requires Tighter(p, q) && Worse(e, f)
    ensures Rank(Verdict(Checks(e, p), p.treatWarningsAsFailures)) <= Rank(Verdict(Checks(f, q), q.treatWarningsAsFailures))
  {
    CountsNoBetter(e, f, p, q);
    ArtifactsNoBetter(e, f, p.requireArtifacts, q.requireArtifacts);
    CausesNoBetter(e, f, p.failOnTopCauseContains, q.failOnTopCauseContains);
    BaselineNoBetter(e, f, p, q);
    ChecksNoBetter(e, f, p, q);
    VerdictMonotone(Checks(e, p), Checks(f, q), p.treatWarningsAsFailures, q.treatWarningsAsFailures);
  }

  lemma ChecksNoBetter(e: Evidence, f: Evidence, p: Policy, q: Policy)
    requires NoBetter(CountChecks(e, p), CountChecks(f, q))
    requires NoBetter(ArtifactChecks(e, p.requireArtifacts), ArtifactChecks(f, q.requireArtifacts))
    requires NoBetter(CauseChecks(e, p.failOnTopCauseContains), CauseChecks(f, q.failOnTopCauseContains))
    requires NoBetter(BaselineCheck(e, p), BaselineCheck(f, q))
    ensures NoBetter(Checks(e, p), Checks(f, q))
  {
    hide NoBetter, CountChecks, ArtifactChecks, CauseChecks, BaselineCheck;
    var a0, a1, a2, a3 := CountChecks(e, p), ArtifactChecks(e, p.requireArtifacts), CauseChecks(e, p.failOnTopCauseContains), BaselineCheck(e, p);
    var b0, b1, b2, b3 := CountChecks(f, q), ArtifactChecks(f, q.requireArtifacts), CauseChecks(f, q.failOnTopCauseContains), BaselineCheck(f, q);
    NoBetterAppend(a0, a1, b0, b1);
    NoBetterAppend(a0 + a1, a2, b0 + b1, b2);
    NoBetterAppend(a0 + a1 + a2, a3, b0 + b1 + b2, b3);
  }

  lemma VerdictMonotone(a: seq<Check>, b: seq<Check>, w: bool, w': bool)
    requires NoBetter(a, b) && (w ==> w')
    ensures Rank(Verdict(a, w)) <= Rank(Verdict(b, w'))
  {
    hide AnyStatus;
  }

  lemma WorseReflexive(e: Evidence)
    ensures Worse(e, e)
  {
    assert OccursAt(ToLower(e.topCause), ToLower(e.topCause), 0);
  }

  lemma TighterReflexive(p: Policy)
    ensures Tighter(p, p)
  {
    hide TrimSpace;
    forall s, b | s in b ensures Listed(s, b) {
      var j :| 0 <= j < |b| && b[j] == s;
      assert TrimSpace(b[j]) == TrimSpace(s);
    }
  }

  /** With the same evidence, a stricter policy alone. */
  lemma PolicyMonotone(e: Evidence, p: Policy, q: Policy)
    requires Tighter(p, q)
    ensures Rank(Verdict(Checks(e, p), p.treatWarningsAsFailures)) <= Rank(Verdict(Checks(e, q), q.treatWarningsAsFailures))
  {
    hide *;
    WorseReflexive(e);
    GateMonotone(e, e, p, q);
  }

  /** Under one policy, worse evidence alone. */
  lemma EvidenceMonotone(e: Evidence, f: Evidence, p: Policy)
    requires Worse(e, f)
    ensures Rank(Verdict(Checks(e, p), p.treatWarningsAsFailures)) <= Rank(Verdict(Checks(f, p), p.treatWarningsAsFailures))
  {
    hide *;
    TighterReflexive(p);
    GateMonotone(e, f, p, p);
  }

  // The verdict in terms of evidence and policy

  predicate Above(observed: int, max: int) {
    0 <= max < observed
  }

  predicate Short(observed: int, min: int) {
    0 < min && observed < min
  }

  ghost predicate Lacks(ev: Evidence, roles: seq<string>) {
    exists role :: role in roles && TrimSpace(role) != "" && forall r :: r in ev.artifactRoles ==> TrimSpace(r) != TrimSpace(role)
  }

  /** Part of the top cause, in small letters, is some needle, in small letters and trimmed. */
  ghost predicate Named(ev: Evidence, needles: seq<string>) {
    exists needle :: needle in needles && PartOf(ToLower(TrimSpace(needle)), ToLower(ev.topCause))
  }

  ghost predicate PartOf(part: string, text: string) {
    exists i: nat, j: nat :: i < j <= |text| && text[i..j] == part
  }

  ghost predicate Blocks(ev: Evidence, p: Policy) {
    || Above(ev.integrityErrors, p.maxIntegrityErrors)
    || Above(ev.virtqueueAnomalies, p.maxVirtqueueAnomalies)
    || Above(ev.smokeFailures, p.maxSmokeFailures)
    || Short(ev.traceLines, p.minTraceLines) || Short(ev.consoleLines, p.minConsoleLines)
    || Lacks(ev, p.requireArtifacts) || Named(ev, p.failOnTopCauseContains)
  }

  ghost predicate Warns(ev: Evidence, p: Policy) {
    Above(ev.integrityWarnings, p.maxIntegrityWarnings) || (p.warnOnMissingBaseline && ev.missingBaseline)
  }

  lemma CountsMean(ev: Evidence, p: Policy)
    ensures AnyStatus(CountChecks(ev, p), Fail) <==>
      || Above(ev.integrityErrors, p.maxIntegrityErrors)
      || Above(ev.virtqueueAnomalies, p.maxVirtqueueAnomalies)
      || Above(ev.smokeFailures, p.maxSmokeFailures)
      || Short(ev.traceLines, p.minTraceLines) || Short(ev.consoleLines, p.minConsoleLines)
      || (Above(ev.integrityWarnings, p.maxIntegrityWarnings) && p.treatWarningsAsFailures)
    ensures AnyStatus(CountChecks(ev, p), Warn)
      <==> Above(ev.integrityWarnings, p.maxIntegrityWarnings) && !p.treatWarningsAsFailures
  {
    var a := Threshold(IntegrityErrors, ev.integrityErrors, p.maxIntegrityErrors);
    var b := WarningCheck(ev, p);
    var c := Threshold(VirtqueueAnomalies, ev.virtqueueAnomalies, p.maxVirtqueueAnomalies);
    var d := Threshold(SmokeFailures, ev.smokeFailures, p.maxSmokeFailures);
    var e := Minimum(TraceLines, ev.traceLines, p.minTraceLines);
    var f := Minimum(ConsoleLines, ev.consoleLines, p.minConsoleLines);
    forall s: Status
      ensures AnyStatus(CountChecks(ev, p), s) <==>
        a.status == s || b.status == s || c.status == s || d.status == s || AnyStatus(e, s) || AnyStatus(f, s)
    {
      FourChecks(a, b, c, d, s);
      AnyAppend([a, b, c, d], e, s);
      AnyAppend([a, b, c, d] + e, f, s);
    }
    MinimumMeans(TraceLines, ev.traceLines, p.minTraceLines);
    MinimumMeans(ConsoleLines, ev.consoleLines, p.minConsoleLines);
  }

  lemma FourChecks(a: Check, b: Check, c: Check, d: Check, s: Status)
    ensures AnyStatus([a, b, c, d], s) <==> a.status == s || b.status == s || c.status == s || d.status == s
  {
    var all := [a, b, c, d];
    assert all[0] == a && all[1] == b && all[2] == c && all[3] == d;
  }

  lemma MinimumMeans(name: CheckName, observed: int, min: int)
    ensures AnyStatus(Minimum(name, observed, min), Fail) <==> Short(observed, min)
    ensures !AnyStatus(Minimum(name, observed, min), Warn)
  {
    if min > 0 {
      AnyOne(Check(name, if observed < min then Fail else Pass), Fail);
      AnyOne(Check(name, if observed < min then Fail else Pass), Warn);
    }
  }

  lemma LacksIff(ev: Evidence, roles: seq<string>)
    ensures AnyStatus(ArtifactChecks(ev, roles), Fail) <==> Lacks(ev, roles)
  {
    hide ArtifactChecks, TrimSpace;
    ArtifactChecksMean(ev, roles);
    forall role ensures Present(ev, TrimSpace(role)) <==> !(forall r :: r in ev.artifactRoles ==> TrimSpace(r) != TrimSpace(role)) {
      if r :| r in ev.artifactRoles && TrimSpace(r) == TrimSpace(role) {
        var k :| 0 <= k < |ev.artifactRoles| && ev.artifactRoles[k] == r;
        assert TrimSpace(ev.artifactRoles[k]) == TrimSpace(role);
      }
    }
    if i :| 0 <= i < |roles| && TrimSpace(roles[i]) != "" && !Present(ev, TrimSpace(roles[i])) {
      assert roles[i] in roles;
    }
  }

  lemma NamedIff(ev: Evidence, needles: seq<string>)
    ensures AnyStatus(CauseChecks(ev, needles), Fail) <==> Named(ev, needles)
  {
    hide CauseChecks, CauseMatches, PartOf, ToLower, TrimSpace;
    CauseChecksMean(ev, needles);
    if i :| 0 <= i < |needles| && CauseMatches(ev, needles[i]) {
      CauseNamed(ev, needles[i]);
      assert needles[i] in needles;
    }
    if needle :| needle in needles && PartOf(ToLower(TrimSpace(needle)), ToLower(ev.topCause)) {
      CauseNamed(ev, needle);
    }
  }

  lemma CauseNamed(ev: Evidence, needle: string)
    ensures CauseMatches(ev, needle) <==> PartOf(ToLower(TrimSpace(needle)), ToLower(ev.topCause))
  {
    hide TrimSpace, ToLower;
    var n, top := ToLower(TrimSpace(needle)), ToLower(ev.topCause);
    if CauseMatches(ev, needle) {
      var i :| 0 <= i <= |top| && OccursAt(top, n, i);
      assert top[i..i + |n|] == n;
    }
    if i: nat, j: nat :| i < j <= |top| && top[i..j] == n {
      assert OccursAt(top, n, i);
    }
  }

  /** When the gate fails and when it passes, check by check and to the very limits. */
  lemma VerdictMeans(ev: Evidence, p: Policy)
    ensures Verdict(Checks(ev, p), p.treatWarningsAsFailures) == Fail
      <==> Blocks(ev, p) || (p.treatWarningsAsFailures && Warns(ev, p))
    ensures Verdict(Checks(ev, p), p.treatWarningsAsFailures) == Pass <==> !Blocks(ev, p) && !Warns(ev, p)
  {
    CountsMean(ev, p);
    LacksIff(ev, p.requireArtifacts);
    NamedIff(ev, p.failOnTopCauseContains);
    ArtifactChecksMean(ev, p.requireArtifacts);
    CauseChecksMean(ev, p.failOnTopCauseContains);
    hide CountChecks, ArtifactChecks, CauseChecks, Lacks, Named, Present, CauseMatches, TrimSpace;
    var a, b, c := CountChecks(ev, p), ArtifactChecks(ev, p.requireArtifacts), CauseChecks(ev, p.failOnTopCauseContains);
    forall s: Status
      ensures AnyStatus(Checks(ev, p), s) <==>
        AnyStatus(a, s) || AnyStatus(b, s) || AnyStatus(c, s) || AnyStatus(BaselineCheck(ev, p), s)
    {
      AnyAppend(a, b, s);
      AnyAppend(a + b, c, s);
      AnyAppend(a + b + c, BaselineCheck(ev, p), s);
    }
    AnyOne(Check(Baseline, Warn), Warn);
    AnyOne(Check(Baseline, Warn), Fail);
  }
}
