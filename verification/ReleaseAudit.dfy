/** The release audit: score, gate and their combination (internal/analyze/ci_audit_ext7.go). */
module ReleaseAudit {
  import opened Text
  import opened Retention

  datatype Attestation = Attestation(status: string, missing: seq<string>, mismatch: seq<string>, warnings: seq<string>)

  datatype SbomDiff = SbomDiff(status: string, issues: seq<string>, added: seq<string>, changed: seq<string>, kindChanges: seq<string>)

  datatype ZipComparison = ZipComparison(status: string, issues: seq<string>, missing: seq<string>, changed: seq<string>, extra: seq<string>)

  /** What the audit is about, besides the retention manifest. */
  datatype Evidence = Evidence(
    releaseStatus: string,
    topStopCause: string,
    attestation: Attestation,
    sbom: SbomDiff,
    zip: ZipComparison,
    flakeStatus: string,
    flakes: int)

  /** Negative maxima mean "no limit". */
  datatype Policy = Policy(
    requireReleasePass: bool,
    failOnAttestationFail: bool,
    failOnSbomFail: bool,
    failOnReleaseZipFail: bool,
    failOnRetentionExpired: bool,
    maxAttestationWarnings: int,
    maxSbomWarnings: int,
    maxReleaseZipExtras: int,
    maxRetentionWarnings: int,
    minArtifactRetentionDays: int,
    expiringSoonDays: int,
    failOnStatuses: seq<string>)

  // Texts

  function Digits(n: nat): string {
    if n < 10 then [('0' as int + n) as char] else Digits(n / 10) + [('0' as int + n % 10) as char]
  }

  function Itoa(n: int): string {
    if n < 0 then "-" + Digits(-n) else Digits(n)
  }

  function ValueOf(digits: string): int {
    if digits == "" then 0 else 10 * ValueOf(digits[..|digits| - 1]) + (digits[|digits| - 1] as int - '0' as int)
  }

  /** The decimal digits of a number, without leading zeros. */
  lemma {:induction false} DigitsMean(n: nat)
    ensures Digits(n) != "" && ValueOf(Digits(n)) == n && (n > 0 ==> Digits(n)[0] != '0')
    ensures forall i :: 0 <= i < |Digits(n)| ==> '0' <= Digits(n)[i] <= '9'
    decreases n
  {
    if n >= 10 {
      DigitsMean(n / 10);
    } else {
      assert Digits(n)[..0] == "";
    }
  }

  function Join(parts: seq<string>): string {
    if parts == [] then "" else if |parts| == 1 then parts[0] else parts[0] + "; " + Join(parts[1..])
  }

  function StatusText(s: Status): string {
    match s
    case Pass => "pass"
    case Warn => "warn"
    case Fail => "fail"
  }

  // Score

  datatype Component = Component(name: string, status: string, weight: nat, points: nat, detail: string)

  datatype Score = Score(status: Status, score: int, components: seq<Component>)

  function Points(status: string, weight: nat): (p: nat)
    ensures p <= weight
  {
    var s := ToLower(status);
    if s == "fail" || s == "error" then 0
    else if s == "warn" || s == "empty" then weight / 2
    else weight
  }

  function MakeComponent(name: string, status: string, weight: nat, detail: string): Component {
    Component(name, FirstNonEmpty(status, "empty"), weight, Points(status, weight), detail)
  }

  function AttestationDetail(ev: Evidence): string {
    Join(ev.attestation.missing + ev.attestation.mismatch)
  }

  function SbomDetail(ev: Evidence): string {
    Join(ev.sbom.added + ev.sbom.changed)
  }

  function ZipDetail(ev: Evidence): string {
    "missing=" + Itoa(|ev.zip.missing|) + " changed=" + Itoa(|ev.zip.changed|) + " extra=" + Itoa(|ev.zip.extra|)
  }

  function RetentionDetail(a: Audit): string {
    "expired=" + Itoa(a.expired) + " expiring=" + Itoa(a.expiringSoon) + " below_min=" + Itoa(a.belowMinimum)
  }

  function FlakesDetail(ev: Evidence): string {
    "flakes=" + Itoa(ev.flakes)
  }

  function PartComponents(ev: Evidence): seq<Component> {
    [MakeComponent("release", ev.releaseStatus, 25, ev.topStopCause)]
    + [MakeComponent("attestation", ev.attestation.status, 20, AttestationDetail(ev))]
    + [MakeComponent("sbom", ev.sbom.status, 15, SbomDetail(ev))]
  }

  function AuditComponents(ev: Evidence, a: Audit): seq<Component> {
    [MakeComponent("release_zip", ev.zip.status, 15, ZipDetail(ev))]
    + [MakeComponent("retention", StatusText(a.status), 15, RetentionDetail(a))]
    + [MakeComponent("matrix_flakes", ev.flakeStatus, 10, FlakesDetail(ev))]
  }

  function Components(ev: Evidence, a: Audit): seq<Component> {
    PartComponents(ev) + AuditComponents(ev, a)
  }

  function TotalPoints(cs: seq<Component>): nat {
    if cs == [] then 0 else TotalPoints(cs[..|cs| - 1]) + cs[|cs| - 1].points
  }

  function TotalWeight(cs: seq<Component>): nat {
    if cs == [] then 0 else TotalWeight(cs[..|cs| - 1]) + cs[|cs| - 1].weight
  }

  /** Does the summary mention any component? */
  predicate Degraded(cs: seq<Component>) {
    exists i :: 0 <= i < |cs| && cs[i].points < cs[i].weight
  }

  /** int(float64(points) / float64(weight) * 100 + 0.5), over the reals. */
  function Rescale(points: nat, weight: nat): int
    requires weight > 0
  {
    (points as real / weight as real * 100.0 + 0.5).Floor
  }

  function ScoreStatus(score: int, degraded: bool): Status {
    if score < 60 then Fail else if score < 85 || degraded then Warn else Pass
  }

  function ScoreOf(ev: Evidence, a: Audit): Score {
    ScoreOfComponents(Components(ev, a))
  }

  function ScoreOfComponents(cs: seq<Component>): Score {
    var score := if TotalWeight(cs) > 0 then Rescale(TotalPoints(cs), TotalWeight(cs)) else TotalPoints(cs);
    Score(ScoreStatus(score, Degraded(cs)), score, cs)
  }

  // Gate

  datatype Check = Check(name: string, status: Status, observed: string, detail: string)

  datatype Gate = Gate(status: Status, exitCode: int, checks: seq<Check>)

  predicate Gated(p: Policy, status: string) {
    exists i :: 0 <= i < |p.failOnStatuses| && ToLower(TrimSpace(p.failOnStatuses[i])) == ToLower(status)
  }

  /** The loop that collects the gated statuses. */
  method StatusSet(p: Policy, status: string) returns (gated: bool)
    ensures gated == Gated(p, status)
  {
    var statuses: set<string> := {};
    for i := 0 to |p.failOnStatuses|
      invariant statuses == set k | 0 <= k < i :: ToLower(TrimSpace(p.failOnStatuses[k]))
    {
      statuses := statuses + {ToLower(TrimSpace(p.failOnStatuses[i]))};
    }
    gated := ToLower(status) in statuses;
  }

  function ReleaseCheck(ev: Evidence, p: Policy): Check {
    if p.requireReleasePass && !EqualFold(ev.releaseStatus, "pass") then
      Check("release-status", Fail, ev.releaseStatus, "release manifest status must be pass")
    else if Gated(p, ev.releaseStatus) then
      Check("release-status", Fail, ev.releaseStatus, "release status is gated")
    else
      Check("release-status", Pass, FirstNonEmpty(ev.releaseStatus, "empty"), "")
  }

  function PartCheck(name: string, failOnFail: bool, status: string, failDetail: string, warnDetail: string): Check {
    if failOnFail && status == "fail" then Check(name, Fail, status, failDetail)
    else if status == "warn" then Check(name, Warn, status, warnDetail)
    else Check(name, Pass, FirstNonEmpty(status, "empty"), "")
  }

  function LimitCheck(name: string, max: int, observed: nat, detail: string): seq<Check> {
    if max < 0 then []
    else if observed > max then [Check(name, Fail, Itoa(observed), detail)]
    else [Check(name, Pass, Itoa(observed), "")]
  }

  function ExpiryCheck(a: Audit, p: Policy): Check {
    if p.failOnRetentionExpired && a.expired != 0 then
      Check("retention-expired", Fail, Itoa(a.expired), "retention manifest contains expired artifacts")
    else if a.expiringSoon != 0 then
      Check("retention-expiring-soon", Warn, Itoa(a.expiringSoon), "artifacts expire soon")
    else
      Check("retention-expiry", Pass, "0", "")
  }

  function MinimumCheck(a: Audit, p: Policy): Check {
    if p.minArtifactRetentionDays > 0 && a.belowMinimum != 0 then
      Check("retention-min-days", Fail, Itoa(a.belowMinimum), "artifacts do not meet minimum retention")
    else
      Check("retention-min-days", Pass, Itoa(a.belowMinimum), "")
  }

  function ScoreCheck(score: Score): Check {
    Check("release-score", score.status, Itoa(score.score),
      match score.status
      case Fail => "overall verification score failed"
      case Warn => "overall verification score is degraded"
      case Pass => "")
  }

  function SbomWarnings(ev: Evidence): nat {
    |ev.sbom.issues| + |ev.sbom.added| + |ev.sbom.changed| + |ev.sbom.kindChanges|
  }

  /** The checks in the order in which the gate adds them, in three groups. */
  function MetadataChecks(ev: Evidence, p: Policy): seq<Check> {
    [ReleaseCheck(ev, p)]
    + [PartCheck("attestation", p.failOnAttestationFail, ev.attestation.status,
        "provenance attestation verification failed", "attestation verification warnings present")]
    + LimitCheck("attestation-warnings", p.maxAttestationWarnings, |ev.attestation.warnings|, "too many attestation warnings")
    + [PartCheck("sbom-diff", p.failOnSbomFail, ev.sbom.status,
        "dependency inventory diff failed", "dependency inventory drift detected")]
    + LimitCheck("sbom-warning-count", p.maxSbomWarnings, SbomWarnings(ev), "too many SBOM diff warnings")
  }

  function ZipChecks(ev: Evidence, p: Policy): seq<Check> {
    [PartCheck("release-zip-compare", p.failOnReleaseZipFail, ev.zip.status,
      "release handoff ZIP comparison failed", "release handoff ZIP drift detected")]
    + LimitCheck("release-zip-extra-files", p.maxReleaseZipExtras, |ev.zip.extra|, "too many extra files in release handoff ZIP")
  }

  function RetentionChecks(a: Audit, score: Score, p: Policy): seq<Check> {
    [ExpiryCheck(a, p)]
    + LimitCheck("retention-warnings", p.maxRetentionWarnings, |a.warnings|, "too many retention warnings")
    + [MinimumCheck(a, p)]
    + [ScoreCheck(score)]
  }

  function GateChecks(ev: Evidence, a: Audit, score: Score, p: Policy): seq<Check> {
    MetadataChecks(ev, p) + ZipChecks(ev, p) + RetentionChecks(a, score, p)
  }

  /** The gate's status as it takes in its checks one by one. */
  function WorstCheck(checks: seq<Check>): Status {
    if checks == [] then Pass else Worsen(WorstCheck(checks[..|checks| - 1]), checks[|checks| - 1].status)
  }

  function GateOf(ev: Evidence, a: Audit, score: Score, p: Policy): Gate {
    var checks := GateChecks(ev, a, score, p);
    var status := WorstCheck(checks);
    Gate(status, if status == Fail then 1 else 0, checks)
  }

  // The whole audit

  datatype Report = Report(status: Status, score: Score, gate: Gate, retention: Audit, evidence: Evidence)

  function AuditReport(ev: Evidence, ret: Manifest, p: Policy, now: int): Report {
    var a := AuditOf(ret, now, p.minArtifactRetentionDays, p.expiringSoonDays);
    var score := ScoreOf(ev, a);
    var gate := GateOf(ev, a, score, p);
    Report(if gate.status == Pass then score.status else gate.status, score, gate, a, ev)
  }

  // Worst statuses

  function Max(a: nat, b: nat): nat {
    if a >= b then a else b
  }

  lemma {:induction false} WorstAppend(a: seq<Check>, b: seq<Check>)
    ensures Rank(WorstCheck(a + b)) == Max(Rank(WorstCheck(a)), Rank(WorstCheck(b)))
    decreases |b|
  {
    if b == [] {
      assert a + b == a;
    } else {
      WorstAppend(a, b[..|b| - 1]);
      assert (a + b)[..|a + b| - 1] == a + b[..|b| - 1];
    }
  }

  lemma WorstOfOne(c: Check)
    ensures WorstCheck([c]) == c.status
  {}

  /** The gate fails exactly when some check fails, and warns when none fails but some warns. */
  lemma {:induction false} WorstCheckMeans(checks: seq<Check>)
    ensures WorstCheck(checks) == Fail <==> exists i :: 0 <= i < |checks| && checks[i].status == Fail
    ensures WorstCheck(checks) == Pass <==> forall i :: 0 <= i < |checks| ==> checks[i].status == Pass
    decreases |checks|
  {
    if checks != [] {
      var n := |checks| - 1;
      WorstCheckMeans(checks[..n]);
      assert forall i :: 0 <= i < n ==> checks[..n][i] == checks[i];
      if WorstCheck(checks) == Fail && checks[n].status != Fail {
        var i :| 0 <= i < n && checks[..n][i].status == Fail;
        assert checks[i].status == Fail;
      }
    }
  }

  // The score

  lemma WeightsAddUp(ev: Evidence, a: Audit)
    ensures TotalWeight(Components(ev, a)) == 100
    ensures TotalPoints(Components(ev, a))
      == Points(ev.releaseStatus, 25) + Points(ev.attestation.status, 20) + Points(ev.sbom.status, 15)
      + Points(ev.zip.status, 15) + Points(StatusText(a.status), 15) + Points(ev.flakeStatus, 10)
  {
    hide Itoa, Join, Points, StatusText, FirstNonEmpty;
    var cs := Components(ev, a);
    assert cs[..5][..4] == cs[..4] && cs[..4][..3] == cs[..3] && cs[..3][..2] == cs[..2] && cs[..2][..1] == cs[..1];
    assert cs[..1][..0] == [];
    assert TotalWeight(cs[..1]) == 25 && TotalPoints(cs[..1]) == cs[0].points;
    assert TotalWeight(cs[..2]) == 45 && TotalPoints(cs[..2]) == TotalPoints(cs[..1]) + cs[1].points;
    assert TotalWeight(cs[..3]) == 60 && TotalPoints(cs[..3]) == TotalPoints(cs[..2]) + cs[2].points;
    assert TotalWeight(cs[..4]) == 75 && TotalPoints(cs[..4]) == TotalPoints(cs[..3]) + cs[3].points;
    assert TotalWeight(cs[..5]) == 90 && TotalPoints(cs[..5]) == TotalPoints(cs[..4]) + cs[4].points;
  }

  lemma {:induction false} PointsWithinWeight(cs: seq<Component>)
    requires forall i :: 0 <= i < |cs| ==> cs[i].points <= cs[i].weight
    ensures TotalPoints(cs) <= TotalWeight(cs)
    ensures Degraded(cs) <==> TotalPoints(cs) < TotalWeight(cs)
    decreases |cs|
  {
    if cs != [] {
      var n := |cs| - 1;
      PointsWithinWeight(cs[..n]);
      assert forall i :: 0 <= i < n ==> cs[..n][i] == cs[i];
      if Degraded(cs) && cs[n].points == cs[n].weight {
        var i :| 0 <= i < |cs| && cs[i].points < cs[i].weight;
        assert cs[..n][i].points < cs[..n][i].weight;
      }
    }
  }

  /** Out of a weight of 100, rescaling and rounding changes nothing. */
  lemma RescaleHundred(points: nat)
    ensures Rescale(points, 100) == points
  {}

  lemma ComponentPoints(ev: Evidence, a: Audit)
    ensures forall i :: 0 <= i < |Components(ev, a)| ==> Components(ev, a)[i].points <= Components(ev, a)[i].weight
  {
    hide Itoa, Join, StatusText, FirstNonEmpty;
  }

  /** The score is the sum of the points, and passes exactly when it is perfect. */
  lemma ScorePassesIff(ev: Evidence, a: Audit)
    ensures ScoreOf(ev, a).score == TotalPoints(Components(ev, a)) <= 100
    ensures ScoreOf(ev, a).status == Pass <==> ScoreOf(ev, a).score == 100
    ensures ScoreOf(ev, a).status == Fail <==> ScoreOf(ev, a).score < 60
  {
    hide Components, Degraded;
    WeightsAddUp(ev, a);
    ComponentPoints(ev, a);
    PointsWithinWeight(Components(ev, a));
    RescaleHundred(TotalPoints(Components(ev, a)));
  }

  /** The points a part loses. */
  function Lost(status: string, weight: nat): (lost: nat)
    ensures lost <= weight
  {
    if ToLower(status) in {"fail", "error"} then weight
    else if ToLower(status) in {"warn", "empty"} then weight - weight / 2
    else 0
  }

  function LostTo(s: Status): nat {
    match s
    case Pass => 0
    case Warn => 8
    case Fail => 15
  }

  predicate Spotless(status: string) {
    ToLower(status) !in {"fail", "error", "warn", "empty"}
  }

  /** The score is 100 less what each part loses; it is 100 exactly when no part is at fault. */
  lemma ScoreIs(ev: Evidence, a: Audit)
    ensures ScoreOf(ev, a).score == 100
      - Lost(ev.releaseStatus, 25) - Lost(ev.attestation.status, 20) - Lost(ev.sbom.status, 15)
      - Lost(ev.zip.status, 15) - LostTo(a.status) - Lost(ev.flakeStatus, 10)
    ensures ScoreOf(ev, a).score == 100 <==>
      && Spotless(ev.releaseStatus) && Spotless(ev.attestation.status) && Spotless(ev.sbom.status)
      && Spotless(ev.zip.status) && a.status == Pass && Spotless(ev.flakeStatus)
    ensures ScoreOf(ev, a).status == match ScoreOf(ev, a).score
      case 100 => Pass
      case s => if s < 60 then Fail else Warn
  {
    ScorePassesIff(ev, a);
    WeightsAddUp(ev, a);
    PointsLost(ev.releaseStatus, 25);
    PointsLost(ev.attestation.status, 20);
    PointsLost(ev.sbom.status, 15);
    PointsLost(ev.zip.status, 15);
    StatusPoints(a.status, 15);
    PointsLost(ev.flakeStatus, 10);
    hide Points, Lost, Components, ScoreOf, ToLower, StatusText;
  }

  lemma PointsLost(status: string, weight: nat)
    ensures Points(status, weight) == weight - Lost(status, weight)
    ensures weight > 1 ==> (Lost(status, weight) == 0 <==> Spotless(status))
  {
    hide ToLower;
  }

  lemma ComponentsAre(ev: Evidence, a: Audit)
    ensures var cs := Components(ev, a);
      && |cs| == 6
      && (forall i :: 0 <= i < 6 ==> cs[i].name == ["release", "attestation", "sbom", "release_zip", "retention", "matrix_flakes"][i])
      && (forall i :: 0 <= i < 6 ==> cs[i].weight == [25, 20, 15, 15, 15, 10][i])
  {
    hide Points, FirstNonEmpty, AttestationDetail, SbomDetail, ZipDetail, RetentionDetail, FlakesDetail;
    PartsAre(ev);
    AuditPartsAre(ev, a);
    hide PartComponents, AuditComponents;
  }

  lemma PartsAre(ev: Evidence)
    ensures var cs := PartComponents(ev);
      && |cs| == 3 && cs[0].name == "release" && cs[1].name == "attestation" && cs[2].name == "sbom"
      && cs[0].weight == 25 && cs[1].weight == 20 && cs[2].weight == 15
  {}

  lemma AuditPartsAre(ev: Evidence, a: Audit)
    ensures var cs := AuditComponents(ev, a);
      && |cs| == 3 && cs[0].name == "release_zip" && cs[1].name == "retention" && cs[2].name == "matrix_flakes"
      && cs[0].weight == 15 && cs[1].weight == 15 && cs[2].weight == 10
  {}

  lemma StatusPoints(s: Status, weight: nat)
    ensures Points(StatusText(s), weight) == match s case Pass => weight case Warn => weight / 2 case Fail => 0
  {
    assert ToLower("pass") == "pass" && ToLower("warn") == "warn" && ToLower("fail") == "fail";
    assert "pass"[0] == 'p' && "warn"[0] == 'w' && "fail"[0] == 'f' && "error"[0] == 'e' && "empty"[0] == 'e';
  }

  /** A worse retention audit never raises the score nor improves its status. */
  lemma ScoreMonotone(ev: Evidence, a: Audit, b: Audit)
    requires Rank(a.status) <= Rank(b.status)
    ensures ScoreOf(ev, b).score <= ScoreOf(ev, a).score
    ensures Rank(ScoreOf(ev, a).status) <= Rank(ScoreOf(ev, b).status)
  {
    hide ScoreOf, Components, Points;
    ScorePassesIff(ev, a);
    ScorePassesIff(ev, b);
    WeightsAddUp(ev, a);
    WeightsAddUp(ev, b);
    StatusPoints(a.status, 15);
    StatusPoints(b.status, 15);
  }

  // The policy

  /** Is q at least as strict as p in every field? */
  ghost predicate Tighter(p: Policy, q: Policy) {
    && (p.requireReleasePass ==> q.requireReleasePass)
    && (p.failOnAttestationFail ==> q.failOnAttestationFail)
    && (p.failOnSbomFail ==> q.failOnSbomFail)
    && (p.failOnReleaseZipFail ==> q.failOnReleaseZipFail)
    && (p.failOnRetentionExpired ==> q.failOnRetentionExpired)
    && TighterMax(p.maxAttestationWarnings, q.maxAttestationWarnings)
    && TighterMax(p.maxSbomWarnings, q.maxSbomWarnings)
    && TighterMax(p.maxReleaseZipExtras, q.maxReleaseZipExtras)
    && TighterMax(p.maxRetentionWarnings, q.maxRetentionWarnings)
    && p.minArtifactRetentionDays <= q.minArtifactRetentionDays
    && p.expiringSoonDays <= q.expiringSoonDays
    && (forall s :: Gated(p, s) ==> Gated(q, s))
  }

  lemma LimitMonotone(name: string, max: int, max': int, observed: nat, detail: string)
    requires TighterMax(max, max')
    ensures Rank(WorstCheck(LimitCheck(name, max, observed, detail))) <= Rank(WorstCheck(LimitCheck(name, max', observed, detail)))
  {
    hide Itoa;
  }

  /** How a group of four or five checks ranks. */
  lemma WorstOfGroups(a: seq<Check>, b: seq<Check>, c: seq<Check>, d: seq<Check>, e: seq<Check>)
    ensures Rank(WorstCheck(a + b + c + d + e)) == Max(Max(Max(Max(Rank(WorstCheck(a)), Rank(WorstCheck(b))),
      Rank(WorstCheck(c))), Rank(WorstCheck(d))), Rank(WorstCheck(e)))
  {
    hide WorstCheck;
    WorstAppend(a, b);
    WorstAppend(a + b, c);
    WorstAppend(a + b + c, d);
    WorstAppend(a + b + c + d, e);
  }

  lemma ReleaseMonotone(ev: Evidence, p: Policy, q: Policy)
    requires Tighter(p, q)
    ensures Rank(WorstCheck([ReleaseCheck(ev, p)])) <= Rank(WorstCheck([ReleaseCheck(ev, q)]))
  {
    hide WorstCheck, Gated, EqualFold, FirstNonEmpty;
    WorstOfOne(ReleaseCheck(ev, p));
    WorstOfOne(ReleaseCheck(ev, q));
  }

  lemma MetadataMonotone(ev: Evidence, p: Policy, q: Policy)
    requires Tighter(p, q)
    ensures Rank(WorstCheck(MetadataChecks(ev, p))) <= Rank(WorstCheck(MetadataChecks(ev, q)))
  {
    hide WorstCheck, Gated, ReleaseCheck, PartCheck, LimitCheck, MetadataChecks;
    ReleaseMonotone(ev, p, q);
    PartMonotone("attestation", p.failOnAttestationFail, q.failOnAttestationFail, ev.attestation.status,
      "provenance attestation verification failed", "attestation verification warnings present");
    LimitMonotone("attestation-warnings", p.maxAttestationWarnings, q.maxAttestationWarnings,
      |ev.attestation.warnings|, "too many attestation warnings");
    PartMonotone("sbom-diff", p.failOnSbomFail, q.failOnSbomFail, ev.sbom.status,
      "dependency inventory diff failed", "dependency inventory drift detected");
    LimitMonotone("sbom-warning-count", p.maxSbomWarnings, q.maxSbomWarnings, SbomWarnings(ev), "too many SBOM diff warnings");
    MetadataRank(ev, p);
    MetadataRank(ev, q);
  }

  lemma PartMonotone(name: string, flag: bool, flag': bool, status: string, failDetail: string, warnDetail: string)
    requires flag ==> flag'
    ensures Rank(WorstCheck([PartCheck(name, flag, status, failDetail, warnDetail)]))
      <= Rank(WorstCheck([PartCheck(name, flag', status, failDetail, warnDetail)]))
  {
    hide WorstCheck, FirstNonEmpty;
    WorstOfOne(PartCheck(name, flag, status, failDetail, warnDetail));
    WorstOfOne(PartCheck(name, flag', status, failDetail, warnDetail));
  }

  lemma MetadataRank(ev: Evidence, p: Policy)
    ensures Rank(WorstCheck(MetadataChecks(ev, p))) == Max(Max(Max(Max(
      Rank(WorstCheck([ReleaseCheck(ev, p)])),
      Rank(WorstCheck([PartCheck("attestation", p.failOnAttestationFail, ev.attestation.status,
        "provenance attestation verification failed", "attestation verification warnings present")]))),
      Rank(WorstCheck(LimitCheck("attestation-warnings", p.maxAttestationWarnings, |ev.attestation.warnings|,
        "too many attestation warnings")))),
      Rank(WorstCheck([PartCheck("sbom-diff", p.failOnSbomFail, ev.sbom.status,
        "dependency inventory diff failed", "dependency inventory drift detected")]))),
      Rank(WorstCheck(LimitCheck("sbom-warning-count", p.maxSbomWarnings, SbomWarnings(ev), "too many SBOM diff warnings"))))
  {
    hide WorstCheck, ReleaseCheck, PartCheck, LimitCheck, Rank, Max;
    WorstOfGroups(
      [ReleaseCheck(ev, p)],
      [PartCheck("attestation", p.failOnAttestationFail, ev.attestation.status,
        "provenance attestation verification failed", "attestation verification warnings present")],
      LimitCheck("attestation-warnings", p.maxAttestationWarnings, |ev.attestation.warnings|, "too many attestation warnings"),
      [PartCheck("sbom-diff", p.failOnSbomFail, ev.sbom.status,
        "dependency inventory diff failed", "dependency inventory drift detected")],
      LimitCheck("sbom-warning-count", p.maxSbomWarnings, SbomWarnings(ev), "too many SBOM diff warnings"));
  }

  lemma ZipMonotone(ev: Evidence, p: Policy, q: Policy)
    requires Tighter(p, q)
    ensures Rank(WorstCheck(ZipChecks(ev, p))) <= Rank(WorstCheck(ZipChecks(ev, q)))
  {
    hide WorstCheck, Gated, PartCheck, LimitCheck;
    PartMonotone("release-zip-compare", p.failOnReleaseZipFail, q.failOnReleaseZipFail, ev.zip.status,
      "release handoff ZIP comparison failed", "release handoff ZIP drift detected");
    LimitMonotone("release-zip-extra-files", p.maxReleaseZipExtras, q.maxReleaseZipExtras, |ev.zip.extra|,
      "too many extra files in release handoff ZIP");
    forall r: Policy
      ensures Rank(WorstCheck(ZipChecks(ev, r))) == Max(
        Rank(WorstCheck([PartCheck("release-zip-compare", r.failOnReleaseZipFail, ev.zip.status,
          "release handoff ZIP comparison failed", "release handoff ZIP drift detected")])),
        Rank(WorstCheck(LimitCheck("release-zip-extra-files", r.maxReleaseZipExtras, |ev.zip.extra|,
          "too many extra files in release handoff ZIP"))))
    {
      WorstAppend(
        [PartCheck("release-zip-compare", r.failOnReleaseZipFail, ev.zip.status,
          "release handoff ZIP comparison failed", "release handoff ZIP drift detected")],
        LimitCheck("release-zip-extra-files", r.maxReleaseZipExtras, |ev.zip.extra|,
          "too many extra files in release handoff ZIP"));
    }
  }

  lemma RetentionRank(a: Audit, score: Score, p: Policy)
    ensures Rank(WorstCheck(RetentionChecks(a, score, p))) == Max(Max(Max(
      Rank(ExpiryCheck(a, p).status),
      Rank(WorstCheck(LimitCheck("retention-warnings", p.maxRetentionWarnings, |a.warnings|, "too many retention warnings")))),
      Rank(MinimumCheck(a, p).status)),
      Rank(score.status))
  {
    hide WorstCheck, ExpiryCheck, LimitCheck, MinimumCheck, Rank, Max;
    var e, l := [ExpiryCheck(a, p)], LimitCheck("retention-warnings", p.maxRetentionWarnings, |a.warnings|, "too many retention warnings");
    var m, s := [MinimumCheck(a, p)], [ScoreCheck(score)];
    WorstAppend(e, l);
    WorstAppend(e + l, m);
    WorstAppend(e + l + m, s);
    WorstOfOne(e[0]);
    WorstOfOne(m[0]);
    WorstOfOne(s[0]);
  }

  lemma RetentionChecksMonotone(a: Audit, b: Audit, s: Score, t: Score, p: Policy, q: Policy)
    requires Tighter(p, q) && Rank(s.status) <= Rank(t.status)
    requires a.expired == b.expired && a.warnings == b.warnings
    requires a.expiringSoon <= b.expiringSoon && a.belowMinimum <= b.belowMinimum
    ensures Rank(WorstCheck(RetentionChecks(a, s, p))) <= Rank(WorstCheck(RetentionChecks(b, t, q)))
  {
    hide WorstCheck, Gated, RetentionChecks, LimitCheck, Itoa;
    RetentionRank(a, s, p);
    RetentionRank(b, t, q);
    LimitMonotone("retention-warnings", p.maxRetentionWarnings, q.maxRetentionWarnings, |a.warnings|, "too many retention warnings");
  }

  lemma GateRank(ev: Evidence, a: Audit, score: Score, p: Policy)
    ensures Rank(GateOf(ev, a, score, p).status) == Max(Max(
      Rank(WorstCheck(MetadataChecks(ev, p))), Rank(WorstCheck(ZipChecks(ev, p)))), Rank(WorstCheck(RetentionChecks(a, score, p))))
    ensures Rank(score.status) <= Rank(GateOf(ev, a, score, p).status)
  {
    hide WorstCheck, MetadataChecks, ZipChecks, RetentionChecks;
    WorstAppend(MetadataChecks(ev, p), ZipChecks(ev, p));
    WorstAppend(MetadataChecks(ev, p) + ZipChecks(ev, p), RetentionChecks(a, score, p));
    RetentionRank(a, score, p);
  }

  /** A status is gated if the policy lists it, up to surrounding space and case. */
  lemma GatedIff(p: Policy, status: string)
    ensures Gated(p, status) <==> exists s :: s in p.failOnStatuses && EqualFold(TrimSpace(s), status)
  {
    hide ToLower, TrimSpace;
    if i :| 0 <= i < |p.failOnStatuses| && ToLower(TrimSpace(p.failOnStatuses[i])) == ToLower(status) {
      assert p.failOnStatuses[i] in p.failOnStatuses;
    }
  }

  // The gate in terms of evidence and policy

  predicate Exceeds(observed: nat, max: int) {
    0 <= max < observed
  }

  predicate MetadataBlocks(ev: Evidence, p: Policy) {
    || (p.requireReleasePass && !EqualFold(ev.releaseStatus, "pass"))
    || Gated(p, ev.releaseStatus)
    || (p.failOnAttestationFail && ev.attestation.status == "fail")
    || Exceeds(|ev.attestation.warnings|, p.maxAttestationWarnings)
    || (p.failOnSbomFail && ev.sbom.status == "fail")
    || Exceeds(SbomWarnings(ev), p.maxSbomWarnings)
  }

  predicate ZipBlocks(ev: Evidence, p: Policy) {
    (p.failOnReleaseZipFail && ev.zip.status == "fail") || Exceeds(|ev.zip.extra|, p.maxReleaseZipExtras)
  }

  predicate RetentionBlocks(a: Audit, p: Policy) {
    || (p.failOnRetentionExpired && a.expired != 0)
    || Exceeds(|a.warnings|, p.maxRetentionWarnings)
    || (p.minArtifactRetentionDays > 0 && a.belowMinimum != 0)
  }

  /** What may not pass, but does not block either. */
  predicate Cautions(ev: Evidence, a: Audit) {
    ev.attestation.status == "warn" || ev.sbom.status == "warn" || ev.zip.status == "warn" || a.expiringSoon != 0
  }

  lemma PartStatus(name: string, failOnFail: bool, status: string, failDetail: string, warnDetail: string)
    ensures Rank(WorstCheck([PartCheck(name, failOnFail, status, failDetail, warnDetail)]))
      == if failOnFail && status == "fail" then 2 else if status == "warn" then 1 else 0
  {
    WorstOfOne(PartCheck(name, failOnFail, status, failDetail, warnDetail));
  }

  lemma LimitStatus(name: string, max: int, observed: nat, detail: string)
    ensures Rank(WorstCheck(LimitCheck(name, max, observed, detail))) == if Exceeds(observed, max) then 2 else 0
  {
    WorstOfOne(Check(name, Fail, Itoa(observed), detail));
    WorstOfOne(Check(name, Pass, Itoa(observed), ""));
  }

  lemma MetadataStatus(ev: Evidence, p: Policy)
    ensures Rank(WorstCheck(MetadataChecks(ev, p)))
      == if MetadataBlocks(ev, p) then 2 else if ev.attestation.status == "warn" || ev.sbom.status == "warn" then 1 else 0
  {
    hide MetadataChecks, PartCheck, LimitCheck, WorstCheck, Gated, EqualFold, Exceeds;
    MetadataRank(ev, p);
    WorstOfOne(ReleaseCheck(ev, p));
    PartStatus("attestation", p.failOnAttestationFail, ev.attestation.status,
      "provenance attestation verification failed", "attestation verification warnings present");
    LimitStatus("attestation-warnings", p.maxAttestationWarnings, |ev.attestation.warnings|, "too many attestation warnings");
    PartStatus("sbom-diff", p.failOnSbomFail, ev.sbom.status,
      "dependency inventory diff failed", "dependency inventory drift detected");
    LimitStatus("sbom-warning-count", p.maxSbomWarnings, SbomWarnings(ev), "too many SBOM diff warnings");
  }

  lemma ZipStatus(ev: Evidence, p: Policy)
    ensures Rank(WorstCheck(ZipChecks(ev, p))) == if ZipBlocks(ev, p) then 2 else if ev.zip.status == "warn" then 1 else 0
  {
    hide PartCheck, LimitCheck, WorstCheck, Exceeds;
    PartStatus("release-zip-compare", p.failOnReleaseZipFail, ev.zip.status,
      "release handoff ZIP comparison failed", "release handoff ZIP drift detected");
    LimitStatus("release-zip-extra-files", p.maxReleaseZipExtras, |ev.zip.extra|, "too many extra files in release handoff ZIP");
    WorstAppend(
      [PartCheck("release-zip-compare", p.failOnReleaseZipFail, ev.zip.status,
        "release handoff ZIP comparison failed", "release handoff ZIP drift detected")],
      LimitCheck("release-zip-extra-files", p.maxReleaseZipExtras, |ev.zip.extra|,
        "too many extra files in release handoff ZIP"));
  }

  lemma RetentionStatus(a: Audit, score: Score, p: Policy)
    ensures Rank(WorstCheck(RetentionChecks(a, score, p)))
      == if RetentionBlocks(a, p) || score.status == Fail then 2 else if a.expiringSoon != 0 || score.status == Warn then 1 else 0
  {
    hide RetentionChecks, LimitCheck, WorstCheck, Itoa, Exceeds;
    RetentionRank(a, score, p);
    LimitStatus("retention-warnings", p.maxRetentionWarnings, |a.warnings|, "too many retention warnings");
  }

  /** When the gate fails and when it passes, without speaking of its checks. */
  lemma GateMeans(ev: Evidence, a: Audit, score: Score, p: Policy)
    ensures GateOf(ev, a, score, p).status == Fail
      <==> MetadataBlocks(ev, p) || ZipBlocks(ev, p) || RetentionBlocks(a, p) || score.status == Fail
    ensures GateOf(ev, a, score, p).status == Pass
      <==> !MetadataBlocks(ev, p) && !ZipBlocks(ev, p) && !RetentionBlocks(a, p) && !Cautions(ev, a) && score.status == Pass
  {
    hide GateOf, WorstCheck, MetadataBlocks, ZipBlocks, RetentionBlocks;
    GateRank(ev, a, score, p);
    MetadataStatus(ev, p);
    ZipStatus(ev, p);
    RetentionStatus(a, score, p);
  }

  /** The audit's status is always its gate's: the score is one of the gate's checks. */
  lemma AuditIsGate(ev: Evidence, ret: Manifest, p: Policy, now: int)
    ensures AuditReport(ev, ret, p, now).status == AuditReport(ev, ret, p, now).gate.status
  {
    hide GateOf, ScoreOf, AuditOf;
    var r := AuditReport(ev, ret, p, now);
    GateRank(ev, r.retention, r.score, p);
  }

  /** Through retention audit, score and gate, a stricter policy never gets a better release audit. */
  lemma AuditMonotone(ev: Evidence, ret: Manifest, p: Policy, q: Policy, now: int)
    requires Tighter(p, q)
    ensures Rank(AuditReport(ev, ret, p, now).status) <= Rank(AuditReport(ev, ret, q, now).status)
    ensures AuditReport(ev, ret, q, now).score.score <= AuditReport(ev, ret, p, now).score.score
  {
    hide GateOf, ScoreOf, AuditOf, Gated, WorstCheck, MetadataChecks, ZipChecks, RetentionChecks;
    var a, b := AuditReport(ev, ret, p, now), AuditReport(ev, ret, q, now);
    RetentionMonotone(ret, now, p.minArtifactRetentionDays, p.expiringSoonDays, q.minArtifactRetentionDays, q.expiringSoonDays);
    ScoreMonotone(ev, a.retention, b.retention);
    MetadataMonotone(ev, p, q);
    ZipMonotone(ev, p, q);
    RetentionChecksMonotone(a.retention, b.retention, a.score, b.score, p, q);
    GateRank(ev, a.retention, a.score, p);
    GateRank(ev, b.retention, b.score, q);
    AuditIsGate(ev, ret, p, now);
    AuditIsGate(ev, ret, q, now);
  }
}
