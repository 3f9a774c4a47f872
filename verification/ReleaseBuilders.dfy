/** The builders of the release audit, which append to a draft and keep its running totals. */
module ReleaseBuilders {
  import opened Retention
  import opened ReleaseAudit
  import Text

  // Score

  datatype ScoreDraft = ScoreDraft(components: seq<Component>, points: nat, weight: nat, degraded: bool)

  ghost predicate Totalled(d: ScoreDraft) {
    && d.points == TotalPoints(d.components) && d.weight == TotalWeight(d.components)
    && d.degraded == Degraded(d.components)
  }

  lemma OneMoreComponent(cs: seq<Component>, c: Component)
    ensures TotalPoints(cs + [c]) == TotalPoints(cs) + c.points
    ensures TotalWeight(cs + [c]) == TotalWeight(cs) + c.weight
    ensures Degraded(cs + [c]) <==> Degraded(cs) || c.points < c.weight
  {
    var longer := cs + [c];
    assert longer[..|cs|] == cs && longer[|cs|] == c;
    assert forall i :: 0 <= i < |cs| ==> longer[i] == cs[i];
  }

  /** The score's `add` closure. */
  method AddComponent(d: ScoreDraft, name: string, status: string, weight: nat, detail: string) returns (d': ScoreDraft)
    requires Totalled(d)
    ensures d'.components == d.components + [MakeComponent(name, status, weight, detail)] && Totalled(d')
  {
    var c := MakeComponent(name, status, weight, detail);
    OneMoreComponent(d.components, c);
    hide TotalPoints, TotalWeight, Degraded, MakeComponent, Points;
    d' := ScoreDraft(d.components + [c], d.points + c.points, d.weight + c.weight, d.degraded || c.points < c.weight);
  }

  method AddParts(d0: ScoreDraft, ev: Evidence, a: Audit) returns (d: ScoreDraft)
    requires Totalled(d0)
    ensures d.components == d0.components + PartComponents(ev) + AuditComponents(ev, a) && Totalled(d)
  {
    hide Totalled, MakeComponent, StatusText, AttestationDetail, SbomDetail, ZipDetail, RetentionDetail, FlakesDetail;
    d := AddComponent(d0, "release", ev.releaseStatus, 25, ev.topStopCause);
    d := AddComponent(d, "attestation", ev.attestation.status, 20, AttestationDetail(ev));
    d := AddComponent(d, "sbom", ev.sbom.status, 15, SbomDetail(ev));
    assert d.components == d0.components + PartComponents(ev);
    hide PartComponents;
    d := AddComponent(d, "release_zip", ev.zip.status, 15, ZipDetail(ev));
    d := AddComponent(d, "retention", StatusText(a.status), 15, RetentionDetail(a));
    d := AddComponent(d, "matrix_flakes", ev.flakeStatus, 10, FlakesDetail(ev));
  }

  method BuildScore(ev: Evidence, a: Audit) returns (s: Score)
    ensures s == ScoreOf(ev, a)
  {
    var d := ScoreDraft([], 0, 0, false);
    assert Totalled(d);
    hide Totalled, Components, PartComponents, AuditComponents, ScoreOfComponents;
    d := AddParts(d, ev, a);
    FromNothing(ev, a);
    s := FinishScore(d);
  }

  lemma FromNothing(ev: Evidence, a: Audit)
    ensures [] + PartComponents(ev) + AuditComponents(ev, a) == Components(ev, a)
  {
    hide PartComponents, AuditComponents;
  }

  method FinishScore(d: ScoreDraft) returns (s: Score)
    requires Totalled(d)
    ensures s == ScoreOfComponents(d.components)
  {
    var score := d.points;
    if d.weight > 0 {
      score := Rescale(d.points, d.weight);
    }
    var status := Pass;
    if score < 60 {
      status := Fail;
    } else if score < 85 || d.degraded {
      status := Warn;
    }
    s := Score(status, score, d.components);
  }

  // Gate

  datatype GateDraft = GateDraft(checks: seq<Check>, status: Status)

  ghost predicate Faithful(d: GateDraft) {
    d.status == WorstCheck(d.checks)
  }

  /** The gate's `add` closure. */
  method AddCheck(d: GateDraft, c: Check) returns (d': GateDraft)
    requires Faithful(d)
    ensures d'.checks == d.checks + [c] && Faithful(d')
  {
    var status := d.status;
    if c.status == Fail {
      status := Fail;
    } else if c.status == Warn && status == Pass {
      status := Warn;
    }
    d' := GateDraft(d.checks + [c], status);
    assert d'.checks[..|d.checks|] == d.checks;
  }

  method AddLimit(d: GateDraft, name: string, max: int, observed: nat, detail: string) returns (d': GateDraft)
    requires Faithful(d)
    ensures d'.checks == d.checks + LimitCheck(name, max, observed, detail) && Faithful(d')
  {
    hide Faithful;
    d' := d;
    if max >= 0 {
      d' := AddCheck(d, LimitCheck(name, max, observed, detail)[0]);
    }
  }

  method AddRelease(d: GateDraft, ev: Evidence, p: Policy) returns (d': GateDraft)
    requires Faithful(d)
    ensures d'.checks == d.checks + [ReleaseCheck(ev, p)] && Faithful(d')
  {
    hide Faithful, Gated, Text.EqualFold;
    var gated := StatusSet(p, ev.releaseStatus);
    if p.requireReleasePass && !Text.EqualFold(ev.releaseStatus, "pass") {
      d' := AddCheck(d, Check("release-status", Fail, ev.releaseStatus, "release manifest status must be pass"));
    } else if gated {
      d' := AddCheck(d, Check("release-status", Fail, ev.releaseStatus, "release status is gated"));
    } else {
      d' := AddCheck(d, Check("release-status", Pass, Text.FirstNonEmpty(ev.releaseStatus, "empty"), ""));
    }
  }

  method AddMetadata(d0: GateDraft, ev: Evidence, p: Policy) returns (d: GateDraft)
    requires Faithful(d0)
    ensures d.checks == d0.checks + MetadataChecks(ev, p) && Faithful(d)
  {
    hide Faithful, ReleaseCheck, PartCheck, LimitCheck;
    d := AddRelease(d0, ev, p);
    d := AddCheck(d, PartCheck("attestation", p.failOnAttestationFail, ev.attestation.status,
      "provenance attestation verification failed", "attestation verification warnings present"));
    d := AddLimit(d, "attestation-warnings", p.maxAttestationWarnings, |ev.attestation.warnings|, "too many attestation warnings");
    d := AddCheck(d, PartCheck("sbom-diff", p.failOnSbomFail, ev.sbom.status,
      "dependency inventory diff failed", "dependency inventory drift detected"));
    d := AddLimit(d, "sbom-warning-count", p.maxSbomWarnings, SbomWarnings(ev), "too many SBOM diff warnings");
  }

  method AddZip(d0: GateDraft, ev: Evidence, p: Policy) returns (d: GateDraft)
    requires Faithful(d0)
    ensures d.checks == d0.checks + ZipChecks(ev, p) && Faithful(d)
  {
    hide Faithful, PartCheck, LimitCheck;
    d := AddCheck(d0, PartCheck("release-zip-compare", p.failOnReleaseZipFail, ev.zip.status,
      "release handoff ZIP comparison failed", "release handoff ZIP drift detected"));
    d := AddLimit(d, "release-zip-extra-files", p.maxReleaseZipExtras, |ev.zip.extra|, "too many extra files in release handoff ZIP");
  }

  method AddRetention(d0: GateDraft, a: Audit, score: Score, p: Policy) returns (d: GateDraft)
    requires Faithful(d0)
    ensures d.checks == d0.checks + RetentionChecks(a, score, p) && Faithful(d)
  {
    hide Faithful, ExpiryCheck, LimitCheck, MinimumCheck, ScoreCheck;
    d := AddCheck(d0, ExpiryCheck(a, p));
    d := AddLimit(d, "retention-warnings", p.maxRetentionWarnings, |a.warnings|, "too many retention warnings");
    d := AddCheck(d, MinimumCheck(a, p));
    d := AddCheck(d, ScoreCheck(score));
  }

  method BuildGate(ev: Evidence, a: Audit, score: Score, p: Policy) returns (g: Gate)
    ensures g == GateOf(ev, a, score, p)
    ensures g.exitCode == 1 <==> exists i :: 0 <= i < |g.checks| && g.checks[i].status == Fail
    ensures g.exitCode == 1
      <==> MetadataBlocks(ev, p) || ZipBlocks(ev, p) || RetentionBlocks(a, p) || score.status == Fail
  {
    hide MetadataChecks, ZipChecks, RetentionChecks;
    var d := AddMetadata(GateDraft([], Pass), ev, p);
    d := AddZip(d, ev, p);
    d := AddRetention(d, a, score, p);
    assert d.checks == GateChecks(ev, a, score, p);
    WorstCheckMeans(d.checks);
    GateMeans(ev, a, score, p);
    hide WorstCheck, MetadataBlocks, ZipBlocks, RetentionBlocks;
    var exitCode := 0;
    if d.status == Fail {
      exitCode := 1;
    }
    g := Gate(d.status, exitCode, d.checks);
  }

  /** The three builders in turn; the gate sees the audit and the score. */
  method BuildReleaseAuditReport(ev: Evidence, ret: Manifest, p: Policy, now: int) returns (r: Report)
    ensures r == AuditReport(ev, ret, p, now)
    ensures r.status == r.gate.status && (r.score.status == Pass <==> r.score.score == 100)
  {
    AuditIsGate(ev, ret, p, now);
    hide AuditOf, ScoreOf, GateOf;
    var a := BuildRetentionAudit(ret, now, p.minArtifactRetentionDays, p.expiringSoonDays);
    var score := BuildScore(ev, a);
    var gate := BuildGate(ev, a, score, p);
    ScorePassesIff(ev, a);
    var status := gate.status;
    if status == Pass {
      status := score.status;
    }
    r := Report(status, score, gate, a, ev);
  }
}
