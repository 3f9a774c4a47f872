/** Release waivers and the TODO list (internal/analyze/ci_audit_ext8.go). */
module Waivers {
  import opened Text
  import opened Retention
  import opened Seqs
  import ReleaseAudit
  import Sorting

  datatype Severity = SevFail | SevWarn | SevPass | SevInfo

  datatype Issue = Issue(id: string, kind: string, name: string, status: string, severity: Severity, detail: string)

  /** An empty field matches anything; the expiry is BadExpiry when its text does not parse. */
  datatype Rule = Rule(id: string, kind: string, name: string, status: string, contains: string, reason: string, expiry: Expiry)

  datatype Parsed = Rules(rules: seq<Rule>) | ParseError(error: string)

  /** The check time, absent when its text does not parse or names Go's zero time. */
  datatype Clock = NoClock | At(now: int)

  datatype Match = Match(issueId: string, ruleId: string, active: bool, reason: string)

  datatype WaiverReport = WaiverReport(
    status: Status,
    issueCount: nat,
    waived: nat,
    unwaived: nat,
    expired: nat,
    unmatched: seq<string>,
    issues: seq<Issue>,
    matches: seq<Match>)

  datatype Todo = Todo(priority: string, title: string, detail: string, query: string)

  datatype TodoReport = TodoReport(status: Status, count: nat, todos: seq<Todo>)

  // Issues of an audit

  function SeverityFromStatus(s: string): Severity {
    var t := ToLower(TrimSpace(s));
    if t == "fail" || t == "error" then SevFail
    else if t == "warn" || t == "warning" then SevWarn
    else if t == "pass" || t == "ok" then SevPass
    else SevInfo
  }

  function Dashed(s: string): string {
    seq(|s|, i requires 0 <= i < |s| => if s[i] == ' ' then '-' else s[i])
  }

  function MakeIssue(kind: string, name: string, status: string, detail: string): Issue {
    var st := FirstNonEmpty(status, "warn");
    Issue(ToLower(Dashed(kind + ":" + name + ":" + st)), kind, name, st, SeverityFromStatus(st), detail)
  }

  /** Does a part with this status raise an issue? */
  predicate Raises(status: string) {
    status != "" && !EqualFold(status, "pass")
  }

  function Named(kind: string, status: string, detail: string): string -> Issue {
    name => MakeIssue(kind, name, status, detail)
  }

  function Names(kind: string, names: seq<string>, status: string, detail: string): seq<Issue> {
    Map(names, Named(kind, status, detail))
  }

  function CheckFails(): ReleaseAudit.Check -> bool {
    (c: ReleaseAudit.Check) => c.status != Pass
  }

  function CheckIssue(): ReleaseAudit.Check -> Issue {
    (c: ReleaseAudit.Check) => MakeIssue("gate", c.name, ReleaseAudit.StatusText(c.status), FirstNonEmpty(c.detail, c.observed))
  }

  function ComponentFails(): ReleaseAudit.Component -> bool {
    (c: ReleaseAudit.Component) => Raises(c.status)
  }

  function ComponentIssue(): ReleaseAudit.Component -> Issue {
    (c: ReleaseAudit.Component) => MakeIssue("score", c.name, c.status, c.detail)
  }

  function RowFails(): Row -> bool {
    (e: Row) => e.status != Pass
  }

  function RowIssue(): Row -> Issue {
    (e: Row) => MakeIssue("retention", FirstNonEmpty(e.path, e.kind), ReleaseAudit.StatusText(e.status), e.detail)
  }

  function AttestationIssues(a: ReleaseAudit.Attestation): seq<Issue> {
    Names("attestation", a.missing, "fail", "missing attestation field/material")
    + Names("attestation", a.mismatch, "fail", "attestation mismatch")
    + Names("attestation", a.warnings, "warn", "attestation warning")
  }

  function SbomIssues(s: ReleaseAudit.SbomDiff): seq<Issue> {
    Names("sbom", s.issues, s.status, "dependency inventory issue")
    + Names("sbom", s.added, "warn", "module added")
    + Names("sbom", s.changed, "warn", "module changed")
  }

  function ZipIssues(z: ReleaseAudit.ZipComparison): seq<Issue> {
    Names("release_zip", z.issues, z.status, "release ZIP issue")
    + Names("release_zip", z.missing, "fail", "file missing from release ZIP")
    + Names("release_zip", z.changed, "fail", "file changed in release ZIP")
    + Names("release_zip", z.extra, "warn", "extra file in release ZIP")
  }

  function AuditIssues(r: ReleaseAudit.Report): seq<Issue> {
    Map(Filter(r.gate.checks, CheckFails()), CheckIssue())
    + Map(Filter(r.score.components, ComponentFails()), ComponentIssue())
    + Map(Filter(r.retention.rows, RowFails()), RowIssue())
  }

  function Found(r: ReleaseAudit.Report): seq<Issue> {
    AuditIssues(r) + AttestationIssues(r.evidence.attestation) + SbomIssues(r.evidence.sbom) + ZipIssues(r.evidence.zip)
  }

  predicate IdLess(a: Issue, b: Issue) {
    Less(a.id, b.id)
  }

  /** The issues sorted by id; an unstable sort may leave issues with equal ids in any order. */
  ghost predicate ExtractedIssues(r: ReleaseAudit.Report, issues: seq<Issue>) {
    multiset(issues) == multiset(Found(r)) && Sorting.Sorted(issues, IdLess)
  }

  lemma IdLessOrders(s: multiset<Issue>)
    ensures Sorting.Orders(IdLess, s)
  {
    hide Less;
    forall x, y | x in s && y in s && IdLess(x, y) ensures !IdLess(y, x) {
      LessAsymmetric(x.id, y.id);
    }
    forall x, y, z | x in s && y in s && z in s && IdLess(x, y) && !IdLess(z, y) ensures IdLess(x, z) {
      LessTotal(y.id, z.id);
      if Less(y.id, z.id) {
        LessTransitive(x.id, y.id, z.id);
      }
    }
  }

  /** A loop over names. */
  method AddNames(found: seq<Issue>, kind: string, names: seq<string>, status: string, detail: string) returns (issues: seq<Issue>)
    ensures issues == found + Names(kind, names, status, detail)
  {
    hide MakeIssue;
    issues := found;
    for i := 0 to |names|
      invariant issues == found + Names(kind, names[..i], status, detail)
    {
      assert names[..i + 1] == names[..i] + [names[i]];
      MapAppend(names[..i], names[i], Named(kind, status, detail));
      issues := issues + [MakeIssue(kind, names[i], status, detail)];
    }
    assert names[..|names|] == names;
  }

  method AddChecks(found: seq<Issue>, checks: seq<ReleaseAudit.Check>) returns (issues: seq<Issue>)
    ensures issues == found + Map(Filter(checks, CheckFails()), CheckIssue())
  {
    hide Map, Filter, MakeIssue, FirstNonEmpty, ReleaseAudit.StatusText;
    issues := found;
    NothingMapped(CheckFails(), CheckIssue());
    assert checks[..0] == [];
    for i := 0 to |checks|
      invariant issues == found + Map(Filter(checks[..i], CheckFails()), CheckIssue())
    {
      var c := checks[i];
      FilterMapStep(checks, i, CheckFails(), CheckIssue());
      if c.status != Pass {
        issues := issues + [MakeIssue("gate", c.name, ReleaseAudit.StatusText(c.status), FirstNonEmpty(c.detail, c.observed))];
      }
    }
    assert checks[..|checks|] == checks;
  }

  method AddComponents(found: seq<Issue>, components: seq<ReleaseAudit.Component>) returns (issues: seq<Issue>)
    ensures issues == found + Map(Filter(components, ComponentFails()), ComponentIssue())
  {
    hide Map, Filter, MakeIssue, Raises;
    issues := found;
    NothingMapped(ComponentFails(), ComponentIssue());
    assert components[..0] == [];
    for i := 0 to |components|
      invariant issues == found + Map(Filter(components[..i], ComponentFails()), ComponentIssue())
    {
      var c := components[i];
      FilterMapStep(components, i, ComponentFails(), ComponentIssue());
      if Raises(c.status) {
        issues := issues + [MakeIssue("score", c.name, c.status, c.detail)];
      }
    }
    assert components[..|components|] == components;
  }

  method AddRows(found: seq<Issue>, rows: seq<Row>) returns (issues: seq<Issue>)
    ensures issues == found + Map(Filter(rows, RowFails()), RowIssue())
  {
    hide Map, Filter, MakeIssue, FirstNonEmpty, ReleaseAudit.StatusText;
    issues := found;
    NothingMapped(RowFails(), RowIssue());
    assert rows[..0] == [];
    for i := 0 to |rows|
      invariant issues == found + Map(Filter(rows[..i], RowFails()), RowIssue())
    {
      var e := rows[i];
      FilterMapStep(rows, i, RowFails(), RowIssue());
      if e.status != Pass {
        issues := issues + [MakeIssue("retention", FirstNonEmpty(e.path, e.kind), ReleaseAudit.StatusText(e.status), e.detail)];
      }
    }
    assert rows[..|rows|] == rows;
  }

  lemma NothingMapped<T, U>(p: T -> bool, f: T -> U)
    ensures Map(Filter([], p), f) == []
  {}

  lemma FilterMapStep<T, U>(s: seq<T>, i: nat, p: T -> bool, f: T -> U)
    requires i < |s|
    ensures Map(Filter(s[..i + 1], p), f) == Map(Filter(s[..i], p), f) + if p(s[i]) then [f(s[i])] else []
  {
    hide *;
    assert s[..i + 1] == s[..i] + [s[i]];
    FilterAppend(s[..i], s[i], p);
    MapAppend(Filter(s[..i], p), s[i], f);
    assert Filter(s[..i], p) + [] == Filter(s[..i], p);
  }

  method ExtractIssues(r: ReleaseAudit.Report) returns (issues: seq<Issue>)
    ensures ExtractedIssues(r, issues)
  {
    hide Map, Filter, Names, IdLess;
    var ev := r.evidence;
    issues := AddChecks([], r.gate.checks);
    issues := AddComponents(issues, r.score.components);
    issues := AddRows(issues, r.retention.rows);
    assert issues == AuditIssues(r);
    hide AuditIssues;
    issues := AddNames(issues, "attestation", ev.attestation.missing, "fail", "missing attestation field/material");
    issues := AddNames(issues, "attestation", ev.attestation.mismatch, "fail", "attestation mismatch");
    issues := AddNames(issues, "attestation", ev.attestation.warnings, "warn", "attestation warning");
    assert issues == AuditIssues(r) + AttestationIssues(ev.attestation);
    hide AttestationIssues;
    issues := AddNames(issues, "sbom", ev.sbom.issues, ev.sbom.status, "dependency inventory issue");
    issues := AddNames(issues, "sbom", ev.sbom.added, "warn", "module added");
    issues := AddNames(issues, "sbom", ev.sbom.changed, "warn", "module changed");
    assert issues == AuditIssues(r) + AttestationIssues(ev.attestation) + SbomIssues(ev.sbom);
    hide SbomIssues;
    issues := AddNames(issues, "release_zip", ev.zip.issues, ev.zip.status, "release ZIP issue");
    issues := AddNames(issues, "release_zip", ev.zip.missing, "fail", "file missing from release ZIP");
    issues := AddNames(issues, "release_zip", ev.zip.changed, "fail", "file changed in release ZIP");
    issues := AddNames(issues, "release_zip", ev.zip.extra, "warn", "extra file in release ZIP");
    assert issues == Found(r);
    issues := SortIssues(r, issues);
  }

  method SortIssues(ghost r: ReleaseAudit.Report, found: seq<Issue>) returns (issues: seq<Issue>)
    requires found == Found(r)
    ensures ExtractedIssues(r, issues)
  {
    hide Found, IdLess;
    issues := Sorting.Sort(found, IdLess);
    IdLessOrders(multiset(found));
    Sorting.SortSorted(found, IdLess);
    Sorting.SortPermutes(found, IdLess);
  }

  // What becomes an issue

  /** An issue of this kind, name and detail, whose status is the one given, or "warn" for a blank one. */
  ghost predicate IsIssue(x: Issue, kind: string, name: string, status: string, detail: string) {
    && x.kind == kind && x.name == name && x.detail == detail
    && x.status == (if TrimSpace(status) == "" then "warn" else status)
    && (x.severity == SevFail <==> ToLower(TrimSpace(x.status)) in {"fail", "error"})
    && (x.severity == SevWarn <==> ToLower(TrimSpace(x.status)) in {"warn", "warning"})
    && HasId(x, kind + ":" + name + ":" + x.status)
  }

  /** The id is the text in small letters, with dashes for spaces. */
  ghost predicate HasId(x: Issue, full: string) {
    |x.id| == |full| && forall i :: 0 <= i < |full| ==> x.id[i] == if full[i] == ' ' then '-' else ToLower(full)[i]
  }

  ghost predicate NamedIn(names: seq<string>, name: string, status: string, detail: string, status': string, detail': string) {
    name in names && status == status' && detail == detail'
  }

  ghost predicate FromGate(r: ReleaseAudit.Report, name: string, status: string, detail: string) {
    exists c :: c in r.gate.checks && c.status != Pass && name == c.name
      && status == (if c.status == Fail then "fail" else "warn")
      && detail == if TrimSpace(c.detail) == "" then c.observed else c.detail
  }

  ghost predicate FromScore(r: ReleaseAudit.Report, name: string, status: string, detail: string) {
    exists c :: c in r.score.components && c.status != "" && ToLower(c.status) != "pass"
      && name == c.name && status == c.status && detail == c.detail
  }

  ghost predicate FromRetention(r: ReleaseAudit.Report, name: string, status: string, detail: string) {
    exists e :: e in r.retention.rows && e.status != Pass
      && name == (if TrimSpace(e.path) == "" then e.kind else e.path)
      && status == (if e.status == Fail then "fail" else "warn") && detail == e.detail
  }

  ghost predicate FromAttestation(a: ReleaseAudit.Attestation, name: string, status: string, detail: string) {
    || NamedIn(a.missing, name, status, detail, "fail", "missing attestation field/material")
    || NamedIn(a.mismatch, name, status, detail, "fail", "attestation mismatch")
    || NamedIn(a.warnings, name, status, detail, "warn", "attestation warning")
  }

  ghost predicate FromSbom(s: ReleaseAudit.SbomDiff, name: string, status: string, detail: string) {
    || NamedIn(s.issues, name, status, detail, s.status, "dependency inventory issue")
    || NamedIn(s.added, name, status, detail, "warn", "module added")
    || NamedIn(s.changed, name, status, detail, "warn", "module changed")
  }

  ghost predicate FromZip(z: ReleaseAudit.ZipComparison, name: string, status: string, detail: string) {
    || NamedIn(z.issues, name, status, detail, z.status, "release ZIP issue")
    || NamedIn(z.missing, name, status, detail, "fail", "file missing from release ZIP")
    || NamedIn(z.changed, name, status, detail, "fail", "file changed in release ZIP")
    || NamedIn(z.extra, name, status, detail, "warn", "extra file in release ZIP")
  }

  /** The thirteen places of an audit that raise issues. */
  ghost predicate From(r: ReleaseAudit.Report, kind: string, name: string, status: string, detail: string) {
    match kind
    case "gate" => FromGate(r, name, status, detail)
    case "score" => FromScore(r, name, status, detail)
    case "retention" => FromRetention(r, name, status, detail)
    case "attestation" => FromAttestation(r.evidence.attestation, name, status, detail)
    case "sbom" => FromSbom(r.evidence.sbom, name, status, detail)
    case "release_zip" => FromZip(r.evidence.zip, name, status, detail)
    case _ => false
  }

  lemma MakeIssueIs(kind: string, name: string, status: string, detail: string)
    ensures IsIssue(MakeIssue(kind, name, status, detail), kind, name, status, detail)
  {
    var x := MakeIssue(kind, name, status, detail);
    MakeIssueId(x, kind + ":" + name + ":" + x.status);
    hide ToLower, TrimSpace, HasId;
  }

  lemma MakeIssueId(x: Issue, full: string)
    requires x.id == ToLower(Dashed(full))
    ensures HasId(x, full)
  {}

  lemma {:induction false} MapMembers<T, U>(s: seq<T>, f: T -> U)
    ensures forall x :: x in s ==> f(x) in Map(s, f)
    ensures forall y :: y in Map(s, f) ==> exists x :: x in s && y == f(x)
    decreases |s|
  {
    if s != [] {
      MapMembers(s[..|s| - 1], f);
      assert s == s[..|s| - 1] + [s[|s| - 1]];
    }
  }

  ghost predicate Present(issues: seq<Issue>, kind: string, name: string, status: string, detail: string) {
    exists x :: x in issues && IsIssue(x, kind, name, status, detail)
  }

  ghost predicate Explained(x: Issue, r: ReleaseAudit.Report) {
    exists name: string, status: string, detail: string ::
      From(r, x.kind, name, status, detail) && IsIssue(x, x.kind, name, status, detail)
  }

  ghost predicate AllExplained(issues: seq<Issue>, r: ReleaseAudit.Report) {
    forall x :: x in issues ==> Explained(x, r)
  }

  lemma Explains(r: ReleaseAudit.Report, kind: string, name: string, status: string, detail: string)
    requires From(r, kind, name, status, detail)
    ensures Explained(MakeIssue(kind, name, status, detail), r)
  {
    hide From, IsIssue;
    MakeIssueIs(kind, name, status, detail);
    assert MakeIssue(kind, name, status, detail).kind == kind;
  }

  lemma NamesExplained(r: ReleaseAudit.Report, kind: string, names: seq<string>, status: string, detail: string)
    requires forall name :: name in names ==> From(r, kind, name, status, detail)
    ensures AllExplained(Names(kind, names, status, detail), r)
    ensures |Names(kind, names, status, detail)| == |names|
  {
    hide From, IsIssue, Map;
    MapMembers(names, Named(kind, status, detail));
    MapLength(names, Named(kind, status, detail));
    forall x | x in Names(kind, names, status, detail) ensures Explained(x, r) {
      var name :| name in names && x == Named(kind, status, detail)(name);
      Explains(r, kind, name, status, detail);
    }
  }

  lemma {:induction false} MapLength<T, U>(s: seq<T>, f: T -> U)
    ensures |Map(s, f)| == |s|
    decreases |s|
  {
    if s != [] {
      MapLength(s[..|s| - 1], f);
    }
  }

  lemma NamePresent(kind: string, names: seq<string>, name: string, status: string, detail: string)
    requires name in names
    ensures Present(Names(kind, names, status, detail), kind, name, status, detail)
  {
    hide IsIssue, Map;
    MapMembers(names, Named(kind, status, detail));
    MakeIssueIs(kind, name, status, detail);
    assert Named(kind, status, detail)(name) == MakeIssue(kind, name, status, detail);
  }

  lemma StillPresent(part: seq<Issue>, issues: seq<Issue>, kind: string, name: string, status: string, detail: string)
    requires Present(part, kind, name, status, detail) && forall x :: x in part ==> x in issues
    ensures Present(issues, kind, name, status, detail)
  {
    hide IsIssue;
  }

  lemma ChecksExplained(r: ReleaseAudit.Report)
    ensures AllExplained(Map(Filter(r.gate.checks, CheckFails()), CheckIssue()), r)
    ensures forall name, status, detail :: FromGate(r, name, status, detail) ==>
      Present(Map(Filter(r.gate.checks, CheckFails()), CheckIssue()), "gate", name, status, detail)
  {
    hide IsIssue, Map, Filter, MakeIssue, TrimSpace;
    var kept := Filter(r.gate.checks, CheckFails());
    MapMembers(kept, CheckIssue());
    forall x | x in Map(kept, CheckIssue()) ensures Explained(x, r) {
      var c :| c in kept && x == CheckIssue()(c);
      FilterMembers(r.gate.checks, CheckFails(), c);
      Explains(r, "gate", c.name, ReleaseAudit.StatusText(c.status), FirstNonEmpty(c.detail, c.observed));
    }
    forall name, status, detail | FromGate(r, name, status, detail) ensures Present(Map(kept, CheckIssue()), "gate", name, status, detail) {
      var c :| c in r.gate.checks && c.status != Pass && name == c.name
        && status == (if c.status == Fail then "fail" else "warn")
        && detail == if TrimSpace(c.detail) == "" then c.observed else c.detail;
      FilterMembers(r.gate.checks, CheckFails(), c);
      MakeIssueIs("gate", name, status, detail);
      assert CheckIssue()(c) in Map(kept, CheckIssue());
    }
  }

  lemma ComponentsExplained(r: ReleaseAudit.Report)
    ensures AllExplained(Map(Filter(r.score.components, ComponentFails()), ComponentIssue()), r)
    ensures forall name, status, detail :: FromScore(r, name, status, detail) ==>
      Present(Map(Filter(r.score.components, ComponentFails()), ComponentIssue()), "score", name, status, detail)
  {
    hide IsIssue, Map, Filter, MakeIssue, ToLower;
    var kept := Filter(r.score.components, ComponentFails());
    MapMembers(kept, ComponentIssue());
    PassLowered();
    forall x | x in Map(kept, ComponentIssue()) ensures Explained(x, r) {
      var c :| c in kept && x == ComponentIssue()(c);
      FilterMembers(r.score.components, ComponentFails(), c);
      Explains(r, "score", c.name, c.status, c.detail);
    }
    forall name, status, detail | FromScore(r, name, status, detail) ensures Present(Map(kept, ComponentIssue()), "score", name, status, detail) {
      var c :| c in r.score.components && c.status != "" && ToLower(c.status) != "pass"
        && name == c.name && status == c.status && detail == c.detail;
      FilterMembers(r.score.components, ComponentFails(), c);
      MakeIssueIs("score", name, status, detail);
      assert ComponentIssue()(c) in Map(kept, ComponentIssue());
    }
  }

  lemma PassLowered()
    ensures ToLower("pass") == "pass"
  {}

  lemma RowsExplained(r: ReleaseAudit.Report)
    ensures AllExplained(Map(Filter(r.retention.rows, RowFails()), RowIssue()), r)
    ensures forall name, status, detail :: FromRetention(r, name, status, detail) ==>
      Present(Map(Filter(r.retention.rows, RowFails()), RowIssue()), "retention", name, status, detail)
  {
    hide IsIssue, Map, Filter, MakeIssue, TrimSpace;
    var kept := Filter(r.retention.rows, RowFails());
    MapMembers(kept, RowIssue());
    forall x | x in Map(kept, RowIssue()) ensures Explained(x, r) {
      var e :| e in kept && x == RowIssue()(e);
      FilterMembers(r.retention.rows, RowFails(), e);
      Explains(r, "retention", FirstNonEmpty(e.path, e.kind), ReleaseAudit.StatusText(e.status), e.detail);
    }
    forall name, status, detail | FromRetention(r, name, status, detail) ensures Present(Map(kept, RowIssue()), "retention", name, status, detail) {
      var e :| e in r.retention.rows && e.status != Pass
        && name == (if TrimSpace(e.path) == "" then e.kind else e.path)
        && status == (if e.status == Fail then "fail" else "warn") && detail == e.detail;
      FilterMembers(r.retention.rows, RowFails(), e);
      MakeIssueIs("retention", name, status, detail);
      assert RowIssue()(e) in Map(kept, RowIssue());
    }
  }

  lemma PresentIn(kind: string, names: seq<string>, name: string, status: string, detail: string, issues: seq<Issue>)
    requires name in names && forall x :: x in Names(kind, names, status, detail) ==> x in issues
    ensures Present(issues, kind, name, status, detail)
  {
    hide Names, IsIssue;
    NamePresent(kind, names, name, status, detail);
  }

  lemma AttestationExplained(r: ReleaseAudit.Report)
    ensures AllExplained(AttestationIssues(r.evidence.attestation), r)
    ensures |AttestationIssues(r.evidence.attestation)| == |r.evidence.attestation.missing| + |r.evidence.attestation.mismatch| + |r.evidence.attestation.warnings|
  {
    hide IsIssue, Names, FromGate, FromScore, FromRetention, Explained;
    var p := r.evidence.attestation;
    NamesExplained(r, "attestation", p.missing, "fail", "missing attestation field/material");
    NamesExplained(r, "attestation", p.mismatch, "fail", "attestation mismatch");
    NamesExplained(r, "attestation", p.warnings, "warn", "attestation warning");
  }

  lemma AttestationPresent(r: ReleaseAudit.Report, name: string, status: string, detail: string)
    requires FromAttestation(r.evidence.attestation, name, status, detail)
    ensures Present(AttestationIssues(r.evidence.attestation), "attestation", name, status, detail)
  {
    hide IsIssue, Names, Present;
    var p := r.evidence.attestation;
    if NamedIn(p.missing, name, status, detail, "fail", "missing attestation field/material") {
      PresentIn("attestation", p.missing, name, "fail", "missing attestation field/material", AttestationIssues(p));
    } else if NamedIn(p.mismatch, name, status, detail, "fail", "attestation mismatch") {
      PresentIn("attestation", p.mismatch, name, "fail", "attestation mismatch", AttestationIssues(p));
    } else {
      PresentIn("attestation", p.warnings, name, "warn", "attestation warning", AttestationIssues(p));
    }
  }

  lemma SbomExplained(r: ReleaseAudit.Report)
    ensures AllExplained(SbomIssues(r.evidence.sbom), r)
    ensures |SbomIssues(r.evidence.sbom)| == |r.evidence.sbom.issues| + |r.evidence.sbom.added| + |r.evidence.sbom.changed|
  {
    hide IsIssue, Names, FromGate, FromScore, FromRetention, Explained;
    var p := r.evidence.sbom;
    NamesExplained(r, "sbom", p.issues, p.status, "dependency inventory issue");
    NamesExplained(r, "sbom", p.added, "warn", "module added");
    NamesExplained(r, "sbom", p.changed, "warn", "module changed");
  }

  lemma SbomPresent(r: ReleaseAudit.Report, name: string, status: string, detail: string)
    requires FromSbom(r.evidence.sbom, name, status, detail)
    ensures Present(SbomIssues(r.evidence.sbom), "sbom", name, status, detail)
  {
    hide IsIssue, Names, Present;
    var p := r.evidence.sbom;
    if NamedIn(p.issues, name, status, detail, p.status, "dependency inventory issue") {
      PresentIn("sbom", p.issues, name, p.status, "dependency inventory issue", SbomIssues(p));
    } else if NamedIn(p.added, name, status, detail, "warn", "module added") {
      PresentIn("sbom", p.added, name, "warn", "module added", SbomIssues(p));
    } else {
      PresentIn("sbom", p.changed, name, "warn", "module changed", SbomIssues(p));
    }
  }

  lemma ZipExplained(r: ReleaseAudit.Report)
    ensures AllExplained(ZipIssues(r.evidence.zip), r)
    ensures |ZipIssues(r.evidence.zip)| == |r.evidence.zip.issues| + |r.evidence.zip.missing| + |r.evidence.zip.changed| + |r.evidence.zip.extra|
  {
    hide IsIssue, Names, FromGate, FromScore, FromRetention, Explained;
    var p := r.evidence.zip;
    NamesExplained(r, "release_zip", p.issues, p.status, "release ZIP issue");
    NamesExplained(r, "release_zip", p.missing, "fail", "file missing from release ZIP");
    NamesExplained(r, "release_zip", p.changed, "fail", "file changed in release ZIP");
    NamesExplained(r, "release_zip", p.extra, "warn", "extra file in release ZIP");
  }

  lemma ZipPresent(r: ReleaseAudit.Report, name: string, status: string, detail: string)
    requires FromZip(r.evidence.zip, name, status, detail)
    ensures Present(ZipIssues(r.evidence.zip), "release_zip", name, status, detail)
  {
    hide IsIssue, Names, Present;
    var p := r.evidence.zip;
    if NamedIn(p.issues, name, status, detail, p.status, "release ZIP issue") {
      PresentIn("release_zip", p.issues, name, p.status, "release ZIP issue", ZipIssues(p));
    } else if NamedIn(p.missing, name, status, detail, "fail", "file missing from release ZIP") {
      PresentIn("release_zip", p.missing, name, "fail", "file missing from release ZIP", ZipIssues(p));
    } else if NamedIn(p.changed, name, status, detail, "fail", "file changed in release ZIP") {
      PresentIn("release_zip", p.changed, name, "fail", "file changed in release ZIP", ZipIssues(p));
    } else {
      PresentIn("release_zip", p.extra, name, "warn", "extra file in release ZIP", ZipIssues(p));
    }
  }

  function FailingParts(r: ReleaseAudit.Report): nat {
    |Positions(r.gate.checks, CheckFails())| + |Positions(r.score.components, ComponentFails())| + |Positions(r.retention.rows, RowFails())|
  }

  function NamesListed(ev: ReleaseAudit.Evidence): nat {
    |ev.attestation.missing| + |ev.attestation.mismatch| + |ev.attestation.warnings|
    + |ev.sbom.issues| + |ev.sbom.added| + |ev.sbom.changed|
    + |ev.zip.issues| + |ev.zip.missing| + |ev.zip.changed| + |ev.zip.extra|
  }

  lemma FoundCount(r: ReleaseAudit.Report)
    ensures |Found(r)| == FailingParts(r) + NamesListed(r.evidence)
  {
    hide Map, Filter, Positions, AttestationIssues, SbomIssues, ZipIssues, AllExplained;
    MapLength(Filter(r.gate.checks, CheckFails()), CheckIssue());
    MapLength(Filter(r.score.components, ComponentFails()), ComponentIssue());
    MapLength(Filter(r.retention.rows, RowFails()), RowIssue());
    FilterPositions(r.gate.checks, CheckFails());
    FilterPositions(r.score.components, ComponentFails());
    FilterPositions(r.retention.rows, RowFails());
    AttestationExplained(r);
    SbomExplained(r);
    ZipExplained(r);
  }

  lemma FoundExplained(r: ReleaseAudit.Report)
    ensures AllExplained(Found(r), r)
  {
    hide Map, Filter, AttestationIssues, SbomIssues, ZipIssues, Explained;
    ChecksExplained(r);
    ComponentsExplained(r);
    RowsExplained(r);
    AttestationExplained(r);
    SbomExplained(r);
    ZipExplained(r);
  }

  lemma FoundPresent(r: ReleaseAudit.Report, kind: string, name: string, status: string, detail: string)
    requires From(r, kind, name, status, detail)
    ensures Present(Found(r), kind, name, status, detail)
  {
    hide Map, Filter, AttestationIssues, SbomIssues, ZipIssues, Present, IsIssue;
    hide FromGate, FromScore, FromRetention, FromAttestation, FromSbom, FromZip;
    match kind
    case "gate" =>
      ChecksExplained(r);
      StillPresent(Map(Filter(r.gate.checks, CheckFails()), CheckIssue()), Found(r), kind, name, status, detail);
    case "score" =>
      ComponentsExplained(r);
      StillPresent(Map(Filter(r.score.components, ComponentFails()), ComponentIssue()), Found(r), kind, name, status, detail);
    case "retention" =>
      RowsExplained(r);
      StillPresent(Map(Filter(r.retention.rows, RowFails()), RowIssue()), Found(r), kind, name, status, detail);
    case "attestation" =>
      AttestationPresent(r, name, status, detail);
      StillPresent(AttestationIssues(r.evidence.attestation), Found(r), kind, name, status, detail);
    case "sbom" =>
      SbomPresent(r, name, status, detail);
      StillPresent(SbomIssues(r.evidence.sbom), Found(r), kind, name, status, detail);
    case "release_zip" =>
      ZipPresent(r, name, status, detail);
      StillPresent(ZipIssues(r.evidence.zip), Found(r), kind, name, status, detail);
  }

  /** The issues extracted: each of the audit's findings, nothing else, and as many as there are. */
  lemma IssuesAre(r: ReleaseAudit.Report, issues: seq<Issue>)
    requires ExtractedIssues(r, issues)
    ensures |issues| == FailingParts(r) + NamesListed(r.evidence)
    ensures forall x :: x in issues ==> Explained(x, r)
    ensures forall kind, name, status, detail :: From(r, kind, name, status, detail) ==> Present(issues, kind, name, status, detail)
  {
    hide Found, FailingParts, NamesListed, Explained, From, Present, IdLess;
    assert |multiset(issues)| == |issues| && |multiset(Found(r))| == |Found(r)|;
    FoundCount(r);
    FoundExplained(r);
    forall x ensures x in issues <==> x in Found(r) {
      assert x in multiset(issues) <==> x in multiset(Found(r));
    }
    forall kind, name, status, detail | From(r, kind, name, status, detail) ensures Present(issues, kind, name, status, detail) {
      FoundPresent(r, kind, name, status, detail);
      StillPresent(Found(r), issues, kind, name, status, detail);
    }
  }

  /** In order of ids: a later issue's id is nowhere before an earlier one's. */
  lemma IssuesInOrder(r: ReleaseAudit.Report, issues: seq<Issue>, i: nat, j: nat)
    requires ExtractedIssues(r, issues) && i < j < |issues|
    ensures !(exists k: nat :: DiffersAt(issues[j].id, issues[i].id, k))
  {
    hide Found;
    LessIff(issues[j].id, issues[i].id);
  }

  // Matching

  predicate FieldMatches(pattern: string, value: string) {
    pattern == "" || EqualFold(pattern, value)
  }

  predicate RuleMatches(r: Rule, x: Issue) {
    && r.id != ""
    && FieldMatches(r.kind, x.kind) && FieldMatches(r.name, x.name) && FieldMatches(r.status, x.status)
    && (r.contains == "" || Contains(
      ToLower(x.id + " " + x.kind + " " + x.name + " " + x.status + " " + x.detail), ToLower(r.contains)))
  }

  predicate RuleExpired(r: Rule, clock: Clock) {
    r.expiry.ExpiresAt? && clock.At? && r.expiry.at <= clock.now
  }

  /** The matches of one issue, in rule order. */
  function IssueMatches(x: Issue, rules: seq<Rule>, clock: Clock): seq<Match> {
    if rules == [] then [] else
    var r := rules[|rules| - 1];
    IssueMatches(x, rules[..|rules| - 1], clock)
    + if RuleMatches(r, x) then [Match(x.id, r.id, !RuleExpired(r, clock), r.reason)] else []
  }

  function AllMatches(issues: seq<Issue>, rules: seq<Rule>, clock: Clock): seq<Match> {
    if issues == [] then [] else
    AllMatches(issues[..|issues| - 1], rules, clock) + IssueMatches(issues[|issues| - 1], rules, clock)
  }

  /** Is an issue with this id waived by one of the matches? */
  predicate WaivedBy(matches: seq<Match>, id: string) {
    exists i :: 0 <= i < |matches| && matches[i].active && matches[i].issueId == id
  }

  function IsWaived(matches: seq<Match>): Issue -> bool {
    (x: Issue) => WaivedBy(matches, x.id)
  }

  function IsUnwaived(matches: seq<Match>): Issue -> bool {
    (x: Issue) => !WaivedBy(matches, x.id)
  }

  function Remaining(issues: seq<Issue>, matches: seq<Match>): seq<Issue> {
    Filter(issues, IsUnwaived(matches))
  }

  function ExpiredCount(matches: seq<Match>): nat {
    |Filter(matches, (m: Match) => !m.active)|
  }

  /** How a list of unwaived issues is graded: failing if one fails, warning if there is any. */
  function Grade(issues: seq<Issue>): Status {
    if issues == [] then Pass
    else if issues[|issues| - 1].severity == SevFail then Fail
    else if Grade(issues[..|issues| - 1]) == Pass then Warn
    else Grade(issues[..|issues| - 1])
  }

  function IsUnmatched(rules: seq<Rule>, issues: seq<Issue>): Rule -> bool {
    (r: Rule) => !IdMatched(r.id, rules, issues)
  }

  function RuleLabel(r: Rule): string {
    FirstNonEmpty(r.id, "<unnamed>")
  }

  function Unmatched(rules: seq<Rule>, issues: seq<Issue>): seq<string> {
    Map(Filter(rules, IsUnmatched(rules, issues)), RuleLabel)
  }

  /** Does some rule with this id match some issue? */
  predicate IdMatched(id: string, rules: seq<Rule>, issues: seq<Issue>) {
    exists i, j :: 0 <= i < |rules| && 0 <= j < |issues| && rules[i].id == id && RuleMatches(rules[i], issues[j])
  }

  function WaiverReportOf(issues: seq<Issue>, parsed: Parsed, clock: Clock): WaiverReport {
    match parsed
    case ParseError(error) =>
      WaiverReport(Fail, |issues|, 0, |issues|, 0, ["cannot parse waivers: " + error], issues, [])
    case Rules(rules) =>
      var matches := AllMatches(issues, rules, clock);
      var left := Remaining(issues, matches);
      var expired := ExpiredCount(matches);
      var status := if expired != 0 && Grade(left) == Pass then Warn else Grade(left);
      WaiverReport(status, |issues|, |Filter(issues, IsWaived(matches))|, |left|, expired, Unmatched(rules, issues), left, matches)
  }

  // TODO list

  function Title(x: Issue): string {
    (if x.kind == "gate" then "Fix release gate check: "
     else if x.kind == "score" then "Improve release score component: "
     else if x.kind == "retention" then "Update artifact retention for: "
     else if x.kind == "attestation" then "Regenerate or verify provenance attestation: "
     else if x.kind == "sbom" then "Review dependency inventory drift: "
     else if x.kind == "release_zip" then "Refresh release handoff ZIP: "
     else "Review release audit issue: ") + x.name
  }

  function TodoOf(x: Issue): Todo {
    var priority := if x.severity == SevFail then "P0" else if x.kind == "retention" || x.kind == "sbom" then "P1" else "P2";
    Todo(priority, Title(x), x.detail, x.kind + " " + x.name)
  }

  predicate TodoLess(a: Todo, b: Todo) {
    if a.priority != b.priority then Less(a.priority, b.priority) else Less(a.title, b.title)
  }

  function TodoReportOf(issues: seq<Issue>, waivers: WaiverReport): TodoReport {
    var left := Remaining(issues, waivers.matches);
    TodoReport(Grade(left), |left|, Sorting.Sort(Map(left, TodoOf), TodoLess))
  }

  // The loops

  method BuildWaiverReport(issues: seq<Issue>, parsed: Parsed, clock: Clock) returns (r: WaiverReport)
    ensures r == WaiverReportOf(issues, parsed, clock)
  {
    if parsed.ParseError? {
      return WaiverReport(Fail, |issues|, 0, |issues|, 0, ["cannot parse waivers: " + parsed.error], issues, []);
    }
    var rules := parsed.rules;
    var matches, matchedRules := MatchAll(issues, rules, clock);
    var unmatched := ListUnmatched(issues, rules, matchedRules);
    var waived, left, status := Partition(issues, matches);
    var expired := ExpiredCount(matches);
    if expired != 0 && status == Pass {
      status := Warn;
    }
    return WaiverReport(status, |issues|, waived, |left|, expired, unmatched, left, matches);
  }

  predicate HasMatch(id: string, rules: seq<Rule>, x: Issue) {
    exists i :: 0 <= i < |rules| && rules[i].id == id && RuleMatches(rules[i], x)
  }

  lemma HasMatchAppend(id: string, rules: seq<Rule>, r: Rule, x: Issue)
    ensures HasMatch(id, rules + [r], x) <==> HasMatch(id, rules, x) || (r.id == id && RuleMatches(r, x))
  {
    hide RuleMatches;
    var longer := rules + [r];
    if HasMatch(id, rules, x) {
      var i :| 0 <= i < |rules| && rules[i].id == id && RuleMatches(rules[i], x);
      assert longer[i].id == id && RuleMatches(longer[i], x);
    }
    if r.id == id && RuleMatches(r, x) {
      assert longer[|rules|].id == id && RuleMatches(longer[|rules|], x);
    }
  }

  /** Are these the ids of the rules that match one of the first n issues? */
  ghost predicate MatchedIds(ids: set<string>, rules: seq<Rule>, issues: seq<Issue>, n: nat)
    requires n <= |issues|
  {
    forall id :: id in ids <==> IdMatched(id, rules, issues[..n])
  }

  /** The nested loop over issues and rules. */
  method MatchAll(issues: seq<Issue>, rules: seq<Rule>, clock: Clock) returns (matches: seq<Match>, matchedRules: set<string>)
    ensures matches == AllMatches(issues, rules, clock)
    ensures forall id :: id in matchedRules <==> IdMatched(id, rules, issues)
  {
    hide RuleMatches, RuleExpired, HasMatch;
    matches, matchedRules := [], {};
    for n := 0 to |issues|
      invariant matches == AllMatches(issues[..n], rules, clock)
      invariant MatchedIds(matchedRules, rules, issues, n)
    {
      var x := issues[n];
      assert issues[..n + 1] == issues[..n] + [x] && issues[..n + 1][..n] == issues[..n];
      ghost var before := matchedRules;
      assert forall id :: !HasMatch(id, rules[..0], x) by {
        NoRules(rules[..0], x);
      }
      for k := 0 to |rules|
        invariant matches == AllMatches(issues[..n], rules, clock) + IssueMatches(x, rules[..k], clock)
        invariant forall id :: id in matchedRules <==> (id in before || HasMatch(id, rules[..k], x))
      {
        var r := rules[k];
        assert rules[..k + 1] == rules[..k] + [r] && rules[..k + 1][..k] == rules[..k];
        forall id ensures HasMatch(id, rules[..k + 1], x) <==> HasMatch(id, rules[..k], x) || (r.id == id && RuleMatches(r, x)) {
          HasMatchAppend(id, rules[..k], r, x);
        }
        if RuleMatches(r, x) {
          matchedRules := matchedRules + {r.id};
          matches := matches + [Match(x.id, r.id, !RuleExpired(r, clock), r.reason)];
        }
      }
      assert rules[..|rules|] == rules;
      OneMoreIssue(before, matchedRules, rules, issues, n);
    }
    assert issues[..|issues|] == issues;
  }

  lemma NoRules(rules: seq<Rule>, x: Issue)
    requires rules == []
    ensures forall id :: !HasMatch(id, rules, x)
  {}

  lemma OneMoreIssue(before: set<string>, after: set<string>, rules: seq<Rule>, issues: seq<Issue>, n: nat)
    requires n < |issues| && MatchedIds(before, rules, issues, n)
    requires forall id :: id in after <==> (id in before || HasMatch(id, rules, issues[n]))
    ensures MatchedIds(after, rules, issues, n + 1)
  {
    hide RuleMatches;
    var longer := issues[..n + 1];
    forall id ensures id in after <==> IdMatched(id, rules, longer) {
      if IdMatched(id, rules, longer) {
        var i, j :| 0 <= i < |rules| && 0 <= j < |longer| && rules[i].id == id && RuleMatches(rules[i], longer[j]);
        if j < n {
          assert RuleMatches(rules[i], issues[..n][j]);
        }
      }
      if id in before {
        var i, j :| 0 <= i < |rules| && 0 <= j < n && rules[i].id == id && RuleMatches(rules[i], issues[..n][j]);
        assert RuleMatches(rules[i], longer[j]);
      } else if id in after {
        var i :| 0 <= i < |rules| && rules[i].id == id && RuleMatches(rules[i], issues[n]);
        assert RuleMatches(rules[i], longer[n]);
      }
    }
  }

  method ListUnmatched(issues: seq<Issue>, rules: seq<Rule>, matchedRules: set<string>) returns (unmatched: seq<string>)
    requires forall id :: id in matchedRules <==> IdMatched(id, rules, issues)
    ensures unmatched == Unmatched(rules, issues)
  {
    hide IdMatched, RuleLabel;
    unmatched := [];
    for k := 0 to |rules|
      invariant unmatched == Map(Filter(rules[..k], IsUnmatched(rules, issues)), RuleLabel)
    {
      var r := rules[k];
      assert rules[..k + 1] == rules[..k] + [r];
      FilterAppend(rules[..k], r, IsUnmatched(rules, issues));
      if r.id !in matchedRules {
        MapAppend(Filter(rules[..k], IsUnmatched(rules, issues)), r, RuleLabel);
        unmatched := unmatched + [RuleLabel(r)];
      } else {
        assert Filter(rules[..k + 1], IsUnmatched(rules, issues)) == Filter(rules[..k], IsUnmatched(rules, issues));
      }
    }
    assert rules[..|rules|] == rules;
  }

  /** The loop that counts the waived issues and keeps and grades the others. */
  method Partition(issues: seq<Issue>, matches: seq<Match>) returns (waived: nat, left: seq<Issue>, status: Status)
    ensures left == Remaining(issues, matches) && waived == |Filter(issues, IsWaived(matches))| && status == Grade(left)
  {
    hide WaivedBy;
    waived, left, status := 0, [], Pass;
    for n := 0 to |issues|
      invariant left == Remaining(issues[..n], matches) && waived == |Filter(issues[..n], IsWaived(matches))| && status == Grade(left)
    {
      var x := issues[n];
      assert issues[..n + 1] == issues[..n] + [x];
      FilterAppend(issues[..n], x, IsUnwaived(matches));
      FilterAppend(issues[..n], x, IsWaived(matches));
      if WaivedBy(matches, x.id) {
        waived := waived + 1;
      } else {
        ghost var before := left;
        left := left + [x];
        assert left[..|left| - 1] == before;
        if x.severity == SevFail {
          status := Fail;
        } else if status == Pass {
          status := Warn;
        }
      }
    }
    assert issues[..|issues|] == issues;
  }

  method BuildTodoReport(issues: seq<Issue>, waivers: WaiverReport) returns (r: TodoReport)
    ensures r == TodoReportOf(issues, waivers)
  {
    hide TodoOf, WaivedBy;
    var todos: seq<Todo> := [];
    var status := Pass;
    ghost var left: seq<Issue> := [];
    for n := 0 to |issues|
      invariant left == Remaining(issues[..n], waivers.matches)
      invariant todos == Map(left, TodoOf) && status == Grade(left) && |todos| == |left|
    {
      var x := issues[n];
      assert issues[..n + 1] == issues[..n] + [x];
      FilterAppend(issues[..n], x, IsUnwaived(waivers.matches));
      if !WaivedBy(waivers.matches, x.id) {
        MapAppend(left, x, TodoOf);
        todos := todos + [TodoOf(x)];
        ghost var before := left;
        left := left + [x];
        assert left[..|left| - 1] == before;
        if x.severity == SevFail {
          status := Fail;
        } else if status == Pass {
          status := Warn;
        }
      }
    }
    assert issues[..|issues|] == issues;
    r := TodoReport(status, |todos|, Sorting.Sort(todos, TodoLess));
  }

  // Grades

  lemma {:induction false} GradeMeans(issues: seq<Issue>)
    ensures Grade(issues) == Pass <==> issues == []
    ensures Grade(issues) == Fail <==> exists i :: 0 <= i < |issues| && issues[i].severity == SevFail
    decreases |issues|
  {
    if issues != [] {
      var n := |issues| - 1;
      GradeMeans(issues[..n]);
      assert forall i :: 0 <= i < n ==> issues[..n][i] == issues[i];
      if Grade(issues[..n]) == Fail {
        var i :| 0 <= i < n && issues[..n][i].severity == SevFail;
        assert issues[i].severity == SevFail;
      }
    }
  }

  /** Fewer issues never grade worse. */
  lemma GradeMonotone(a: seq<Issue>, b: seq<Issue>)
    requires multiset(a) <= multiset(b)
    ensures Rank(Grade(a)) <= Rank(Grade(b))
  {
    GradeMeans(a);
    GradeMeans(b);
    if Grade(a) == Fail {
      var i :| 0 <= i < |a| && a[i].severity == SevFail;
      assert a[i] in multiset(a) && a[i] in multiset(b) && a[i] in b;
    }
    if a != [] {
      assert a[0] in multiset(a) && a[0] in multiset(b);
    }
  }

  // What is waived

  lemma {:induction false} IssueMatched(x: Issue, rules: seq<Rule>, clock: Clock, id: string)
    ensures WaivedBy(IssueMatches(x, rules, clock), id)
      <==> x.id == id && exists k :: 0 <= k < |rules| && RuleMatches(rules[k], x) && !RuleExpired(rules[k], clock)
    decreases |rules|
  {
    hide RuleMatches, RuleExpired;
    if rules != [] {
      var n := |rules| - 1;
      IssueMatched(x, rules[..n], clock, id);
      assert forall k :: 0 <= k < n ==> rules[..n][k] == rules[k];
      var one := if RuleMatches(rules[n], x) then [Match(x.id, rules[n].id, !RuleExpired(rules[n], clock), rules[n].reason)] else [];
      WaivedByAppend(IssueMatches(x, rules[..n], clock), one, id);
      if exists k :: 0 <= k < n && RuleMatches(rules[..n][k], x) && !RuleExpired(rules[..n][k], clock) {
        var k :| 0 <= k < n && RuleMatches(rules[..n][k], x) && !RuleExpired(rules[..n][k], clock);
        assert RuleMatches(rules[k], x) && !RuleExpired(rules[k], clock);
      }
      if WaivedBy(one, id) {
        assert RuleMatches(rules[n], x) && !RuleExpired(rules[n], clock);
      } else if x.id == id && RuleMatches(rules[n], x) && !RuleExpired(rules[n], clock) {
        assert one[0].active && one[0].issueId == id;
      }
    }
  }

  lemma WaivedByAppend(a: seq<Match>, b: seq<Match>, id: string)
    ensures WaivedBy(a + b, id) <==> WaivedBy(a, id) || WaivedBy(b, id)
  {
    if WaivedBy(a, id) {
      var i :| 0 <= i < |a| && a[i].active && a[i].issueId == id;
      assert (a + b)[i] == a[i];
    }
    if WaivedBy(b, id) {
      var i :| 0 <= i < |b| && b[i].active && b[i].issueId == id;
      assert (a + b)[|a| + i] == b[i];
    }
  }

  /** Some unexpired rule matches an issue with this id. */
  predicate Covered(issues: seq<Issue>, rules: seq<Rule>, clock: Clock, id: string) {
    exists j, k :: 0 <= j < |issues| && 0 <= k < |rules|
      && issues[j].id == id && RuleMatches(rules[k], issues[j]) && !RuleExpired(rules[k], clock)
  }

  /** An issue is waived exactly when an unexpired rule matches it or another issue with its id. */
  lemma {:induction false} WaivedIffCovered(issues: seq<Issue>, rules: seq<Rule>, clock: Clock, id: string)
    ensures WaivedBy(AllMatches(issues, rules, clock), id) <==> Covered(issues, rules, clock, id)
    decreases |issues|
  {
    hide RuleMatches, RuleExpired, WaivedBy, IssueMatches;
    if issues != [] {
      var n := |issues| - 1;
      var before := issues[..n];
      WaivedIffCovered(before, rules, clock, id);
      IssueMatched(issues[n], rules, clock, id);
      WaivedByAppend(AllMatches(before, rules, clock), IssueMatches(issues[n], rules, clock), id);
      CoveredAppend(issues, rules, clock, id);
    } else {
      NothingWaived(id);
    }
  }

  lemma NothingWaived(id: string)
    ensures !WaivedBy([], id)
  {}

  lemma CoveredAppend(issues: seq<Issue>, rules: seq<Rule>, clock: Clock, id: string)
    requires issues != []
    ensures var x := issues[|issues| - 1];
      Covered(issues, rules, clock, id) <==> (Covered(issues[..|issues| - 1], rules, clock, id)
        || (x.id == id && exists k :: 0 <= k < |rules| && RuleMatches(rules[k], x) && !RuleExpired(rules[k], clock)))
  {
    hide RuleMatches, RuleExpired;
    var n := |issues| - 1;
    var before := issues[..n];
    if Covered(before, rules, clock, id) {
      var j, k :| 0 <= j < |before| && 0 <= k < |rules|
        && before[j].id == id && RuleMatches(rules[k], before[j]) && !RuleExpired(rules[k], clock);
      assert issues[j].id == id && RuleMatches(rules[k], issues[j]);
    }
    if Covered(issues, rules, clock, id) {
      var j, k :| 0 <= j < |issues| && 0 <= k < |rules|
        && issues[j].id == id && RuleMatches(rules[k], issues[j]) && !RuleExpired(rules[k], clock);
      if j < n {
        assert before[j].id == id && RuleMatches(rules[k], before[j]);
      }
    }
  }

  // Agreement of the two reports

  function StatusFromTodo(todo: Status, report: WaiverReport): Status {
    if report.expired != 0 && todo == Pass then Warn else todo
  }

  /**
   Built from the same audit, whatever order each gets its issues in, the TODO list has one item
   for each unwaived issue of the waiver report, and its status is the report's, but for a parse
   failure or the warning about expired waivers.
   */
  lemma ReportsAgree(issues: seq<Issue>, issues': seq<Issue>, parsed: Parsed, clock: Clock)
    requires multiset(issues) == multiset(issues')
    ensures var r := WaiverReportOf(issues, parsed, clock);
      var t := TodoReportOf(issues', r);
      && multiset(t.todos) == multiset(Map(r.issues, TodoOf))
      && t.count == r.unwaived == |t.todos|
      && r.waived + r.unwaived == r.issueCount == |issues|
      && (parsed.Rules? ==> r.status == StatusFromTodo(t.status, r))
      && (parsed.ParseError? ==> r.status == Fail && r.issues == issues)
  {
    hide TodoOf, WaivedBy, Sorting.Sort, AllMatches;
    var r := WaiverReportOf(issues, parsed, clock);
    FilterPermuted(issues, issues', IsUnwaived(r.matches));
    FilterSplits(issues, IsWaived(r.matches), IsUnwaived(r.matches));
    if parsed.ParseError? {
      AllRemain(issues);
    }
    assert Remaining(issues, r.matches) == r.issues;
    var left := Remaining(issues', r.matches);
    MapPermuted(r.issues, left, TodoOf);
    Sorting.SortPermutes(Map(left, TodoOf), TodoLess);
    SameLength(left);
    SortLength(Map(left, TodoOf));
    GradeMonotone(r.issues, left);
    GradeMonotone(left, r.issues);
    SameRank(Grade(left), Grade(r.issues));
  }

  /** The same, for the two reports built from one release audit. */
  lemma AuditReportsAgree(r: ReleaseAudit.Report, issues: seq<Issue>, issues': seq<Issue>, parsed: Parsed, clock: Clock)
    requires ExtractedIssues(r, issues) && ExtractedIssues(r, issues')
    ensures var w := WaiverReportOf(issues, parsed, clock);
      var t := TodoReportOf(issues', w);
      && multiset(t.todos) == multiset(Map(w.issues, TodoOf))
      && t.count == w.unwaived && w.waived + w.unwaived == w.issueCount == |Found(r)|
      && (parsed.Rules? ==> w.status == StatusFromTodo(t.status, w))
  {
    hide TodoOf, Found, WaiverReportOf, TodoReportOf, IdLess;
    var w := WaiverReportOf(issues, parsed, clock);
    ReportsAgree(issues, issues', parsed, clock);
    assert |multiset(issues)| == |issues| && |multiset(Found(r))| == |Found(r)|;
  }

  lemma SameRank(a: Status, b: Status)
    requires Rank(a) == Rank(b)
    ensures a == b
  {}

  lemma {:induction false} SameLength(s: seq<Issue>)
    ensures |Map(s, TodoOf)| == |s|
    decreases |s|
  {
    if s != [] {
      SameLength(s[..|s| - 1]);
    }
  }

  lemma SortLength(s: seq<Todo>)
    ensures |Sorting.Sort(s, TodoLess)| == |s|
  {
    Sorting.SortPermutes(s, TodoLess);
    assert |multiset(s)| == |s| && |multiset(Sorting.Sort(s, TodoLess))| == |Sorting.Sort(s, TodoLess)|;
  }

  lemma {:induction false} AllRemain(issues: seq<Issue>)
    ensures Remaining(issues, []) == issues
    decreases |issues|
  {
    if issues != [] {
      AllRemain(issues[..|issues| - 1]);
    }
  }

  // Adding a rule

  function WithRule(rules: seq<Rule>, k: nat, r: Rule): seq<Rule>
    requires k <= |rules|
  {
    rules[..k] + [r] + rules[k..]
  }

  lemma CoveredWithRule(issues: seq<Issue>, rules: seq<Rule>, k: nat, r: Rule, clock: Clock, id: string)
    requires k <= |rules|
    ensures Covered(issues, rules, clock, id) ==> Covered(issues, WithRule(rules, k, r), clock, id)
    ensures RuleExpired(r, clock) && Covered(issues, WithRule(rules, k, r), clock, id) ==> Covered(issues, rules, clock, id)
  {
    hide RuleMatches, RuleExpired;
    var more := WithRule(rules, k, r);
    if Covered(issues, rules, clock, id) {
      var j, i :| 0 <= j < |issues| && 0 <= i < |rules|
        && issues[j].id == id && RuleMatches(rules[i], issues[j]) && !RuleExpired(rules[i], clock);
      var at := if i < k then i else i + 1;
      assert more[at] == rules[i];
    }
    if RuleExpired(r, clock) && Covered(issues, more, clock, id) {
      var j, i :| 0 <= j < |issues| && 0 <= i < |more|
        && issues[j].id == id && RuleMatches(more[i], issues[j]) && !RuleExpired(more[i], clock);
      var at := if i < k then i else i - 1;
      assert i != k;
      assert more[i] == rules[at];
    }
  }

  /** Expired matches are counted rule by rule. */
  lemma {:induction false} IssueExpiredAppend(x: Issue, a: seq<Rule>, b: seq<Rule>, clock: Clock)
    ensures IssueMatches(x, a + b, clock) == IssueMatches(x, a, clock) + IssueMatches(x, b, clock)
    decreases |b|
  {
    if b == [] {
      assert a + b == a;
    } else {
      IssueExpiredAppend(x, a, b[..|b| - 1], clock);
      assert (a + b)[..|a + b| - 1] == a + b[..|b| - 1];
    }
  }

  lemma ExpiredAppend(a: seq<Match>, b: seq<Match>)
    ensures ExpiredCount(a + b) == ExpiredCount(a) + ExpiredCount(b)
  {
    FilterSplit(a, b, (m: Match) => !m.active);
  }

  lemma IssueExpiredWithRule(x: Issue, rules: seq<Rule>, k: nat, r: Rule, clock: Clock)
    requires k <= |rules|
    ensures ExpiredCount(IssueMatches(x, WithRule(rules, k, r), clock))
      == ExpiredCount(IssueMatches(x, rules, clock)) + if RuleMatches(r, x) && RuleExpired(r, clock) then 1 else 0
  {
    hide RuleMatches, RuleExpired, ExpiredCount, IssueMatches;
    var a, b := rules[..k], rules[k..];
    assert rules == a + b;
    IssueExpiredAppend(x, a + [r], b, clock);
    IssueExpiredAppend(x, a, [r], clock);
    IssueExpiredAppend(x, a, b, clock);
    ExpiredAppend(IssueMatches(x, a, clock) + IssueMatches(x, [r], clock), IssueMatches(x, b, clock));
    ExpiredAppend(IssueMatches(x, a, clock), IssueMatches(x, [r], clock));
    ExpiredAppend(IssueMatches(x, a, clock), IssueMatches(x, b, clock));
    OneRule(x, r, clock);
  }

  lemma OneRule(x: Issue, r: Rule, clock: Clock)
    ensures ExpiredCount(IssueMatches(x, [r], clock)) == if RuleMatches(r, x) && RuleExpired(r, clock) then 1 else 0
  {
    hide RuleMatches, RuleExpired;
    assert [r][..0] == [];
    assert IssueMatches(x, [r][..0], clock) == [];
    var expired := (m: Match) => !m.active;
    var m := Match(x.id, r.id, !RuleExpired(r, clock), r.reason);
    assert Filter([], expired) == [] && [] + [m] == [m];
    FilterAppend([], m, expired);
    assert IssueMatches(x, [r], clock) == if RuleMatches(r, x) then [m] else [];
  }

  /** A rule adds expired matches only if it has expired. */
  lemma {:induction false} ExpiredWithRule(issues: seq<Issue>, rules: seq<Rule>, k: nat, r: Rule, clock: Clock)
    requires k <= |rules|
    ensures ExpiredCount(AllMatches(issues, rules, clock)) <= ExpiredCount(AllMatches(issues, WithRule(rules, k, r), clock))
    ensures !RuleExpired(r, clock) ==>
      ExpiredCount(AllMatches(issues, rules, clock)) == ExpiredCount(AllMatches(issues, WithRule(rules, k, r), clock))
    decreases |issues|
  {
    hide RuleMatches, RuleExpired, ExpiredCount, IssueMatches;
    if issues != [] {
      var before, x := issues[..|issues| - 1], issues[|issues| - 1];
      ExpiredWithRule(before, rules, k, r, clock);
      IssueExpiredWithRule(x, rules, k, r, clock);
      ExpiredAppend(AllMatches(before, rules, clock), IssueMatches(x, rules, clock));
      ExpiredAppend(AllMatches(before, WithRule(rules, k, r), clock), IssueMatches(x, WithRule(rules, k, r), clock));
    }
  }

  lemma RemainingWithRule(issues: seq<Issue>, rules: seq<Rule>, k: nat, r: Rule, clock: Clock)
    requires k <= |rules|
    ensures var m, m' := AllMatches(issues, rules, clock), AllMatches(issues, WithRule(rules, k, r), clock);
      && multiset(Remaining(issues, m')) <= multiset(Remaining(issues, m))
      && |Remaining(issues, m')| <= |Remaining(issues, m)|
      && (RuleExpired(r, clock) ==>
        Remaining(issues, m') == Remaining(issues, m) && Filter(issues, IsWaived(m')) == Filter(issues, IsWaived(m)))
  {
    hide RuleMatches, RuleExpired, AllMatches, WaivedBy, Covered, WithRule;
    var m, m' := AllMatches(issues, rules, clock), AllMatches(issues, WithRule(rules, k, r), clock);
    forall id ensures (WaivedBy(m, id) ==> WaivedBy(m', id)) && (RuleExpired(r, clock) ==> WaivedBy(m, id) == WaivedBy(m', id)) {
      WaivedIffCovered(issues, rules, clock, id);
      WaivedIffCovered(issues, WithRule(rules, k, r), clock, id);
      CoveredWithRule(issues, rules, k, r, clock, id);
    }
    FilterShrinks(issues, IsUnwaived(m), IsUnwaived(m'));
    if RuleExpired(r, clock) {
      FilterSame(issues, IsUnwaived(m'), IsUnwaived(m));
      FilterSame(issues, IsWaived(m'), IsWaived(m));
    }
  }

  /** Adding an expired rule, anywhere, waives nothing; it can only turn a pass into a warning. */
  lemma ExpiredRuleWaivesNothing(issues: seq<Issue>, rules: seq<Rule>, k: nat, r: Rule, clock: Clock)
    requires k <= |rules| && RuleExpired(r, clock)
    ensures var a, b := WaiverReportOf(issues, Rules(rules), clock), WaiverReportOf(issues, Rules(WithRule(rules, k, r)), clock);
      && b.waived == a.waived && b.unwaived == a.unwaived && b.issues == a.issues
      && (b.status == a.status || (a.status == Pass && b.status == Warn))
  {
    hide RuleExpired, AllMatches, ExpiredCount, WaivedBy, WithRule, Unmatched;
    RemainingWithRule(issues, rules, k, r, clock);
    ExpiredWithRule(issues, rules, k, r, clock);
  }

  /** Adding an unexpired rule, anywhere, never leaves more unwaived nor worsens the status. */
  lemma UnexpiredRuleHelps(issues: seq<Issue>, rules: seq<Rule>, k: nat, r: Rule, clock: Clock)
    requires k <= |rules| && !RuleExpired(r, clock)
    ensures var a, b := WaiverReportOf(issues, Rules(rules), clock), WaiverReportOf(issues, Rules(WithRule(rules, k, r)), clock);
      && multiset(b.issues) <= multiset(a.issues) && b.unwaived <= a.unwaived
      && Rank(b.status) <= Rank(a.status)
  {
    hide RuleExpired, AllMatches, ExpiredCount, WaivedBy, WithRule, Unmatched, Remaining;
    RemainingWithRule(issues, rules, k, r, clock);
    ExpiredWithRule(issues, rules, k, r, clock);
    GradeMonotone(WaiverReportOf(issues, Rules(WithRule(rules, k, r)), clock).issues, WaiverReportOf(issues, Rules(rules), clock).issues);
  }

  /**
   Whether a past expiry is heeded hangs on the check time alone: with one, the rule waives nothing
   (above); without one, every rule that matches an issue waives it, however long ago it expired.
   */
  lemma NoClockNoExpiry(issues: seq<Issue>, rules: seq<Rule>, x: Issue, r: Rule)
    requires x in issues && r in rules && RuleMatches(r, x)
    ensures x !in WaiverReportOf(issues, Rules(rules), NoClock).issues
  {
    hide RuleMatches, AllMatches, WaivedBy;
    var j :| 0 <= j < |issues| && issues[j] == x;
    var k :| 0 <= k < |rules| && rules[k] == r;
    assert RuleMatches(rules[k], issues[j]) && !RuleExpired(rules[k], NoClock);
    WaivedIffCovered(issues, rules, NoClock, x.id);
    FilterMembers(issues, IsUnwaived(AllMatches(issues, rules, NoClock)), x);
  }

  // Rules and TODOs in their own terms

  ghost predicate StandsAt(pattern: string, text: string, i: nat) {
    i + |pattern| <= |text| && ToLower(text[i..i + |pattern|]) == ToLower(pattern)
  }

  /** Does the pattern stand somewhere in the text, whatever the case of their letters? */
  ghost predicate StandsIn(pattern: string, text: string) {
    exists i: nat :: StandsAt(pattern, text, i)
  }

  ghost predicate SameOrAny(pattern: string, value: string) {
    |pattern| > 0 ==> ToLower(pattern) == ToLower(value)
  }

  /** A rule without id matches nothing; each field it fills in narrows it. */
  lemma RuleMatchesIff(r: Rule, x: Issue)
    ensures RuleMatches(r, x) <==>
      && |r.id| > 0
      && SameOrAny(r.kind, x.kind) && SameOrAny(r.name, x.name) && SameOrAny(r.status, x.status)
      && StandsIn(r.contains, x.id + " " + x.kind + " " + x.name + " " + x.status + " " + x.detail)
  {
    hide ToLower;
    ContainsIff(r.contains, x.id + " " + x.kind + " " + x.name + " " + x.status + " " + x.detail);
    if r.contains == "" {
      EmptyStands(x.id + " " + x.kind + " " + x.name + " " + x.status + " " + x.detail);
    }
  }

  lemma EmptyStands(text: string)
    ensures StandsIn("", text)
  {
    assert text[0..0] == "";
    assert StandsAt("", text, 0);
  }

  lemma StandsAtIff(pattern: string, text: string, i: nat)
    ensures OccursAt(ToLower(text), ToLower(pattern), i) <==> StandsAt(pattern, text, i)
  {
    hide ToLower;
    if i + |pattern| <= |text| {
      LowerPart(text, i, i + |pattern|);
    }
  }

  lemma ContainsIff(pattern: string, text: string)
    ensures Contains(ToLower(text), ToLower(pattern)) <==> StandsIn(pattern, text)
  {
    hide ToLower, OccursAt, StandsAt;
    forall i: nat ensures OccursAt(ToLower(text), ToLower(pattern), i) <==> StandsAt(pattern, text, i) {
      StandsAtIff(pattern, text, i);
    }
    if i: nat :| StandsAt(pattern, text, i) {
      OccursWithin(ToLower(text), ToLower(pattern), i);
    }
  }

  lemma OccursWithin(text: string, pattern: string, i: nat)
    requires OccursAt(text, pattern, i)
    ensures Contains(text, pattern)
  {}

  lemma LowerPart(text: string, i: nat, j: nat)
    requires i <= j <= |text|
    ensures ToLower(text)[i..j] == ToLower(text[i..j])
  {}

  /** A rule has expired if both times are known and its own is not after the check. */
  lemma RuleExpiredIff(r: Rule, clock: Clock)
    ensures RuleExpired(r, clock) <==> clock.At? && r.expiry.ExpiresAt? && !(clock.now < r.expiry.at)
  {}

  const TITLES := map[
    "gate" := "Fix release gate check: ",
    "score" := "Improve release score component: ",
    "retention" := "Update artifact retention for: ",
    "attestation" := "Regenerate or verify provenance attestation: ",
    "sbom" := "Review dependency inventory drift: ",
    "release_zip" := "Refresh release handoff ZIP: "]

  lemma TodoMeans(x: Issue)
    ensures TodoOf(x).priority == (if x.severity == SevFail then "P0" else if x.kind in {"retention", "sbom"} then "P1" else "P2")
    ensures TodoOf(x).detail == x.detail && TodoOf(x).query == x.kind + " " + x.name
    ensures TodoOf(x).title == (if x.kind in TITLES then TITLES[x.kind] else "Review release audit issue: ") + x.name
  {
    TitleMeans(x);
    hide Title;
  }

  lemma TitleMeans(x: Issue)
    ensures Title(x) == (if x.kind in TITLES then TITLES[x.kind] else "Review release audit issue: ") + x.name
  {
    var k := x.kind;
    assert TITLES.Keys == {"gate", "score", "retention", "attestation", "sbom", "release_zip"};
    assert k in TITLES <==> k == "gate" || k == "score" || k == "retention" || k == "attestation" || k == "sbom" || k == "release_zip";
  }

  lemma TodoLessOrders(s: multiset<Todo>)
    ensures Sorting.Orders(TodoLess, s)
  {
    hide Less;
    forall x, y | x in s && y in s && TodoLess(x, y) ensures !TodoLess(y, x) {
      LessAsymmetric(x.priority, y.priority);
      LessAsymmetric(x.title, y.title);
    }
    forall x, y, z | x in s && y in s && z in s && TodoLess(x, y) && !TodoLess(z, y) ensures TodoLess(x, z) {
      TodoLessWeak(x, y, z);
    }
  }

  lemma TodoLessWeak(x: Todo, y: Todo, z: Todo)
    requires TodoLess(x, y) && !TodoLess(z, y)
    ensures TodoLess(x, z)
  {
    hide Less;
    LessTotal(y.priority, z.priority);
    LessTotal(y.title, z.title);
    LessAsymmetric(y.priority, z.priority);
    LessAsymmetric(x.priority, y.priority);
    if Less(x.priority, y.priority) && Less(y.priority, z.priority) {
      LessTransitive(x.priority, y.priority, z.priority);
    }
    if Less(x.title, y.title) && Less(y.title, z.title) {
      LessTransitive(x.title, y.title, z.title);
    }
  }

  /** TODOs come by rising priority number, and by title within one. */
  lemma TodosInOrder(issues: seq<Issue>, waivers: WaiverReport, i: nat, j: nat)
    requires i < j < |TodoReportOf(issues, waivers).todos|
    ensures var a, b := TodoReportOf(issues, waivers).todos[i], TodoReportOf(issues, waivers).todos[j];
      && !(exists k: nat :: DiffersAt(b.priority, a.priority, k))
      && (a.priority == b.priority ==> !(exists k: nat :: DiffersAt(b.title, a.title, k)))
  {
    hide Remaining, TodoOf, Sorting.Sort, Map;
    var unsorted := Map(Remaining(issues, waivers.matches), TodoOf);
    var todos := Sorting.Sort(unsorted, TodoLess);
    TodoLessOrders(multiset(unsorted));
    Sorting.SortSorted(unsorted, TodoLess);
    assert !TodoLess(todos[j], todos[i]);
    LessIff(todos[j].priority, todos[i].priority);
    LessIff(todos[j].title, todos[i].title);
  }

  ghost predicate MatchOf(m: Match, x: Issue, r: Rule, clock: Clock) {
    RuleMatches(r, x) && m == Match(x.id, r.id, !RuleExpired(r, clock), r.reason)
  }

  lemma {:induction false} IssueMatchesAre(x: Issue, rules: seq<Rule>, clock: Clock, m: Match)
    ensures m in IssueMatches(x, rules, clock) <==> exists r :: r in rules && MatchOf(m, x, r, clock)
    decreases |rules|
  {
    hide RuleMatches, RuleExpired;
    if rules != [] {
      var front, last := rules[..|rules| - 1], rules[|rules| - 1];
      IssueMatchesAre(x, front, clock, m);
      assert forall r :: r in rules <==> r in front || r == last by {
        assert rules == front + [last];
      }
      assert m in IssueMatches(x, rules, clock) <==> m in IssueMatches(x, front, clock) || MatchOf(m, x, last, clock);
    }
  }

  /** A match for each issue and rule that go together, active unless the rule has expired. */
  lemma {:induction false} MatchesAre(issues: seq<Issue>, rules: seq<Rule>, clock: Clock, m: Match)
    ensures m in AllMatches(issues, rules, clock) <==> exists x, r :: x in issues && r in rules && MatchOf(m, x, r, clock)
    decreases |issues|
  {
    hide MatchOf, IssueMatches;
    if issues != [] {
      MatchesAre(issues[..|issues| - 1], rules, clock, m);
      IssueMatchesAre(issues[|issues| - 1], rules, clock, m);
      assert issues == issues[..|issues| - 1] + [issues[|issues| - 1]];
    }
  }

  ghost predicate NoneWithId(id: string, rules: seq<Rule>, issues: seq<Issue>) {
    forall r, x :: r in rules && x in issues && RuleMatches(r, x) ==> r.id != id
  }

  /** A rule is listed as unmatched, by its id or as unnamed, if no issue matches a rule with its id. */
  lemma UnmatchedAre(rules: seq<Rule>, issues: seq<Issue>, text: string)
    ensures text in Unmatched(rules, issues) <==> (exists r ::
      r in rules && NoneWithId(r.id, rules, issues) && text == if TrimSpace(r.id) == "" then "<unnamed>" else r.id)
  {
    hide RuleMatches, TrimSpace, Map, Filter;
    var kept := Filter(rules, IsUnmatched(rules, issues));
    MapMembers(kept, RuleLabel);
    forall r ensures r in kept <==> r in rules && NoneWithId(r.id, rules, issues) {
      FilterMembers(rules, IsUnmatched(rules, issues), r);
      IdMatchedIff(r.id, rules, issues);
    }
    if r :| r in rules && NoneWithId(r.id, rules, issues) && text == if TrimSpace(r.id) == "" then "<unnamed>" else r.id {
      assert RuleLabel(r) in Map(kept, RuleLabel);
    }
  }

  lemma IdMatchedIff(id: string, rules: seq<Rule>, issues: seq<Issue>)
    ensures IdMatched(id, rules, issues) <==> !NoneWithId(id, rules, issues)
  {
    hide RuleMatches;
    if i, j :| 0 <= i < |rules| && 0 <= j < |issues| && rules[i].id == id && RuleMatches(rules[i], issues[j]) {
      assert rules[i] in rules && issues[j] in issues;
    }
  }
}
