/** Artifact retention (BuildRetentionAudit in internal/analyze/ci_audit_ext7.go). */
module Retention {
  import Text
  import opened Seqs
  import Sorting

  datatype Status = Pass | Warn | Fail

  function Rank(s: Status): nat {
    match s
    case Pass => 0
    case Warn => 1
    case Fail => 2
  }

  /** Is max' at least as strict a limit as max?  Negative maxima mean no limit. */
  predicate TighterMax(max: int, max': int) {
    max < 0 || 0 <= max' <= max
  }

  /** How a report's status takes in the status of one more part. */
  function Worsen(report: Status, part: Status): Status {
    if part == Fail then Fail else if part == Warn && report == Pass then Warn else report
  }

  /** An instant is a number of nanoseconds; a failed parse keeps its error text. */
  datatype Expiry = NoExpiry | BadExpiry(error: string) | ExpiresAt(at: int)

  datatype Entry = Entry(path: string, kind: string, retainDays: int, expiry: Expiry)

  datatype Manifest = Manifest(schemaVersion: string, entries: seq<Entry>)

  datatype Row = Row(path: string, kind: string, status: Status, retainDays: int, expiry: Expiry, daysRemaining: int, detail: string)

  datatype Audit = Audit(
    status: Status,
    entryCount: nat,
    expired: nat,
    expiringSoon: nat,
    belowMinimum: nat,
    missingExpiry: nat,
    warnings: seq<string>,
    rows: seq<Row>)

  const DAY := 24 * 60 * 60 * 1_000_000_000
  const MAX_DURATION := 0x7fff_ffff_ffff_ffff

  /** time.Time.Sub saturates. */
  function Sub(t: int, now: int): int {
    var d := t - now;
    if d > MAX_DURATION then MAX_DURATION else if d < -MAX_DURATION - 1 then -MAX_DURATION - 1 else d
  }

  /** int(d.Hours() / 24) drops the fraction towards zero. */
  function WholeDays(d: int): int {
    if d >= 0 then d / DAY else -(-d / DAY)
  }

  // What the audit looks for in an entry

  predicate BelowMinimum(e: Entry, minDays: int) {
    minDays > 0 && e.retainDays < minDays
  }

  predicate Expired(e: Entry, now: int) {
    e.expiry.ExpiresAt? && e.expiry.at <= now
  }

  predicate ExpiringSoon(e: Entry, now: int, soonDays: int) {
    && e.expiry.ExpiresAt? && e.expiry.at > now
    && soonDays > 0 && WholeDays(Sub(e.expiry.at, now)) <= soonDays
  }

  predicate Unclear(e: Entry) {
    !e.expiry.ExpiresAt?
  }

  function RowStatus(e: Entry, now: int, minDays: int, soonDays: int): Status {
    if BelowMinimum(e, minDays) || Expired(e, now) then Fail
    else if Unclear(e) || ExpiringSoon(e, now, soonDays) then Warn
    else Pass
  }

  function RowDetail(e: Entry, now: int, minDays: int, soonDays: int): string {
    if Expired(e, now) then "expired"
    else if BelowMinimum(e, minDays) then "retention below minimum"
    else if e.expiry.NoExpiry? then "missing expiry"
    else if e.expiry.BadExpiry? then "bad expiry timestamp"
    else if ExpiringSoon(e, now, soonDays) then "expiring soon"
    else ""
  }

  function RowOf(e: Entry, now: int, minDays: int, soonDays: int): Row {
    Row(e.path, e.kind, RowStatus(e, now, minDays, soonDays), e.retainDays, e.expiry,
      if e.expiry.ExpiresAt? then WholeDays(Sub(e.expiry.at, now)) else 0,
      RowDetail(e, now, minDays, soonDays))
  }

  function Rows(entries: seq<Entry>, now: int, minDays: int, soonDays: int): seq<Row> {
    seq(|entries|, i requires 0 <= i < |entries| => RowOf(entries[i], now, minDays, soonDays))
  }

  function IsExpired(now: int): Entry -> bool {
    (e: Entry) => Expired(e, now)
  }

  function IsExpiringSoon(now: int, soonDays: int): Entry -> bool {
    (e: Entry) => ExpiringSoon(e, now, soonDays)
  }

  function IsBelow(minDays: int): Entry -> bool {
    (e: Entry) => BelowMinimum(e, minDays)
  }

  function IsMissing(): Entry -> bool {
    (e: Entry) => e.expiry.NoExpiry?
  }

  function CountIf(entries: seq<Entry>, p: Entry -> bool): nat {
    |Filter(entries, p)|
  }

  function BadExpiryWarnings(entries: seq<Entry>): seq<string> {
    if entries == [] then [] else
    var e := entries[|entries| - 1];
    BadExpiryWarnings(entries[..|entries| - 1])
    + if e.expiry.BadExpiry? then ["bad expiry for " + e.path + ": " + e.expiry.error] else []
  }

  function ManifestWarnings(ret: Manifest): seq<string> {
    (if ret.schemaVersion == "" then ["retention manifest is empty"] else []) + BadExpiryWarnings(ret.entries)
  }

  function WorstRow(start: Status, rows: seq<Row>): Status {
    if rows == [] then start else Worsen(WorstRow(start, rows[..|rows| - 1]), rows[|rows| - 1].status)
  }

  function StartStatus(ret: Manifest): Status {
    if ret.schemaVersion == "" then Warn else Pass
  }

  predicate PathLess(a: Row, b: Row) {
    Text.Less(a.path, b.path)
  }

  /** The audit in terms of the entries alone. */
  function AuditOf(ret: Manifest, now: int, minDays: int, soonDays: int): Audit {
    Audit(
      WorstRow(StartStatus(ret), Rows(ret.entries, now, minDays, soonDays)),
      |ret.entries|,
      CountIf(ret.entries, IsExpired(now)),
      CountIf(ret.entries, IsExpiringSoon(now, soonDays)),
      CountIf(ret.entries, IsBelow(minDays)),
      CountIf(ret.entries, IsMissing()),
      Sorting.Sort(ManifestWarnings(ret), Text.Less),
      Sorting.Sort(Rows(ret.entries, now, minDays, soonDays), PathLess))
  }

  /** What the loop body finds in one entry. */
  datatype Finding = Finding(row: Row, below: bool, missing: bool, expired: bool, soon: bool, warnings: seq<string>)

  function FindingOf(e: Entry, now: int, minDays: int, soonDays: int): Finding {
    Finding(RowOf(e, now, minDays, soonDays), BelowMinimum(e, minDays), e.expiry.NoExpiry?, Expired(e, now),
      ExpiringSoon(e, now, soonDays),
      if e.expiry.BadExpiry? then ["bad expiry for " + e.path + ": " + e.expiry.error] else [])
  }

  method AuditEntry(e: Entry, now: int, minDays: int, soonDays: int) returns (f: Finding)
    ensures f == FindingOf(e, now, minDays, soonDays)
  {
    hide Sub, WholeDays;
    var row := Row(e.path, e.kind, Pass, e.retainDays, e.expiry, 0, "");
    var below, missing, expired, soon := false, false, false, false;
    var warnings: seq<string> := [];
    if minDays > 0 && e.retainDays < minDays {
      row := row.(status := Fail, detail := "retention below minimum");
      below := true;
    }
    match e.expiry {
      case NoExpiry =>
        if row.status == Pass {
          row := row.(status := Warn, detail := "missing expiry");
        }
        missing := true;
      case ExpiresAt(t) =>
        var rem := WholeDays(Sub(t, now));
        row := row.(daysRemaining := rem);
        if t <= now {
          row := row.(status := Fail, detail := "expired");
          expired := true;
        } else if soonDays > 0 && rem <= soonDays {
          if row.status == Pass {
            row := row.(status := Warn, detail := "expiring soon");
          }
          soon := true;
        }
      case BadExpiry(error) =>
        if row.status == Pass {
          row := row.(status := Warn, detail := "bad expiry timestamp");
        }
        warnings := ["bad expiry for " + e.path + ": " + error];
    }
    f := Finding(row, below, missing, expired, soon, warnings);
  }

  /** The loop's running totals. */
  datatype Tally = Tally(status: Status, expired: nat, soon: nat, below: nat, missing: nat, warnings: seq<string>, rows: seq<Row>)

  function Bit(b: bool): nat {
    if b then 1 else 0
  }

  function Add(t: Tally, f: Finding): Tally {
    Tally(Worsen(t.status, f.row.status), t.expired + Bit(f.expired), t.soon + Bit(f.soon), t.below + Bit(f.below),
      t.missing + Bit(f.missing), t.warnings + f.warnings, t.rows + [f.row])
  }

  function TallyOf(ret: Manifest, n: nat, now: int, minDays: int, soonDays: int): Tally
    requires n <= |ret.entries|
  {
    if n == 0 then Tally(StartStatus(ret), 0, 0, 0, 0, ManifestWarnings(ret.(entries := [])), []) else
    Add(TallyOf(ret, n - 1, now, minDays, soonDays), FindingOf(ret.entries[n - 1], now, minDays, soonDays))
  }

  lemma AppendCount(es: seq<Entry>, e: Entry, p: Entry -> bool)
    ensures CountIf(es + [e], p) == CountIf(es, p) + Bit(p(e))
  {
    assert (es + [e])[..|es + [e]| - 1] == es;
  }

  lemma AppendRow(start: Status, es: seq<Entry>, e: Entry, now: int, minDays: int, soonDays: int)
    ensures Rows(es + [e], now, minDays, soonDays) == Rows(es, now, minDays, soonDays) + [RowOf(e, now, minDays, soonDays)]
    ensures WorstRow(start, Rows(es + [e], now, minDays, soonDays))
      == Worsen(WorstRow(start, Rows(es, now, minDays, soonDays)), RowOf(e, now, minDays, soonDays).status)
  {
    hide RowOf;
    var rows := Rows(es + [e], now, minDays, soonDays);
    assert rows[..|rows| - 1] == Rows(es, now, minDays, soonDays);
  }

  lemma AppendWarnings(ret: Manifest, es: seq<Entry>, e: Entry)
    ensures ManifestWarnings(ret.(entries := es + [e]))
      == ManifestWarnings(ret.(entries := es)) + FindingOf(e, 0, 0, 0).warnings
  {
    assert (es + [e])[..|es + [e]| - 1] == es;
  }

  lemma NothingCounted(ret: Manifest, now: int, minDays: int, soonDays: int)
    ensures Rows([], now, minDays, soonDays) == [] && WorstRow(StartStatus(ret), []) == StartStatus(ret)
    ensures CountIf([], IsExpired(now)) == CountIf([], IsExpiringSoon(now, soonDays)) == 0
    ensures CountIf([], IsBelow(minDays)) == CountIf([], IsMissing()) == 0
  {}

  lemma {:induction false} TallyMeans(ret: Manifest, n: nat, now: int, minDays: int, soonDays: int)
    requires n <= |ret.entries|
    ensures var es := ret.entries[..n];
      TallyOf(ret, n, now, minDays, soonDays) == Tally(
        WorstRow(StartStatus(ret), Rows(es, now, minDays, soonDays)),
        CountIf(es, IsExpired(now)), CountIf(es, IsExpiringSoon(now, soonDays)),
        CountIf(es, IsBelow(minDays)), CountIf(es, IsMissing()),
        ManifestWarnings(ret.(entries := es)), Rows(es, now, minDays, soonDays))
    decreases n
  {
    hide Expired, ExpiringSoon, BelowMinimum, RowOf, CountIf, Rows, WorstRow, ManifestWarnings;
    if n == 0 {
      assert ret.entries[..n] == [];
      NothingCounted(ret, now, minDays, soonDays);
    } else {
      var es, e := ret.entries[..n - 1], ret.entries[n - 1];
      TallyMeans(ret, n - 1, now, minDays, soonDays);
      assert ret.entries[..n] == es + [e];
      AppendCount(es, e, IsExpired(now));
      AppendCount(es, e, IsExpiringSoon(now, soonDays));
      AppendCount(es, e, IsBelow(minDays));
      AppendCount(es, e, IsMissing());
      AppendRow(StartStatus(ret), es, e, now, minDays, soonDays);
      AppendWarnings(ret, es, e);
    }
  }

  method BuildRetentionAudit(ret: Manifest, now: int, minDays: int, givenSoonDays: int) returns (a: Audit)
    ensures a == AuditOf(ret, now, minDays, givenSoonDays)
  {
    hide FindingOf, Sorting.Sort, Rows, WorstRow, CountIf, ManifestWarnings;
    var soonDays := if givenSoonDays < 0 then 0 else givenSoonDays;
    if givenSoonDays < 0 {
      NegativeSoonDays(ret.entries, now, minDays, givenSoonDays);
    }
    var status := Pass;
    var warnings: seq<string> := [];
    if ret.schemaVersion == "" {
      status := Warn;
      warnings := warnings + ["retention manifest is empty"];
    }
    var rows: seq<Row> := [];
    var expired: nat, expiringSoon: nat, belowMinimum: nat, missingExpiry: nat := 0, 0, 0, 0;
    NoEntries(ret);
    for i := 0 to |ret.entries|
      invariant TallyOf(ret, i, now, minDays, soonDays)
        == Tally(status, expired, expiringSoon, belowMinimum, missingExpiry, warnings, rows)
    {
      var f := AuditEntry(ret.entries[i], now, minDays, soonDays);
      expired := expired + Bit(f.expired);
      expiringSoon := expiringSoon + Bit(f.soon);
      belowMinimum := belowMinimum + Bit(f.below);
      missingExpiry := missingExpiry + Bit(f.missing);
      warnings := warnings + f.warnings;
      status := Worsen(status, f.row.status);
      rows := rows + [f.row];
      assert TallyOf(ret, i + 1, now, minDays, soonDays) == Add(TallyOf(ret, i, now, minDays, soonDays), f);
    }
    TallyMeans(ret, |ret.entries|, now, minDays, soonDays);
    assert ret.entries[..|ret.entries|] == ret.entries;
    a := Audit(status, |ret.entries|, expired, expiringSoon, belowMinimum, missingExpiry,
      Sorting.Sort(warnings, Text.Less), Sorting.Sort(rows, PathLess));
  }

  lemma NoEntries(ret: Manifest)
    ensures ManifestWarnings(ret.(entries := [])) == if ret.schemaVersion == "" then ["retention manifest is empty"] else []
  {}

  /** Negative soon-days warn of nothing, as zero does. */
  lemma {:induction false} NegativeSoonDays(entries: seq<Entry>, now: int, minDays: int, soonDays: int)
    requires soonDays < 0
    ensures Rows(entries, now, minDays, 0) == Rows(entries, now, minDays, soonDays)
    ensures CountIf(entries, IsExpiringSoon(now, 0)) == CountIf(entries, IsExpiringSoon(now, soonDays))
    decreases |entries|
  {
    if entries != [] {
      NegativeSoonDays(entries[..|entries| - 1], now, minDays, soonDays);
    }
  }

  // Tightening the policy

  lemma {:induction false} CountMonotone(entries: seq<Entry>, p: Entry -> bool, q: Entry -> bool)
    requires forall e :: p(e) ==> q(e)
    ensures CountIf(entries, p) <= CountIf(entries, q)
    decreases |entries|
  {
    if entries != [] {
      CountMonotone(entries[..|entries| - 1], p, q);
    }
  }

  lemma {:induction false} WorstMonotone(start: Status, a: seq<Row>, b: seq<Row>)
    requires |a| == |b| && forall i :: 0 <= i < |a| ==> Rank(a[i].status) <= Rank(b[i].status)
    ensures Rank(WorstRow(start, a)) <= Rank(WorstRow(start, b))
    decreases |a|
  {
    if a != [] {
      WorstMonotone(start, a[..|a| - 1], b[..|b| - 1]);
    }
  }

  /** Larger minimum and soon-days never improve the audit, and change nothing else it counts. */
  lemma RetentionMonotone(ret: Manifest, now: int, minDays: int, soonDays: int, minDays': int, soonDays': int)
    requires minDays <= minDays' && soonDays <= soonDays'
    ensures var a, b := AuditOf(ret, now, minDays, soonDays), AuditOf(ret, now, minDays', soonDays');
      && Rank(a.status) <= Rank(b.status)
      && a.expiringSoon <= b.expiringSoon && a.belowMinimum <= b.belowMinimum
      && a.expired == b.expired && a.missingExpiry == b.missingExpiry && a.warnings == b.warnings
  {
    hide Sub, WholeDays;
    var es := ret.entries;
    CountMonotone(es, IsExpiringSoon(now, soonDays), IsExpiringSoon(now, soonDays'));
    CountMonotone(es, IsBelow(minDays), IsBelow(minDays'));
    WorstMonotone(StartStatus(ret), Rows(es, now, minDays, soonDays), Rows(es, now, minDays', soonDays'));
  }

  // What rows and audits say, in nanoseconds

  /** An expiry is soon if it is ahead by less than one day more than the soon-days, or out of range and these are too. */
  lemma SoonIff(e: Entry, now: int, soonDays: int)
    ensures ExpiringSoon(e, now, soonDays) <==>
      && e.expiry.ExpiresAt? && now < e.expiry.at && 0 < soonDays
      && (e.expiry.at - now < (soonDays + 1) * 86_400_000_000_000 || 106_751 <= soonDays)
  {
    if e.expiry.ExpiresAt? && now < e.expiry.at {
      var d := Sub(e.expiry.at, now);
      DaysBelow(d, soonDays);
    }
  }

  lemma DaysBelow(d: int, days: int)
    requires d >= 0
    ensures WholeDays(d) <= days <==> d < (days + 1) * 86_400_000_000_000
  {
    var q, r := d / DAY, d % DAY;
    assert d == q * DAY + r && 0 <= r < DAY;
    if q <= days {
      assert q * DAY <= days * DAY;
    } else {
      assert q * DAY >= (days + 1) * DAY;
    }
  }

  /** The days remaining are rounded towards the present. */
  lemma DaysRemaining(e: Entry, now: int, minDays: int, soonDays: int)
    requires e.expiry.ExpiresAt? && -MAX_DURATION <= e.expiry.at - now <= MAX_DURATION
    ensures var left, days := e.expiry.at - now, RowOf(e, now, minDays, soonDays).daysRemaining;
      if left >= 0 then days * 86_400_000_000_000 <= left < (days + 1) * 86_400_000_000_000
      else (days - 1) * 86_400_000_000_000 < left <= days * 86_400_000_000_000
  {}

  /** A row fails if the entry is kept too briefly or has expired; it passes if neither and the expiry is known and not soon. */
  lemma RowMeans(e: Entry, now: int, minDays: int, soonDays: int)
    ensures var row := RowOf(e, now, minDays, soonDays);
      var short, expired := 0 < minDays && e.retainDays < minDays, e.expiry.ExpiresAt? && e.expiry.at <= now;
      && (row.status == Fail <==> short || expired)
      && (row.status == Pass <==> !short && !expired && e.expiry.ExpiresAt? && !ExpiringSoon(e, now, soonDays))
      && row.path == e.path && row.kind == e.kind && row.retainDays == e.retainDays && row.expiry == e.expiry
  {}

  lemma {:induction false} WorstRowMeans(start: Status, rows: seq<Row>)
    ensures WorstRow(start, rows) == Fail <==> start == Fail || exists r :: r in rows && r.status == Fail
    ensures WorstRow(start, rows) == Pass <==> start == Pass && forall r :: r in rows ==> r.status == Pass
    decreases |rows|
  {
    if rows != [] {
      WorstRowMeans(start, rows[..|rows| - 1]);
      assert rows == rows[..|rows| - 1] + [rows[|rows| - 1]];
    }
  }

  /** The counters count entries by position; rows and warnings are sorted, one row for each entry. */
  lemma AuditCounts(ret: Manifest, now: int, minDays: int, soonDays: int)
    ensures var a, es := AuditOf(ret, now, minDays, soonDays), ret.entries;
      && a.expired == |Positions(es, IsExpired(now))| && a.expiringSoon == |Positions(es, IsExpiringSoon(now, soonDays))|
      && a.belowMinimum == |Positions(es, IsBelow(minDays))| && a.missingExpiry == |Positions(es, IsMissing())|
      && multiset(a.rows) == multiset(Rows(es, now, minDays, soonDays)) && a.entryCount == |es| == |a.rows|
  {
    hide Positions, Filter, Rows, WorstRow, ManifestWarnings, Sorting.Sort;
    FilterPositions(ret.entries, IsExpired(now));
    FilterPositions(ret.entries, IsExpiringSoon(now, soonDays));
    FilterPositions(ret.entries, IsBelow(minDays));
    FilterPositions(ret.entries, IsMissing());
    var rows := Rows(ret.entries, now, minDays, soonDays);
    Sorting.SortPermutes(rows, PathLess);
    assert |multiset(rows)| == |rows| && |multiset(Sorting.Sort(rows, PathLess))| == |Sorting.Sort(rows, PathLess)|;
    RowCount(ret.entries, now, minDays, soonDays);
  }

  lemma RowCount(es: seq<Entry>, now: int, minDays: int, soonDays: int)
    ensures |Rows(es, now, minDays, soonDays)| == |es|
    ensures forall i :: 0 <= i < |es| ==> Rows(es, now, minDays, soonDays)[i] == RowOf(es[i], now, minDays, soonDays)
  {}

  lemma CountedWhen(e: Entry, now: int, minDays: int)
    ensures IsExpired(now)(e) <==> e.expiry.ExpiresAt? && e.expiry.at <= now
    ensures IsBelow(minDays)(e) <==> 0 < minDays && e.retainDays < minDays
    ensures IsMissing()(e) <==> e.expiry == NoExpiry
  {}

  /** The audit fails exactly if a row does, and passes exactly if all rows do and the manifest has a schema. */
  lemma AuditMeans(ret: Manifest, now: int, minDays: int, soonDays: int)
    ensures var a, rows := AuditOf(ret, now, minDays, soonDays), Rows(ret.entries, now, minDays, soonDays);
      && (a.status == Fail <==> exists r :: r in rows && r.status == Fail)
      && (a.status == Pass <==> ret.schemaVersion != "" && forall r :: r in rows ==> r.status == Pass)
  {
    hide Rows, WorstRow;
    WorstRowMeans(StartStatus(ret), Rows(ret.entries, now, minDays, soonDays));
  }

  function IsBad(): Entry -> bool {
    (e: Entry) => e.expiry.BadExpiry?
  }

  /** One warning for each expiry that does not parse, and one for a manifest without schema. */
  lemma WarningsCount(ret: Manifest, now: int, minDays: int, soonDays: int)
    ensures |AuditOf(ret, now, minDays, soonDays).warnings|
      == |Positions(ret.entries, IsBad())| + if ret.schemaVersion == "" then 1 else 0
  {
    hide Rows, WorstRow, Sorting.Sort;
    FilterPositions(ret.entries, IsBad());
    BadCount(ret.entries);
    Sorting.SortPermutes(ManifestWarnings(ret), Text.Less);
    var ws := ManifestWarnings(ret);
    assert |multiset(ws)| == |ws| && |multiset(Sorting.Sort(ws, Text.Less))| == |Sorting.Sort(ws, Text.Less)|;
  }

  lemma {:induction false} BadCount(es: seq<Entry>)
    ensures |BadExpiryWarnings(es)| == |Filter(es, IsBad())|
    decreases |es|
  {
    if es != [] {
      BadCount(es[..|es| - 1]);
    }
  }

  /** The row's remark names the worst that is known of its entry. */
  lemma DetailMeans(e: Entry, now: int, minDays: int, soonDays: int)
    ensures var detail := RowOf(e, now, minDays, soonDays).detail;
      && (detail == "expired" <==> e.expiry.ExpiresAt? && e.expiry.at <= now)
      && (detail == "retention below minimum" <==> 0 < minDays && e.retainDays < minDays && !(e.expiry.ExpiresAt? && e.expiry.at <= now))
      && (detail == "missing expiry" <==> e.expiry.NoExpiry? && !(0 < minDays && e.retainDays < minDays))
      && (detail == "bad expiry timestamp" <==> e.expiry.BadExpiry? && !(0 < minDays && e.retainDays < minDays))
      && (detail == "" <==> RowOf(e, now, minDays, soonDays).status == Pass)
  {
    RowTexts();
  }

  lemma RowTexts()
    ensures "expired" != "retention below minimum" && "expired" != "missing expiry" && "expired" != "bad expiry timestamp"
    ensures "expired" != "expiring soon" && "retention below minimum" != "missing expiry"
    ensures "retention below minimum" != "bad expiry timestamp" && "retention below minimum" != "expiring soon"
    ensures "missing expiry" != "bad expiry timestamp" && "missing expiry" != "expiring soon"
    ensures "bad expiry timestamp" != "expiring soon"
  {
    assert |"expired"| == 7 && |"retention below minimum"| == 23 && |"missing expiry"| == 14;
    assert |"bad expiry timestamp"| == 20 && |"expiring soon"| == 13;
  }
}
