/** Aggregation of smoke-matrix results (internal/analyze/ci_matrix_ext3.go). */
module Matrix {
  import opened Text
  import opened Seqs
  import Sorting
  import ReleaseAudit

  datatype Input = Input(name: string, json: string)

  datatype Row = Row(name: string, status: string)

  datatype Overall = Empty | Passing | Warning | Failing

  datatype Aggregate = Aggregate(status: Overall, total: nat, passed: nat, warnings: nat, failed: nat, rows: seq<Row>)

  /** Which block a row belongs to; a status nobody knows counts as a failure. */
  datatype Block = FailBlock | WarnBlock | PassBlock

  function BlockOf(r: Row): Block {
    var s := ToLower(r.status);
    if s == "pass" || s == "ok" then PassBlock
    else if s == "warn" || s == "warning" then WarnBlock
    else FailBlock
  }

  /** The rank map of the sort, whose missing keys yield 0. */
  function SortRank(r: Row): nat {
    var s := ToLower(r.status);
    if s == "fail" || s == "error" then 0
    else if s == "warn" || s == "warning" then 1
    else if s == "pass" || s == "ok" then 2
    else 0
  }

  predicate RowLess(a: Row, b: Row) {
    if SortRank(a) == SortRank(b) then Less(a.name, b.name) else SortRank(a) < SortRank(b)
  }

  function InBlock(b: Block): Row -> bool {
    (r: Row) => BlockOf(r) == b
  }

  function Count(rows: seq<Row>, b: Block): nat {
    |Filter(rows, InBlock(b))|
  }

  /** The name given, or the position of a nameless input. */
  function RowName(input: Input, i: nat): string {
    FirstNonEmpty(TrimSpace(input.name), "result-" + ReleaseAudit.Itoa(i + 1))
  }

  /** The rows in input order; reading a result's JSON is left to `statusOf`. */
  function InputRows(inputs: seq<Input>, statusOf: string -> string): seq<Row> {
    seq(|inputs|, i requires 0 <= i < |inputs| => Row(RowName(inputs[i], i), statusOf(inputs[i].json)))
  }

  function WorstBlock(rows: seq<Row>): Overall {
    if rows == [] then Empty
    else if Count(rows, FailBlock) > 0 then Failing
    else if Count(rows, WarnBlock) > 0 then Warning
    else Passing
  }

  method BuildMatrixResultAggregate(inputs: seq<Input>, statusOf: string -> string) returns (a: Aggregate)
    ensures var rows := InputRows(inputs, statusOf);
      && a.rows == Sorting.Sort(rows, RowLess)
      && a.total == |rows| == |inputs|
      && a.passed == Count(rows, PassBlock) && a.warnings == Count(rows, WarnBlock) && a.failed == Count(rows, FailBlock)
      && a.status == WorstBlock(rows)
  {
    hide RowName, BlockOf;
    var status := Passing;
    var total, passed, warnings, failed := 0, 0, 0, 0;
    var rows: seq<Row> := [];
    for i := 0 to |inputs|
      invariant rows == InputRows(inputs, statusOf)[..i] && total == i
      invariant passed == Count(rows, PassBlock) && warnings == Count(rows, WarnBlock) && failed == Count(rows, FailBlock)
      invariant status == if rows == [] then Passing else WorstBlock(rows)
    {
      var row := Row(RowName(inputs[i], i), statusOf(inputs[i].json));
      FilterAppend(rows, row, InBlock(PassBlock));
      FilterAppend(rows, row, InBlock(WarnBlock));
      FilterAppend(rows, row, InBlock(FailBlock));
      rows := rows + [row];
      total := total + 1;
      match BlockOf(row) {
        case PassBlock =>
          passed := passed + 1;
        case WarnBlock =>
          warnings := warnings + 1;
          if status == Passing {
            status := Warning;
          }
        case FailBlock =>
          failed := failed + 1;
          status := Failing;
      }
    }
    assert rows == InputRows(inputs, statusOf);
    if total == 0 {
      status := Empty;
    }
    a := Aggregate(status, total, passed, warnings, failed, Sorting.Sort(rows, RowLess));
  }

  // The sorted rows

  lemma RankIsBlock(r: Row)
    ensures SortRank(r) == match BlockOf(r) case FailBlock => 0 case WarnBlock => 1 case PassBlock => 2
  {
    assert "pass"[0] == 'p' && "ok"[0] == 'o' && "warn"[0] == 'w' && "fail"[0] == 'f' && "error"[0] == 'e' && "warning"[0] == 'w';
  }

  lemma RowLessWeak(x: Row, y: Row, z: Row)
    ensures RowLess(x, y) ==> !RowLess(y, x)
    ensures RowLess(x, y) && !RowLess(z, y) ==> RowLess(x, z)
  {
    hide SortRank;
    LessAsymmetric(x.name, y.name);
    LessTotal(y.name, z.name);
    if Less(x.name, y.name) && Less(y.name, z.name) {
      LessTransitive(x.name, y.name, z.name);
    }
  }

  lemma RowLessOrders(s: multiset<Row>)
    ensures Sorting.Orders(RowLess, s)
  {
    hide RowLess;
    forall x, y | x in s && y in s && RowLess(x, y) ensures !RowLess(y, x) {
      RowLessWeak(x, y, x);
    }
    forall x, y, z | x in s && y in s && z in s && RowLess(x, y) && !RowLess(z, y) ensures RowLess(x, z) {
      RowLessWeak(x, y, z);
    }
  }

  lemma {:induction false} CountsAddUp(rows: seq<Row>)
    ensures Count(rows, PassBlock) + Count(rows, WarnBlock) + Count(rows, FailBlock) == |rows|
    decreases |rows|
  {
    hide BlockOf;
    if rows != [] {
      CountsAddUp(rows[..|rows| - 1]);
    }
  }

  /** Blocks in order of rank make a sequence that is the concatenation of the blocks. */
  lemma {:induction false} BlocksInOrder(rows: seq<Row>)
    requires forall i, j :: 0 <= i < j < |rows| ==> SortRank(rows[i]) <= SortRank(rows[j])
    ensures rows == Filter(rows, InBlock(FailBlock)) + Filter(rows, InBlock(WarnBlock)) + Filter(rows, InBlock(PassBlock))
    ensures rows != [] && SortRank(rows[|rows| - 1]) == 0 ==> Filter(rows, InBlock(WarnBlock)) == []
    ensures rows != [] && SortRank(rows[|rows| - 1]) <= 1 ==> Filter(rows, InBlock(PassBlock)) == []
    decreases |rows|
  {
    hide BlockOf, SortRank;
    if rows != [] {
      var n := |rows| - 1;
      var before := rows[..n];
      BlocksInOrder(before);
      assert rows == before + [rows[n]];
      RankIsBlock(rows[n]);
      if before != [] {
        assert SortRank(before[n - 1]) <= SortRank(rows[n]);
      }
    }
  }

  ghost predicate ByName(rows: seq<Row>) {
    forall i, j :: 0 <= i < j < |rows| ==> !Less(rows[j].name, rows[i].name)
  }

  lemma CountPermuted(a: seq<Row>, b: seq<Row>, block: Block)
    requires multiset(a) == multiset(b)
    ensures Count(a, block) == Count(b, block)
  {
    FilterPermuted(a, b, InBlock(block));
    var fa, fb := Filter(a, InBlock(block)), Filter(b, InBlock(block));
    assert |multiset(fa)| == |fa| && |multiset(fb)| == |fb|;
  }

  lemma BlockMembers(out: seq<Row>, block: Block)
    ensures forall r :: r in Filter(out, InBlock(block)) <==> r in out && BlockOf(r) == block
  {
    hide BlockOf, Filter;
    forall r ensures r in Filter(out, InBlock(block)) <==> r in out && BlockOf(r) == block {
      FilterMembers(out, InBlock(block), r);
    }
  }

  /** Among sorted rows, the last of its block has no lesser name than any before it in the block. */
  lemma LastOfBlock(out: seq<Row>, r: Row)
    requires out != [] && Sorting.Sorted(out, RowLess)
    requires r in out[..|out| - 1] && BlockOf(r) == BlockOf(out[|out| - 1])
    ensures !Less(out[|out| - 1].name, r.name)
  {
    hide BlockOf, SortRank, Less;
    var n := |out| - 1;
    RankIsBlock(r);
    RankIsBlock(out[n]);
    var j :| 0 <= j < n && out[j] == r;
    assert !RowLess(out[n], out[j]);
  }

  lemma ByNameAppend(rows: seq<Row>, r: Row)
    requires ByName(rows) && forall x :: x in rows ==> !Less(r.name, x.name)
    ensures ByName(rows + [r])
  {
    hide Less;
  }

  lemma BlockAppend(before: seq<Row>, last: Row, block: Block)
    ensures Filter(before + [last], InBlock(block))
      == Filter(before, InBlock(block)) + if BlockOf(last) == block then [last] else []
  {
    hide Filter, BlockOf;
    FilterAppend(before, last, InBlock(block));
  }

  lemma SortedFront(out: seq<Row>)
    requires out != [] && Sorting.Sorted(out, RowLess)
    ensures Sorting.Sorted(out[..|out| - 1], RowLess)
  {
    hide RowLess;
  }

  /** One block of the sorted rows. */
  lemma {:induction false} BlockByName(out: seq<Row>, block: Block)
    requires Sorting.Sorted(out, RowLess)
    ensures ByName(Filter(out, InBlock(block)))
    ensures forall r :: r in Filter(out, InBlock(block)) <==> r in out && BlockOf(r) == block
    decreases |out|
  {
    BlockMembers(out, block);
    if out != [] {
      hide *;
      var before, last := out[..|out| - 1], out[|out| - 1];
      SortedFront(out);
      BlockByName(before, block);
      BlockAppend(before, last, block);
      assert before + [last] == out && Filter(before, InBlock(block)) + [] == Filter(before, InBlock(block));
      if BlockOf(last) == block {
        forall r | r in Filter(before, InBlock(block)) ensures !Less(last.name, r.name) {
          LastOfBlock(out, r);
        }
        ByNameAppend(Filter(before, InBlock(block)), last);
      }
    }
  }

  /**
   The sorted rows are the input rows rearranged: first exactly the failing ones, then the warnings,
   then the passes, each block in order of name.
   */
  lemma SortedBlocks(rows: seq<Row>) returns (fails: seq<Row>, warns: seq<Row>, passes: seq<Row>)
    ensures Sorting.Sort(rows, RowLess) == fails + warns + passes
    ensures multiset(fails + warns + passes) == multiset(rows)
    ensures |fails| == Count(rows, FailBlock) && |warns| == Count(rows, WarnBlock) && |passes| == Count(rows, PassBlock)
    ensures forall r :: r in fails <==> r in rows && BlockOf(r) == FailBlock
    ensures forall r :: r in warns <==> r in rows && BlockOf(r) == WarnBlock
    ensures forall r :: r in passes <==> r in rows && BlockOf(r) == PassBlock
    ensures ByName(fails) && ByName(warns) && ByName(passes)
  {
    hide BlockOf, SortRank, RowLess, ByName;
    var out := Sorting.Sort(rows, RowLess);
    RowLessOrders(multiset(rows));
    Sorting.SortSorted(rows, RowLess);
    Sorting.SortPermutes(rows, RowLess);
    RanksInOrder(out);
    BlocksInOrder(out);
    fails, warns, passes := Filter(out, InBlock(FailBlock)), Filter(out, InBlock(WarnBlock)), Filter(out, InBlock(PassBlock));
    CountPermuted(out, rows, FailBlock);
    CountPermuted(out, rows, WarnBlock);
    CountPermuted(out, rows, PassBlock);
    BlockByName(out, FailBlock);
    BlockByName(out, WarnBlock);
    BlockByName(out, PassBlock);
    forall r ensures r in out <==> r in rows {
      Sorting.SortMembers(rows, RowLess, r);
    }
  }

  lemma RanksInOrder(out: seq<Row>)
    requires Sorting.Sorted(out, RowLess)
    ensures forall i, j :: 0 <= i < j < |out| ==> SortRank(out[i]) <= SortRank(out[j])
  {
    hide SortRank;
    forall i, j | 0 <= i < j < |out| ensures SortRank(out[i]) <= SortRank(out[j]) {
      assert !RowLess(out[j], out[i]);
    }
  }

  function SameKey(r: Row): Row -> bool {
    (x: Row) => SortRank(x) == SortRank(r) && x.name == r.name
  }

  /** Rows that sort alike stay in input order. */
  lemma TiesKeepOrder(rows: seq<Row>, r: Row)
    ensures Filter(Sorting.Sort(rows, RowLess), SameKey(r)) == Filter(rows, SameKey(r))
  {
    hide SortRank;
    RowLessOrders(multiset(rows));
    LessAsymmetric(r.name, r.name);
    Sorting.SortStable(rows, RowLess, SameKey(r));
  }

  // Blocks, names and status in their own terms

  lemma BlockMeans(r: Row)
    ensures BlockOf(r) == PassBlock <==> ToLower(r.status) in {"pass", "ok"}
    ensures BlockOf(r) == WarnBlock <==> ToLower(r.status) in {"warn", "warning"}
    ensures BlockOf(r) == FailBlock <==> ToLower(r.status) !in {"pass", "ok", "warn", "warning"}
  {
    hide ToLower;
  }

  /** One row for each input, in order: its name trimmed, or its place counted from one, and its own status. */
  lemma RowsMean(inputs: seq<Input>, statusOf: string -> string, i: nat)
    requires i < |inputs|
    ensures |InputRows(inputs, statusOf)| == |inputs|
    ensures InputRows(inputs, statusOf)[i].status == statusOf(inputs[i].json)
    ensures InputRows(inputs, statusOf)[i].name
      == if TrimSpace(inputs[i].name) != "" then TrimSpace(inputs[i].name) else "result-" + ReleaseAudit.Itoa(i + 1)
  {
    TrimTwice(inputs[i].name);
    hide TrimSpace;
  }

  lemma TrimTwice(s: string)
    ensures TrimSpace(TrimSpace(s)) == "" <==> TrimSpace(s) == ""
  {
    var a, b := TrimSpaceMeans(s);
  }

  lemma {:induction false} CountIff(rows: seq<Row>, b: Block)
    ensures Count(rows, b) > 0 <==> exists r :: r in rows && BlockOf(r) == b
    ensures Count(rows, b) == |Positions(rows, InBlock(b))|
  {
    hide BlockOf, Filter, Positions;
    FilterPositions(rows, InBlock(b));
    if Count(rows, b) > 0 {
      var r := Filter(rows, InBlock(b))[0];
      FilterMembers(rows, InBlock(b), r);
    }
    if r :| r in rows && BlockOf(r) == b {
      FilterMembers(rows, InBlock(b), r);
    }
  }

  /** Empty without rows, failing with a failing row, else warning with a warning row, else passing. */
  lemma StatusMeans(rows: seq<Row>)
    ensures WorstBlock(rows) == Empty <==> rows == []
    ensures WorstBlock(rows) == Failing <==> exists r :: r in rows && BlockOf(r) == FailBlock
    ensures WorstBlock(rows) == Passing <==> rows != [] && forall r :: r in rows ==> BlockOf(r) == PassBlock
  {
    hide BlockOf, Count;
    CountIff(rows, FailBlock);
    CountIff(rows, WarnBlock);
  }
}
