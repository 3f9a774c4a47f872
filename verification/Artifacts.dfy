/** The list of loaded boot artifacts, compacted in place (recordArtifact in cmd/rvwasm/main.go). */
module Artifacts {
  import opened Seqs


  /** `body` stands for the hash, addresses and note of the entry. */
  datatype Entry = Entry(role: string, body: string)

  const EMPTY := Entry("", "")

  function HasOther(role: string): Entry -> bool {
    (e: Entry) => e.role != role
  }

  function Without(entries: seq<Entry>, role: string): seq<Entry> {
    Filter(entries, HasOther(role))
  }

  function Recorded(entries: seq<Entry>, e: Entry): seq<Entry> {
    Without(entries, e.role) + [e]
  }

  /** The list after recording each entry of the log in turn. */
  function RecordAll(log: seq<Entry>): seq<Entry> {
    if log == [] then [] else Recorded(RecordAll(log[..|log| - 1]), log[|log| - 1])
  }

  /** Is the i-th record of the log the latest one of its role? */
  ghost predicate Latest(log: seq<Entry>, i: nat)
    requires i < |log|
  {
    forall j :: i < j < |log| ==> log[j].role != log[i].role
  }

  /** The list is the log at these positions. */
  ghost predicate Picks(entries: seq<Entry>, log: seq<Entry>, at: seq<nat>) {
    && |entries| == |at|
    && (forall k :: 0 <= k < |at| ==> at[k] < |log| && entries[k] == log[at[k]])
    && (forall k, l :: 0 <= k < l < |at| ==> at[k] < at[l])
  }

  ghost predicate Below(at: seq<nat>, bound: nat) {
    forall i: nat :: i in at ==> i < bound
  }

  lemma AppendPick(entries: seq<Entry>, log: seq<Entry>, at: seq<nat>, i: nat)
    requires Picks(entries, log, at) && i < |log|
    requires Below(at, i)
    ensures Picks(entries + [log[i]], log, at + [i])
  {
    assert forall k :: 0 <= k < |at| ==> at[k] in at;
  }

  lemma DropPick(entries: seq<Entry>, log: seq<Entry>, at: seq<nat>)
    requires Picks(entries, log, at) && entries != []
    ensures Picks(entries[..|entries| - 1], log, at[..|at| - 1])
    ensures at == at[..|at| - 1] + [at[|at| - 1]]
    ensures Below(at[..|at| - 1], at[|at| - 1])
  {}

  lemma {:induction false} WithoutPicks(entries: seq<Entry>, role: string, log: seq<Entry>, at: seq<nat>) returns (left: seq<nat>)
    requires Picks(entries, log, at)
    ensures Picks(Without(entries, role), log, left)
    ensures forall i: nat :: i in left <==> i in at && log[i].role != role
    decreases |entries|
  {
    if entries == [] {
      left := [];
    } else {
      var n := |entries| - 1;
      assert entries[n] == log[at[n]];
      DropPick(entries, log, at);
      hide Picks;
      left := WithoutPicks(entries[..n], role, log, at[..n]);
      if entries[n].role != role {
        AppendPick(Without(entries[..n], role), log, left, at[n]);
        left := left + [at[n]];
      }
    }
  }

  lemma LatestOfLonger(log: seq<Entry>, i: nat)
    requires i < |log| - 1
    ensures Latest(log, i) <==> Latest(log[..|log| - 1], i) && log[|log| - 1].role != log[i].role
  {}

  lemma LongerLog(entries: seq<Entry>, log: seq<Entry>, at: seq<nat>, more: seq<Entry>)
    requires Picks(entries, log, at) && log <= more
    ensures Picks(entries, more, at)
  {}

  /**
   After any sequence of records the list holds exactly the latest record of each role, in the
   order in which they were recorded.
   */
  lemma {:induction false} RecordAllKeepsLatest(log: seq<Entry>) returns (at: seq<nat>)
    ensures Picks(RecordAll(log), log, at)
    ensures forall i: nat :: i in at <==> i < |log| && Latest(log, i)
    decreases |log|
  {
    hide Picks, Latest;
    if log == [] {
      at := [];
      assert Picks([], log, []) by {
        NothingPicked(log);
      }
    } else {
      var n := |log| - 1;
      var before := RecordAllKeepsLatest(log[..n]);
      LongerLog(RecordAll(log[..n]), log[..n], before, log);
      var left := WithoutPicks(RecordAll(log[..n]), log[n].role, log, before);
      AppendPick(Without(RecordAll(log[..n]), log[n].role), log, left, n);
      at := left + [n];
      forall i: nat ensures i in at <==> i < |log| && Latest(log, i) {
        if i < n {
          LatestOfLonger(log, i);
        } else if i == n {
          LastIsLatest(log);
        }
      }
    }
  }

  lemma NothingPicked(log: seq<Entry>)
    ensures Picks([], log, [])
  {}

  lemma LastIsLatest(log: seq<Entry>)
    requires log != []
    ensures Latest(log, |log| - 1)
  {}

  lemma RolesDistinct(log: seq<Entry>, k: nat, l: nat)
    requires k < l < |RecordAll(log)|
    ensures RecordAll(log)[k].role != RecordAll(log)[l].role
  {
    var at := RecordAllKeepsLatest(log);
    assert at[k] in at;
  }

  class ArtifactList {
    var artifacts: array<Entry>  // the backing array; the list is artifacts[..count]
    var count: nat

    ghost predicate Valid()
      reads this
    {
      count <= artifacts.Length
    }

    ghost function Contents(): seq<Entry>
      reads this, artifacts
      requires Valid()
    {
      artifacts[..count]
    }

    constructor ()
      ensures Valid() && Contents() == RecordAll([]) && fresh(artifacts)
    {
      artifacts, count := new Entry[0], 0;
    }

    /** The kept entries are written over the front of the very array that is being read. */
    method Compact(role: string)
      requires Valid()
      modifies this`count, artifacts
      ensures Valid() && Contents() == Without(old(Contents()), role)
    {
      var kept := 0;
      for i := 0 to count
        invariant count == old(count) && kept <= i
        invariant artifacts[i..count] == old(artifacts[i..count])
        invariant artifacts[..kept] == Without(old(artifacts[..i]), role)
      {
        var a := artifacts[i];
        assert a == artifacts[i..count][0];
        assert artifacts[i + 1..count] == artifacts[i..count][1..];
        assert old(artifacts[i + 1..count]) == old(artifacts[i..count])[1..];
        assert old(artifacts[..i + 1]) == old(artifacts[..i]) + [a];
        if a.role != role {
          artifacts[kept] := a;
          kept := kept + 1;
        }
      }
      count := kept;
    }

    method RecordArtifact(e: Entry)
      requires Valid()
      modifies this, artifacts
      ensures Valid() && Contents() == Recorded(old(Contents()), e)
      ensures artifacts == old(artifacts) || fresh(artifacts)
    {
      Compact(e.role);
      if count == artifacts.Length {
        var bigger := new Entry[2 * count + 1](_ => EMPTY);
        forall i | 0 <= i < count {
          bigger[i] := artifacts[i];
        }
        artifacts := bigger;
      }
      artifacts[count] := e;
      count := count + 1;
    }
  }
}
