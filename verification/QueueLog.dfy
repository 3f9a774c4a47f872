/** What the summaries of boot.go say, read off the log position by position. */
module QueueLog {
  import opened Virtqueue
  import opened Seqs
  import Sorting
  import Text
  import DeviceProbe

  // Virtqueues

  ghost predicate Writes(e: Event, d: string, reg: Register) {
    e.write && e.name == d && e.reg == reg
  }

  /** Before event i, queue q of device d is selected: by the last QueueSel write, or queue 0 by none. */
  ghost predicate SelectedAt(es: seq<Event>, d: string, q: u64, i: nat)
    requires i <= |es|
  {
    || (q == 0 && forall k :: 0 <= k < i ==> !Writes(es[k], d, QueueSel))
    || exists j: nat :: j < i && Writes(es[j], d, QueueSel) && es[j].value == q
         && forall k :: j < k < i ==> !Writes(es[k], d, QueueSel)
  }

  /** Event i writes this register of queue q. */
  ghost predicate WritesQueue(es: seq<Event>, d: string, q: u64, reg: Register, i: nat)
    requires i < |es|
  {
    Writes(es[i], d, reg) && SelectedAt(es, d, q, i)
  }

  /** v is the value last written to this register of queue q, or 0 if none ever was. */
  ghost predicate LastWritten(es: seq<Event>, d: string, q: u64, reg: Register, v: u64) {
    || (v == 0 && forall i: nat :: i < |es| ==> !WritesQueue(es, d, q, reg, i))
    || exists i: nat :: i < |es| && WritesQueue(es, d, q, reg, i) && es[i].value == v
         && forall k: nat :: i < k < |es| ==> !WritesQueue(es, d, q, reg, k)
  }

  ghost predicate IsAddress(es: seq<Event>, d: string, q: u64, low: Register, high: Register, a: u64) {
    exists l: u64, h: u64 :: LastWritten(es, d, q, low, l) && LastWritten(es, d, q, high, h)
      && a == l % 0x1_0000_0000 + 0x1_0000_0000 * (h % 0x1_0000_0000)
  }

  ghost predicate NotifiesAt(es: seq<Event>, d: string, q: u64, i: nat)
    requires i < |es|
  {
    Writes(es[i], d, QueueNotify) && es[i].value == q
  }

  ghost function NotifyPositions(es: seq<Event>, d: string, q: u64): set<nat> {
    set i: nat | i < |es| && NotifiesAt(es, d, q, i)
  }

  ghost predicate LastNotifiedAt(es: seq<Event>, d: string, q: u64, at: u64) {
    || (at == 0 && forall i: nat :: i < |es| ==> !NotifiesAt(es, d, q, i))
    || exists i: nat :: i < |es| && NotifiesAt(es, d, q, i) && es[i].seqNo == at
         && forall k: nat :: i < k < |es| ==> !NotifiesAt(es, d, q, k)
  }

  /** The state is what the log says of its queue, field by field. */
  ghost predicate Describes(es: seq<Event>, s: VirtqueueState) {
    && LastWritten(es, s.device, s.queue, QueueNum, s.num)
    && (exists v: u64 :: LastWritten(es, s.device, s.queue, QueueReady, v) && s.ready == (v != 0))
    && IsAddress(es, s.device, s.queue, DescLow, DescHigh, s.desc)
    && IsAddress(es, s.device, s.queue, DriverLow, DriverHigh, s.driver)
    && IsAddress(es, s.device, s.queue, DeviceLow, DeviceHigh, s.deviceArea)
    && s.notifyCount == |NotifyPositions(es, s.device, s.queue)|
    && LastNotifiedAt(es, s.device, s.queue, s.lastNotifyAt)
  }

  /** A write to a virtio device mentions the queue then selected, and the one it selects or notifies. */
  ghost predicate MentionsAt(es: seq<Event>, d: string, q: u64, i: nat)
    requires i < |es|
  {
    && |d| >= 7 && d[..7] == "virtio-" && es[i].write && es[i].name == d
    && (SelectedAt(es, d, q, i) || (es[i].reg in {QueueSel, QueueNotify} && es[i].value == q))
  }

  ghost predicate Mentioned(es: seq<Event>, d: string, q: u64) {
    exists i: nat :: i < |es| && MentionsAt(es, d, q, i)
  }

  ghost predicate Listed(out: seq<VirtqueueState>, d: string, q: u64) {
    exists s :: s in out && s.device == d && s.queue == q
  }

  lemma {:induction false} SelectedIs(es: seq<Event>, d: string, q: u64, i: nat)
    requires i <= |es|
    ensures Selected(es[..i], d) == q <==> SelectedAt(es, d, q, i)
    decreases i
  {
    if i > 0 {
      SelectedIs(es, d, q, i - 1);
      assert es[..i][..i - 1] == es[..i - 1];
      if Writes(es[i - 1], d, QueueSel) {
        assert SelectedAt(es, d, es[i - 1].value, i);
      } else {
        SelectedKept(es, d, q, i - 1);
      }
    }
  }

  lemma SelectedKept(es: seq<Event>, d: string, q: u64, i: nat)
    requires i < |es| && !Writes(es[i], d, QueueSel)
    ensures SelectedAt(es, d, q, i + 1) <==> SelectedAt(es, d, q, i)
  {}

  lemma RelevantIs(es: seq<Event>, d: string, q: u64, reg: Register, i: nat)
    requires i < |es|
    ensures Relevant(es, d, q, reg, i) <==> WritesQueue(es, d, q, reg, i)
  {
    SelectedIs(es, d, q, i);
  }

  lemma WrittenIs(es: seq<Event>, d: string, q: u64, reg: Register)
    ensures LastWritten(es, d, q, reg, Written(es, d, q, reg))
  {
    hide Relevant, WritesQueue, LastWrite;
    forall i: nat | i < |es| ensures Relevant(es, d, q, reg, i) <==> WritesQueue(es, d, q, reg, i) {
      RelevantIs(es, d, q, reg, i);
    }
    if i: nat :| i < |es| && Relevant(es, d, q, reg, i) {
      var last := LastRelevant(es, d, q, reg, i);
      LastWriteIs(es, d, q, reg, last);
    } else {
      NeverWritten(es, d, q, reg);
    }
  }

  lemma {:induction false} LastRelevant(es: seq<Event>, d: string, q: u64, reg: Register, i: nat) returns (last: nat)
    requires i < |es| && Relevant(es, d, q, reg, i)
    ensures i <= last < |es| && Relevant(es, d, q, reg, last)
    ensures forall k: nat :: last < k < |es| ==> !Relevant(es, d, q, reg, k)
    decreases |es| - i
  {
    hide Relevant;
    if k: nat :| i < k < |es| && Relevant(es, d, q, reg, k) {
      last := LastRelevant(es, d, q, reg, k);
    } else {
      last := i;
    }
  }

  lemma NotifiesHere(es: seq<Event>, d: string, q: u64)
    requires es != []
    ensures NotifiesAt(es, d, q, |es| - 1) <==> Notifies(es[|es| - 1], d, q)
    ensures forall i: nat :: i < |es| - 1 ==> NotifiesAt(es[..|es| - 1], d, q, i) == NotifiesAt(es, d, q, i)
  {}

  lemma {:induction false} NotifyCountIs(es: seq<Event>, d: string, q: u64)
    ensures NotifyCount(es, d, q) == |NotifyPositions(es, d, q)|
    decreases |es|
  {
    if es == [] {
      assert NotifyPositions(es, d, q) == {};
    } else {
      var n := |es| - 1;
      NotifyCountIs(es[..n], d, q);
      NotifiesHere(es, d, q);
      hide NotifiesAt;
      assert NotifyPositions(es, d, q) == NotifyPositions(es[..n], d, q) + if NotifiesAt(es, d, q, n) then {n} else {};
    }
  }

  lemma {:induction false} LastNotifyIs(es: seq<Event>, d: string, q: u64)
    ensures LastNotifiedAt(es, d, q, LastNotify(es, d, q))
    decreases |es|
  {
    if es != [] {
      var n := |es| - 1;
      LastNotifyIs(es[..n], d, q);
      if Notifies(es[n], d, q) {
        assert NotifiesAt(es, d, q, n);
      } else if i: nat :| i < n && NotifiesAt(es[..n], d, q, i) && es[..n][i].seqNo == LastNotify(es[..n], d, q)
                         && forall k: nat :: i < k < n ==> !NotifiesAt(es[..n], d, q, k) {
        assert NotifiesAt(es, d, q, i);
        forall k: nat | i < k < |es| ensures !NotifiesAt(es, d, q, k) {
          assert k < n ==> !NotifiesAt(es[..n], d, q, k);
        }
      } else {
        forall i: nat | i < |es| ensures !NotifiesAt(es, d, q, i) {
          assert i < n ==> !NotifiesAt(es[..n], d, q, i);
        }
      }
    }
  }

  lemma {:induction false} KnownIs(es: seq<Event>, d: string, q: u64)
    ensures Known(es, d, q) <==> Mentioned(es, d, q)
    decreases |es|
  {
    if es != [] {
      hide Mentions, MentionsAt, Mentioned;
      KnownIs(es[..|es| - 1], d, q);
      MentionsIs(es, d, q);
      MentionedStep(es, d, q);
    }
  }

  lemma MentionedStep(es: seq<Event>, d: string, q: u64)
    requires es != []
    ensures Mentioned(es, d, q) <==> MentionsAt(es, d, q, |es| - 1) || Mentioned(es[..|es| - 1], d, q)
  {
    hide MentionsAt;
    var n := |es| - 1;
    forall i: nat | i < n ensures MentionsAt(es[..n], d, q, i) <==> MentionsAt(es, d, q, i) {
      MentionsBefore(es, n, d, q, i);
    }
    if Mentioned(es[..n], d, q) {
      var i: nat :| i < n && MentionsAt(es[..n], d, q, i);
      assert MentionsAt(es, d, q, i);
    }
  }

  lemma MentionsIs(es: seq<Event>, d: string, q: u64)
    requires es != []
    ensures Mentions(es, d, q) <==> MentionsAt(es, d, q, |es| - 1)
  {
    hide SelectedAt, Selected;
    SelectedIs(es, d, q, |es| - 1);
    VirtioPrefix(d);
  }

  lemma MentionsBefore(es: seq<Event>, n: nat, d: string, q: u64, i: nat)
    requires i < n <= |es|
    ensures MentionsAt(es[..n], d, q, i) <==> MentionsAt(es, d, q, i)
  {
    hide SelectedAt;
    SelectedBefore(es, n, d, q, i);
  }

  lemma VirtioPrefix(d: string)
    ensures IsVirtio(d) <==> |d| >= 7 && d[..7] == "virtio-"
  {
    assert |"virtio-"| == 7;
  }

  lemma SelectedBefore(es: seq<Event>, n: nat, d: string, q: u64, i: nat)
    requires i <= n <= |es|
    ensures SelectedAt(es[..n], d, q, i) <==> SelectedAt(es, d, q, i)
  {
    SelectedIs(es[..n], d, q, i);
    SelectedIs(es, d, q, i);
    assert es[..n][..i] == es[..i];
  }

  lemma StateDescribes(es: seq<Event>, d: string, q: u64)
    ensures Describes(es, QueueState(es, d, q))
  {
    hide LastWritten, LastNotifiedAt, NotifiesAt, Written, NotifyCount, LastNotify;
    WrittenIs(es, d, q, QueueNum);
    WrittenIs(es, d, q, QueueReady);
    AddressIs(es, d, q, DescLow, DescHigh);
    AddressIs(es, d, q, DriverLow, DriverHigh);
    AddressIs(es, d, q, DeviceLow, DeviceHigh);
    NotifyCountIs(es, d, q);
    LastNotifyIs(es, d, q);
  }

  lemma AddressIs(es: seq<Event>, d: string, q: u64, low: Register, high: Register)
    ensures IsAddress(es, d, q, low, high, Address(es, d, q, low, high))
  {
    hide LastWritten, Written;
    WrittenIs(es, d, q, low);
    WrittenIs(es, d, q, high);
  }

  /** The summary lists the queues mentioned, each as the log describes it. */
  lemma SummaryDescribes(es: seq<Event>, out: seq<VirtqueueState>)
    requires IsSummary(es, out)
    ensures forall s :: s in out ==> Describes(es, s)
    ensures forall d: string, q: u64 :: Listed(out, d, q) <==> Mentioned(es, d, q)
  {
    hide Describes, QueueState, Known, Mentioned, Sorting.StrictlySorted;
    forall s | s in out ensures Describes(es, s) {
      StateDescribes(es, s.device, s.queue);
    }
    forall d: string, q: u64 ensures Listed(out, d, q) <==> Mentioned(es, d, q) {
      KnownIs(es, d, q);
      QueueStateKey(es, d, q);
      if Known(es, d, q) {
        assert QueueState(es, d, q) in out;
      }
    }
  }

  /** By device name, the first difference deciding and a prefix first; then by rising queue number. */
  lemma SummaryInOrder(es: seq<Event>, out: seq<VirtqueueState>, i: nat, j: nat)
    requires IsSummary(es, out) && i < j < |out|
    ensures
      || (out[i].device == out[j].device && out[i].queue < out[j].queue)
      || (out[i].device != out[j].device && exists k: nat :: Text.DiffersAt(out[i].device, out[j].device, k))
  {
    Text.LessIff(out[i].device, out[j].device);
    assert StateLess(out[i], out[j]);
  }

  // Device probes

  function Reads(d: string): Event -> bool {
    (e: Event) => e.name == d && !e.write
  }

  function ReadsOf(d: string, regs: set<Register>): Event -> bool {
    (e: Event) => e.name == d && !e.write && e.reg in regs
  }

  function WritesOf(d: string, regs: set<Register>): Event -> bool {
    (e: Event) => e.name == d && e.write && e.reg in regs
  }

  ghost predicate LastOf(es: seq<Event>, d: string, reg: Register, value: u64) {
    exists i: nat :: i < |es| && es[i].name == d && es[i].reg == reg && es[i].value == value
      && forall k :: i < k < |es| ==> es[k].name != d
  }

  lemma KindCount(es: seq<Event>, d: string, kind: DeviceProbe.Kind, p: Event -> bool)
    requires forall e :: DeviceProbe.Matching(d, kind)(e) == p(e)
    ensures |DeviceProbe.Events(es, d, kind)| == |Positions(es, p)|
    ensures DeviceProbe.Events(es, d, kind) == Filter(es, p)
  {
    FilterPositions(es, p);
    FilterSame(es, DeviceProbe.Matching(d, kind), p);
  }

  lemma LastOfKept(es: seq<Event>, d: string, reg: Register, value: u64)
    requires es != [] && es[|es| - 1].name != d && LastOf(es[..|es| - 1], d, reg, value)
    ensures LastOf(es, d, reg, value)
  {
    var n := |es| - 1;
    var i: nat :| i < n && es[..n][i].name == d && es[..n][i].reg == reg && es[..n][i].value == value
      && forall k :: i < k < n ==> es[..n][k].name != d;
    forall k | i < k < |es| ensures es[k].name != d {
      assert k < n ==> es[..n][k] == es[k];
    }
  }

  lemma {:induction false} LastEventIs(es: seq<Event>, d: string)
    ensures var last := DeviceProbe.LastEvent(es, d);
      if last.Some? then last.value.name == d && LastOf(es, d, last.value.reg, last.value.value)
      else forall i :: 0 <= i < |es| ==> es[i].name != d
    decreases |es|
  {
    if es != [] {
      var n := |es| - 1;
      LastEventIs(es[..n], d);
      var last := DeviceProbe.LastEvent(es[..n], d);
      if es[n].name == d {
        assert LastOf(es, d, es[n].reg, es[n].value);
      } else {
        hide LastOf;
        if last.Some? {
          LastOfKept(es, d, last.value.reg, last.value.value);
        } else {
          assert forall i :: 0 <= i < n ==> es[i] == es[..n][i];
        }
      }
    }
  }

  /** A probe's counts, register by register, the status values written, in order, and the last access. */
  lemma ProbeDescribes(es: seq<Event>, out: seq<DeviceProbe.Probe>, p: DeviceProbe.Probe)
    requires DeviceProbe.IsProbeSummary(es, out) && p in out
    ensures p.name in {"uart16550", "plic", "clint"} || (|p.name| >= 7 && p.name[..7] == "virtio-")
    ensures p.readCount == |Positions(es, Reads(p.name))|
    ensures p.identityReads == |Positions(es, ReadsOf(p.name, {MagicValue, Version, DeviceID, VendorID}))|
    ensures p.interrupts == |Positions(es, ReadsOf(p.name, {InterruptStatus}))|
    ensures p.queueReady == |Positions(es, WritesOf(p.name, {QueueReady}))|
    ensures p.queueNotify == |Positions(es, WritesOf(p.name, {QueueNotify}))|
    ensures |p.statusWrites| == |Filter(es, WritesOf(p.name, {Status}))|
    ensures forall k :: 0 <= k < |p.statusWrites| ==> p.statusWrites[k] == Filter(es, WritesOf(p.name, {Status}))[k].value
    ensures LastOf(es, p.name, p.lastReg, p.lastValue)
  {
    var d := p.name;
    VirtioPrefix(d);
    ReadCounts(es, d);
    WriteCounts(es, d);
    LastEventIs(es, d);
    hide Positions, Filter, Reads, ReadsOf, WritesOf, LastOf, DeviceProbe.Events;
    assert p == DeviceProbe.ProbeOf(es, d);
  }

  lemma ReadCounts(es: seq<Event>, d: string)
    ensures |DeviceProbe.Events(es, d, DeviceProbe.Read)| == |Positions(es, Reads(d))|
    ensures |DeviceProbe.Events(es, d, DeviceProbe.IdentityRead)|
         == |Positions(es, ReadsOf(d, {MagicValue, Version, DeviceID, VendorID}))|
    ensures |DeviceProbe.Events(es, d, DeviceProbe.InterruptRead)| == |Positions(es, ReadsOf(d, {InterruptStatus}))|
  {
    hide Positions, Filter, DeviceProbe.Events;
    KindCount(es, d, DeviceProbe.Read, Reads(d));
    KindCount(es, d, DeviceProbe.IdentityRead, ReadsOf(d, {MagicValue, Version, DeviceID, VendorID}));
    KindCount(es, d, DeviceProbe.InterruptRead, ReadsOf(d, {InterruptStatus}));
  }

  lemma WriteCounts(es: seq<Event>, d: string)
    ensures |DeviceProbe.Events(es, d, DeviceProbe.ReadyWrite)| == |Positions(es, WritesOf(d, {QueueReady}))|
    ensures |DeviceProbe.Events(es, d, DeviceProbe.NotifyWrite)| == |Positions(es, WritesOf(d, {QueueNotify}))|
    ensures DeviceProbe.Events(es, d, DeviceProbe.StatusWrite) == Filter(es, WritesOf(d, {Status}))
  {
    hide Positions, Filter, DeviceProbe.Events;
    KindCount(es, d, DeviceProbe.ReadyWrite, WritesOf(d, {QueueReady}));
    KindCount(es, d, DeviceProbe.NotifyWrite, WritesOf(d, {QueueNotify}));
    KindCount(es, d, DeviceProbe.StatusWrite, WritesOf(d, {Status}));
  }

  /** A probed device is listed exactly if the log has an event of it. */
  lemma ProbesListed(es: seq<Event>, out: seq<DeviceProbe.Probe>, d: string)
    requires DeviceProbe.IsProbeSummary(es, out)
    ensures (exists p :: p in out && p.name == d)
      <==> (d in {"uart16550", "plic", "clint"} || (|d| >= 7 && d[..7] == "virtio-")) && exists i :: 0 <= i < |es| && es[i].name == d
  {
    VirtioPrefix(d);
    LastEventIs(es, d);
    if DeviceProbe.IsProbed(d) && DeviceProbe.Seen(es, d) {
      DeviceProbe.ProbeName(es, d);
      assert DeviceProbe.ProbeOf(es, d) in out;
    }
  }

  /** Probes come in order of their names, each name once. */
  lemma ProbesInOrder(es: seq<Event>, out: seq<DeviceProbe.Probe>, i: nat, j: nat)
    requires DeviceProbe.IsProbeSummary(es, out) && i < j < |out|
    ensures exists k: nat :: Text.DiffersAt(out[i].name, out[j].name, k)
  {
    Text.LessIff(out[i].name, out[j].name);
  }
}
