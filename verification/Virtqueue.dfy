/** Virtqueue state reconstructed from an MMIO access log (internal/analyze/boot.go). */
module Virtqueue {
  import opened Options
  import opened Seqs
  import Words
  import Text
  import Sorting

  const TWO32 := 0x1_0000_0000

  type u64 = x: int | 0 <= x < TWO32 * TWO32

  /** The register names the summaries test for. */
  datatype Register =
    | QueueSel | QueueNum | QueueReady | QueueNotify
    | DescLow | DescHigh | DriverLow | DriverHigh | DeviceLow | DeviceHigh
    | MagicValue | Version | DeviceID | VendorID | Status | InterruptStatus
    | OtherRegister(name: string)

  datatype Event = Event(seqNo: u64, name: string, reg: Register, write: bool, value: u64)

  datatype Key = Key(device: string, queue: u64)

  datatype VirtqueueState = VirtqueueState(
    device: string,
    queue: u64,
    num: u64,
    ready: bool,
    desc: u64,
    driver: u64,
    deviceArea: u64,
    notifyCount: nat,
    lastNotifyAt: u64)

  predicate IsVirtio(name: string) {
    "virtio-" <= name
  }

  // What the log says, by looking back for the last write that matters

  /** The queue selected on a device: its last QueueSel write, or queue 0. */
  function Selected(es: seq<Event>, d: string): u64 {
    if es == [] then 0 else
    var e := es[|es| - 1];
    if e.write && e.name == d && e.reg == QueueSel then e.value else Selected(es[..|es| - 1], d)
  }

  /** Is the i-th event a write of the register while queue q of device d is selected? */
  predicate Relevant(es: seq<Event>, d: string, q: u64, reg: Register, i: nat)
    requires i < |es|
  {
    es[i].write && es[i].name == d && es[i].reg == reg && Selected(es[..i], d) == q
  }

  function LastWrite(es: seq<Event>, d: string, q: u64, reg: Register): Option<u64> {
    if es == [] then None
    else if Relevant(es, d, q, reg, |es| - 1) then Some(es[|es| - 1].value)
    else LastWrite(es[..|es| - 1], d, q, reg)
  }

  predicate Notifies(e: Event, d: string, q: u64) {
    e.write && e.name == d && e.reg == QueueNotify && e.value == q
  }

  function NotifyCount(es: seq<Event>, d: string, q: u64): nat {
    if es == [] then 0 else
    NotifyCount(es[..|es| - 1], d, q) + if Notifies(es[|es| - 1], d, q) then 1 else 0
  }

  function LastNotify(es: seq<Event>, d: string, q: u64): u64 {
    if es == [] then 0
    else if Notifies(es[|es| - 1], d, q) then es[|es| - 1].seqNo
    else LastNotify(es[..|es| - 1], d, q)
  }

  /** A 64-bit address from the values written to its two 32-bit registers. */
  function Join(low: u64, high: u64): u64 {
    low % TWO32 + TWO32 * (high % TWO32)
  }

  /** The last value written to a register of the queue, 0 before any. */
  function Written(es: seq<Event>, d: string, q: u64, reg: Register): u64 {
    LastWrite(es, d, q, reg).GetOr(0)
  }

  function Address(es: seq<Event>, d: string, q: u64, low: Register, high: Register): u64 {
    Join(Written(es, d, q, low), Written(es, d, q, high))
  }

  function QueueState(es: seq<Event>, d: string, q: u64): VirtqueueState {
    VirtqueueState(d, q,
      Written(es, d, q, QueueNum),
      Written(es, d, q, QueueReady) != 0,
      Address(es, d, q, DescLow, DescHigh),
      Address(es, d, q, DriverLow, DriverHigh),
      Address(es, d, q, DeviceLow, DeviceHigh),
      NotifyCount(es, d, q),
      LastNotify(es, d, q))
  }

  /** Does the last event of es mention the queue: by selection, or by selecting or notifying it? */
  predicate Mentions(es: seq<Event>, d: string, q: u64)
    requires es != []
  {
    var e := es[|es| - 1];
    && e.write && e.name == d && IsVirtio(d)
    && (Selected(es[..|es| - 1], d) == q || ((e.reg == QueueSel || e.reg == QueueNotify) && e.value == q))
  }

  predicate Known(es: seq<Event>, d: string, q: u64) {
    es != [] && (Mentions(es, d, q) || Known(es[..|es| - 1], d, q))
  }

  // The same, without recursion

  lemma RelevantBefore(es: seq<Event>, d: string, q: u64, reg: Register, i: nat)
    requires i + 1 < |es|
    ensures Relevant(es[..|es| - 1], d, q, reg, i) == Relevant(es, d, q, reg, i)
  {
    assert es[..|es| - 1][..i] == es[..i];
  }

  lemma {:induction false} LastWriteIs(es: seq<Event>, d: string, q: u64, reg: Register, i: nat)
    requires i < |es| && Relevant(es, d, q, reg, i)
    requires forall j :: i < j < |es| ==> !Relevant(es, d, q, reg, j)
    ensures LastWrite(es, d, q, reg) == Some(es[i].value)
    decreases |es|
  {
    hide Relevant;
    if i + 1 < |es| {
      var before := es[..|es| - 1];
      forall j | i <= j < |before| ensures Relevant(before, d, q, reg, j) == Relevant(es, d, q, reg, j) {
        RelevantBefore(es, d, q, reg, j);
      }
      LastWriteIs(before, d, q, reg, i);
    }
  }

  lemma {:induction false} NeverWritten(es: seq<Event>, d: string, q: u64, reg: Register)
    requires forall j :: 0 <= j < |es| ==> !Relevant(es, d, q, reg, j)
    ensures LastWrite(es, d, q, reg) == None
    decreases |es|
  {
    hide Relevant;
    if es != [] {
      var before := es[..|es| - 1];
      forall j | 0 <= j < |before| ensures !Relevant(before, d, q, reg, j) {
        RelevantBefore(es, d, q, reg, j);
      }
      NeverWritten(before, d, q, reg);
    }
  }

  // One event

  /** What the switch does to the selected queue's state. */
  function WriteRegister(s: VirtqueueState, e: Event): VirtqueueState {
    match e.reg
    case QueueNum => s.(num := e.value)
    case QueueReady => s.(ready := e.value != 0)
    case DescLow => s.(desc := SetLow(s.desc, e.value))
    case DescHigh => s.(desc := SetHigh(s.desc, e.value))
    case DriverLow => s.(driver := SetLow(s.driver, e.value))
    case DriverHigh => s.(driver := SetHigh(s.driver, e.value))
    case DeviceLow => s.(deviceArea := SetLow(s.deviceArea, e.value))
    case DeviceHigh => s.(deviceArea := SetHigh(s.deviceArea, e.value))
    case _ => s
  }

  // The two halves are set with masks and shifts; on numbers, that is this arithmetic.

  /** (address &^ 0xffffffff) | (value & 0xffffffff) */
  function SetLow(address: u64, value: u64): u64 {
    address / TWO32 * TWO32 + value % TWO32
  }

  /** (address & 0xffffffff) | (value << 32) */
  function SetHigh(address: u64, value: u64): u64 {
    value % TWO32 * TWO32 + address % TWO32
  }

  function Number(x: bv64): u64 {
    Words.NumberBelow(x);
    Words.Number(x)
  }

  lemma MasksAreArithmetic(address: bv64, value: bv64)
    ensures SetLow(Number(address), Number(value)) == Number(Words.MaskLow(address, value))
    ensures SetHigh(Number(address), Number(value)) == Number(Words.MaskHigh(address, value))
  {
    hide Words.MaskLow, Words.MaskHigh, Words.Number;
    Words.MasksAreArithmetic(address, value);
  }

  function Notified(s: VirtqueueState, e: Event): VirtqueueState {
    s.(notifyCount := s.notifyCount + 1, lastNotifyAt := e.seqNo)
  }

  lemma SetHalves(low: u64, high: u64, value: u64)
    ensures SetLow(Join(low, high), value) == Join(value, high)
    ensures SetHigh(Join(low, high), value) == Join(low, value)
  {
    HalvesOf(low % TWO32, high % TWO32);
  }

  lemma HalvesOf(low: int, high: int)
    requires 0 <= low < TWO32
    ensures (low + TWO32 * high) / TWO32 == high && (low + TWO32 * high) % TWO32 == low
  {}

  lemma AppendWritten(es: seq<Event>, e: Event, q: u64, reg: Register)
    requires e.write
    ensures Written(es + [e], e.name, q, reg)
      == if e.reg == reg && Selected(es, e.name) == q then e.value else Written(es, e.name, q, reg)
  {
    assert (es + [e])[..|es + [e]| - 1] == es;
  }

  lemma AppendNotify(es: seq<Event>, e: Event, d: string, q: u64)
    ensures NotifyCount(es + [e], d, q) == NotifyCount(es, d, q) + if Notifies(e, d, q) then 1 else 0
    ensures LastNotify(es + [e], d, q) == if Notifies(e, d, q) then e.seqNo else LastNotify(es, d, q)
  {
    assert (es + [e])[..|es + [e]| - 1] == es;
  }

  lemma AppendAddress(es: seq<Event>, e: Event, q: u64, low: Register, high: Register)
    requires e.write && low != high
    ensures Address(es + [e], e.name, q, low, high)
      == if Selected(es, e.name) != q then Address(es, e.name, q, low, high)
         else if e.reg == low then SetLow(Address(es, e.name, q, low, high), e.value)
         else if e.reg == high then SetHigh(Address(es, e.name, q, low, high), e.value)
         else Address(es, e.name, q, low, high)
  {
    hide SetLow, SetHigh, Join, Written;
    AppendWritten(es, e, q, low);
    AppendWritten(es, e, q, high);
    SetHalves(Written(es, e.name, q, low), Written(es, e.name, q, high), e.value);
  }

  /** How one write to device d changes what the log says of a queue of d. */
  lemma AppendWrite(es: seq<Event>, e: Event, q: u64)
    requires e.write
    ensures var before := QueueState(es, e.name, q);
      var selected := if Selected(es, e.name) == q then WriteRegister(before, e) else before;
      QueueState(es + [e], e.name, q) == if Notifies(e, e.name, q) then Notified(selected, e) else selected
  {
    hide SetLow, SetHigh, Address, Written, NotifyCount, LastNotify, Selected;
    AppendNotify(es, e, e.name, q);
    AppendWritten(es, e, q, QueueNum);
    AppendWritten(es, e, q, QueueReady);
    AppendAddress(es, e, q, DescLow, DescHigh);
    AppendAddress(es, e, q, DriverLow, DriverHigh);
    AppendAddress(es, e, q, DeviceLow, DeviceHigh);
  }

  /** Events of other devices, and reads, say nothing about a queue. */
  lemma AppendOther(es: seq<Event>, e: Event, d: string, q: u64)
    requires !e.write || e.name != d
    ensures QueueState(es + [e], d, q) == QueueState(es, d, q)
    ensures Known(es + [e], d, q) == Known(es, d, q)
    ensures Selected(es + [e], d) == Selected(es, d)
  {
    hide Join;
    assert (es + [e])[..|es + [e]| - 1] == es;
  }

  lemma AppendKnown(es: seq<Event>, e: Event, d: string, q: u64)
    ensures Known(es + [e], d, q) == (Known(es, d, q) || (
      && e.write && e.name == d && IsVirtio(d)
      && (Selected(es, d) == q || ((e.reg == QueueSel || e.reg == QueueNotify) && e.value == q))))
    ensures Selected(es + [e], d) == if e.write && e.name == d && e.reg == QueueSel then e.value else Selected(es, d)
  {
    assert (es + [e])[..|es + [e]| - 1] == es;
  }

  function Untouched(d: string, q: u64): VirtqueueState {
    VirtqueueState(d, q, 0, false, 0, 0, 0, 0, 0)
  }

  lemma {:induction false} UnknownIsUntouched(es: seq<Event>, d: string, q: u64)
    requires IsVirtio(d) && !Known(es, d, q)
    ensures QueueState(es, d, q) == Untouched(d, q)
    decreases |es|
  {
    hide IsVirtio;
    if es != [] {
      var e := es[|es| - 1];
      var before := es[..|es| - 1];
      assert es == before + [e];
      AppendKnown(before, e, d, q);
      UnknownIsUntouched(before, d, q);
      if e.write && e.name == d {
        AppendWrite(before, e, q);
      } else {
        AppendOther(before, e, d, q);
      }
    }
  }

  // The loop

  function Lookup(currentQ: map<string, u64>, d: string): u64 {
    if d in currentQ then currentQ[d] else 0
  }

  /** The `get` closure: the entry for a key, created on first use. */
  function Ensure(states: map<Key, VirtqueueState>, k: Key): map<Key, VirtqueueState> {
    if k in states then states else states[k := Untouched(k.device, k.queue)]
  }

  ghost predicate Tracks(es: seq<Event>, currentQ: map<string, u64>, states: map<Key, VirtqueueState>) {
    && (forall d :: IsVirtio(d) ==> Lookup(currentQ, d) == Selected(es, d))
    && (forall k :: k in states <==> Known(es, k.device, k.queue))
    && (forall k :: k in states ==> states[k] == QueueState(es, k.device, k.queue))
  }

  /** The entry a tracked map holds or would create. */
  lemma EnsuredIs(es: seq<Event>, currentQ: map<string, u64>, states: map<Key, VirtqueueState>, k: Key)
    requires Tracks(es, currentQ, states) && IsVirtio(k.device)
    ensures Ensure(states, k)[k] == QueueState(es, k.device, k.queue)
  {
    hide QueueState, Known;
    if k !in states {
      UnknownIsUntouched(es, k.device, k.queue);
    }
  }

  function Updated(states: map<Key, VirtqueueState>, e: Event, q: u64): map<Key, VirtqueueState> {
    var here, there := Key(e.name, q), Key(e.name, e.value);
    var s := Ensure(states, here);
    match e.reg
    case QueueSel => Ensure(s, there)
    case QueueNotify => Ensure(s, there)[there := Notified(Ensure(s, there)[there], e)]
    case _ => s[here := WriteRegister(s[here], e)]
  }

  lemma UpdatedTracks(es: seq<Event>, e: Event, currentQ: map<string, u64>, states: map<Key, VirtqueueState>)
    requires Tracks(es, currentQ, states) && IsVirtio(e.name) && e.write
    ensures var currentQ' := if e.reg == QueueSel then currentQ[e.name := e.value] else currentQ;
      Tracks(es + [e], currentQ', Updated(states, e, Lookup(currentQ, e.name)))
  {
    hide QueueState, Known, Selected, IsVirtio, WriteRegister, Notified;
    var q := Lookup(currentQ, e.name);
    var currentQ' := if e.reg == QueueSel then currentQ[e.name := e.value] else currentQ;
    var states' := Updated(states, e, q);
    forall d | IsVirtio(d) ensures Lookup(currentQ', d) == Selected(es + [e], d) {
      AppendKnown(es, e, d, 0);
    }
    forall k: Key ensures k in states' <==> Known(es + [e], k.device, k.queue) {
      AppendKnown(es, e, k.device, k.queue);
    }
    forall k | k in states' ensures states'[k] == QueueState(es + [e], k.device, k.queue) {
      UpdatedEntry(es, e, currentQ, states, k);
    }
  }

  lemma WriteRegisterElsewhere(s: VirtqueueState, e: Event)
    requires e.reg == QueueSel || e.reg == QueueNotify
    ensures WriteRegister(s, e) == s
  {}

  lemma UpdatedEntry(es: seq<Event>, e: Event, currentQ: map<string, u64>, states: map<Key, VirtqueueState>, k: Key)
    requires Tracks(es, currentQ, states) && IsVirtio(e.name) && e.write
    requires k in Updated(states, e, Lookup(currentQ, e.name))
    ensures Updated(states, e, Lookup(currentQ, e.name))[k] == QueueState(es + [e], k.device, k.queue)
  {
    hide QueueState, Known, Selected, IsVirtio, WriteRegister, Notified;
    if k.device != e.name {
      AppendOther(es, e, k.device, k.queue);
    } else {
      AppendWrite(es, e, k.queue);
      EnsuredIs(es, currentQ, states, k);
      if e.reg == QueueSel || e.reg == QueueNotify {
        WriteRegisterElsewhere(QueueState(es, e.name, k.queue), e);
      }
    }
  }

  // The summary

  predicate StateLess(a: VirtqueueState, b: VirtqueueState) {
    if a.device == b.device then a.queue < b.queue else Text.Less(a.device, b.device)
  }

  lemma StateLessAsymmetric(a: VirtqueueState, b: VirtqueueState)
    ensures !(StateLess(a, b) && StateLess(b, a))
  {
    Text.LessAsymmetric(a.device, b.device);
  }

  lemma StateLessTransitive(a: VirtqueueState, b: VirtqueueState, c: VirtqueueState)
    requires StateLess(a, b) && StateLess(b, c)
    ensures StateLess(a, c)
  {
    if a.device != b.device && b.device != c.device {
      Text.LessTransitive(a.device, b.device, c.device);
      Text.LessAsymmetric(a.device, b.device);
    }
  }

  lemma StateLessTotal(a: VirtqueueState, b: VirtqueueState)
    ensures StateLess(a, b) || StateLess(b, a) || (a.device == b.device && a.queue == b.queue)
  {
    Text.LessTotal(a.device, b.device);
  }

  lemma StateLessOrders(s: multiset<VirtqueueState>)
    ensures Sorting.Orders(StateLess, s)
  {
    hide StateLess;
    forall x, y | x in s && y in s && StateLess(x, y) ensures !StateLess(y, x) {
      StateLessAsymmetric(x, y);
    }
    forall x, y, z | x in s && y in s && z in s && StateLess(x, y) && !StateLess(z, y) ensures StateLess(x, z) {
      StateLessWeak(x, y, z);
    }
  }

  lemma StateLessWeak(x: VirtqueueState, y: VirtqueueState, z: VirtqueueState)
    requires StateLess(x, y) && !StateLess(z, y)
    ensures StateLess(x, z)
  {
    StateLessTotal(y, z);
    if StateLess(y, z) {
      hide StateLess;
      StateLessTransitive(x, y, z);
    }
  }

  /** The states of exactly the queues the log mentions, strictly in order of (device, queue). */
  ghost predicate IsSummary(es: seq<Event>, out: seq<VirtqueueState>) {
    && Sorting.StrictlySorted(out, StateLess)
    && (forall s :: s in out <==> Known(es, s.device, s.queue) && s == QueueState(es, s.device, s.queue))
  }

  method Summary(events: seq<Event>) returns (out: seq<VirtqueueState>)
    ensures IsSummary(events, out)
  {
    var currentQ: map<string, u64> := map[];
    var states: map<Key, VirtqueueState> := map[];
    for i := 0 to |events|
      invariant Tracks(events[..i], currentQ, states)
    {
      hide QueueState, Known, Selected, Updated;
      var e := events[i];
      assert events[..i + 1] == events[..i] + [e];
      if !IsVirtio(e.name) || !e.write {
        SkippedTracks(events[..i], e, currentQ, states);
      } else {
        var q := Lookup(currentQ, e.name);
        UpdatedTracks(events[..i], e, currentQ, states);
        states := Updated(states, e, q);
        if e.reg == QueueSel {
          currentQ := currentQ[e.name := e.value];
        }
      }
    }
    assert events[..|events|] == events;
    out := Collect(events, currentQ, states);
  }

  lemma SkippedTracks(es: seq<Event>, e: Event, currentQ: map<string, u64>, states: map<Key, VirtqueueState>)
    requires Tracks(es, currentQ, states) && (!IsVirtio(e.name) || !e.write)
    ensures Tracks(es + [e], currentQ, states)
  {
    hide QueueState, Known, Selected, IsVirtio;
    forall d | IsVirtio(d) ensures Selected(es + [e], d) == Selected(es, d) {
      AppendOther(es, e, d, 0);
    }
    forall k: Key ensures Known(es + [e], k.device, k.queue) == Known(es, k.device, k.queue) {
      AppendKnown(es, e, k.device, k.queue);
    }
    forall k | k in states ensures QueueState(es + [e], k.device, k.queue) == QueueState(es, k.device, k.queue) {
      KnownIsVirtio(es, k.device, k.queue);
      AppendOther(es, e, k.device, k.queue);
    }
  }

  lemma {:induction false} KnownIsVirtio(es: seq<Event>, d: string, q: u64)
    requires Known(es, d, q)
    ensures IsVirtio(d)
    decreases |es|
  {
    if !Mentions(es, d, q) {
      KnownIsVirtio(es[..|es| - 1], d, q);
    }
  }

  /** Copy the entries out, in whatever order the map yields them, and sort. */
  method Collect(ghost es: seq<Event>, ghost currentQ: map<string, u64>, states: map<Key, VirtqueueState>)
    returns (out: seq<VirtqueueState>)
    requires Tracks(es, currentQ, states)
    ensures IsSummary(es, out)
  {
    hide QueueState, Known;
    var unsorted: seq<VirtqueueState> := [];
    var keys := states.Keys;
    while keys != {}
      invariant keys <= states.Keys
      invariant forall s :: s in unsorted <==> Key(s.device, s.queue) in states.Keys - keys && s == states[Key(s.device, s.queue)]
      invariant Sorting.Distinct(unsorted)
    {
      var k :| k in keys;
      QueueStateKey(es, k.device, k.queue);
      assert states[k] !in unsorted;
      unsorted := unsorted + [states[k]];
      keys := keys - {k};
    }
    out := Sorting.Sort(unsorted, StateLess);
    SortedSummary(es, currentQ, states, unsorted);
  }

  lemma QueueStateKey(es: seq<Event>, d: string, q: u64)
    ensures QueueState(es, d, q).device == d && QueueState(es, d, q).queue == q
    ensures QueueState(es, d, q).notifyCount == NotifyCount(es, d, q)
  {}

  lemma SortedSummary(es: seq<Event>, currentQ: map<string, u64>, states: map<Key, VirtqueueState>, unsorted: seq<VirtqueueState>)
    requires Tracks(es, currentQ, states)
    requires forall s :: s in unsorted <==> Key(s.device, s.queue) in states && s == states[Key(s.device, s.queue)]
    requires Sorting.Distinct(unsorted)
    ensures IsSummary(es, Sorting.Sort(unsorted, StateLess))
  {
    hide QueueState, Known, StateLess;
    StateLessOrders(multiset(unsorted));
    forall x, y | x in unsorted && y in unsorted && x != y ensures StateLess(x, y) || StateLess(y, x) {
      StateLessTotal(x, y);
    }
    Sorting.SortStrictly(unsorted, StateLess);
  }

  /** The log determines its summary. */
  lemma SummaryUnique(es: seq<Event>, a: seq<VirtqueueState>, b: seq<VirtqueueState>)
    requires IsSummary(es, a) && IsSummary(es, b)
    ensures a == b
  {
    hide QueueState, Known, StateLess;
    forall x, y | x in a && y in a && StateLess(x, y) ensures !StateLess(y, x) {
      StateLessAsymmetric(x, y);
    }
    Sorting.StrictlySortedUnique(a, b, StateLess);
  }

  // Devices do not interfere

  function Named(d: string): Event -> bool {
    (e: Event) => e.name == d
  }

  function OnDevice(es: seq<Event>, d: string): seq<Event> {
    Filter(es, Named(d))
  }

  function Owned(d: string): VirtqueueState -> bool {
    (s: VirtqueueState) => s.device == d
  }

  function OfDevice(out: seq<VirtqueueState>, d: string): seq<VirtqueueState> {
    Filter(out, Owned(d))
  }

  /** What the log says of a device's queues, the device's own events say. */
  lemma {:induction false} ProjectedState(es: seq<Event>, d: string, q: u64)
    ensures QueueState(OnDevice(es, d), d, q) == QueueState(es, d, q)
    ensures Known(OnDevice(es, d), d, q) == Known(es, d, q)
    ensures Selected(OnDevice(es, d), d) == Selected(es, d)
    decreases |es|
  {
    if es != [] {
      hide QueueState, Known, Selected, IsVirtio, WriteRegister, Notified, Notifies;
      var before, e := es[..|es| - 1], es[|es| - 1];
      var own := OnDevice(before, d);
      assert es == before + [e];
      ProjectedState(before, d, q);
      if e.name != d {
        AppendOther(before, e, d, q);
        assert OnDevice(es, d) == own;
      } else if !e.write {
        AppendOther(before, e, d, q);
        AppendOther(own, e, d, q);
      } else {
        AppendWrite(before, e, q);
        AppendWrite(own, e, q);
        AppendKnown(before, e, d, q);
        AppendKnown(own, e, d, q);
      }
    }
  }

  lemma OnDeviceNames(es: seq<Event>, d: string)
    ensures forall i :: 0 <= i < |OnDevice(es, d)| ==> OnDevice(es, d)[i].name == d
  {
    forall e: Event ensures e in OnDevice(es, d) ==> e.name == d {
      FilterMembers(es, Named(d), e);
    }
  }

  lemma {:induction false} KnownIsNamed(es: seq<Event>, d: string, q: u64)
    requires Known(es, d, q)
    ensures exists i :: 0 <= i < |es| && es[i].name == d
    decreases |es|
  {
    if !Mentions(es, d, q) {
      KnownIsNamed(es[..|es| - 1], d, q);
      var i :| 0 <= i < |es| - 1 && es[..|es| - 1][i].name == d;
      assert es[i].name == d;
    }
  }

  lemma {:induction false} OfDeviceKeeps(out: seq<VirtqueueState>, d: string)
    requires Sorting.StrictlySorted(out, StateLess)
    ensures Sorting.StrictlySorted(OfDevice(out, d), StateLess)
    ensures forall s :: s in OfDevice(out, d) <==> s in out && s.device == d
    decreases |out|
  {
    if out != [] {
      hide StateLess;
      var before := out[..|out| - 1];
      OfDeviceKeeps(before, d);
      assert out == before + [out[|out| - 1]];
      forall s | s in OfDevice(before, d) ensures StateLess(s, out[|out| - 1]) {
        assert s in before;
      }
    }
  }

  /** The part of a summary about one device is the summary of that device's own events. */
  lemma NonInterference(es: seq<Event>, d: string, out: seq<VirtqueueState>, own: seq<VirtqueueState>)
    requires IsSummary(es, out) && IsSummary(OnDevice(es, d), own)
    ensures OfDevice(out, d) == own
  {
    hide QueueState, Known, StateLess, OnDevice, OfDevice;
    OfDeviceKeeps(out, d);
    forall s ensures s in OfDevice(out, d)
        <==> Known(OnDevice(es, d), s.device, s.queue) && s == QueueState(OnDevice(es, d), s.device, s.queue)
    {
      if s.device == d {
        ProjectedState(es, d, s.queue);
      } else if Known(OnDevice(es, d), s.device, s.queue) {
        OnDeviceNames(es, d);
        KnownIsNamed(OnDevice(es, d), s.device, s.queue);
      }
    }
    SummaryUnique(OnDevice(es, d), OfDevice(out, d), own);
  }

  // Notifications are conserved

  function NotifyWrites(es: seq<Event>, d: string): nat {
    if es == [] then 0 else
    var e := es[|es| - 1];
    NotifyWrites(es[..|es| - 1], d) + if e.write && e.name == d && e.reg == QueueNotify then 1 else 0
  }

  function TotalNotifies(out: seq<VirtqueueState>): nat {
    if out == [] then 0 else TotalNotifies(out[..|out| - 1]) + out[|out| - 1].notifyCount
  }

  function TotalCounts(es: seq<Event>, d: string, queues: seq<u64>): nat {
    if queues == [] then 0 else
    TotalCounts(es, d, queues[..|queues| - 1]) + NotifyCount(es, d, queues[|queues| - 1])
  }

  lemma {:induction false} TotalAppend(es: seq<Event>, e: Event, d: string, queues: seq<u64>)
    requires Sorting.Distinct(queues)
    ensures TotalCounts(es + [e], d, queues) == TotalCounts(es, d, queues)
      + if e.write && e.name == d && e.reg == QueueNotify && e.value in queues then 1 else 0
    decreases |queues|
  {
    if queues != [] {
      var n := |queues| - 1;
      assert queues == queues[..n] + [queues[n]];
      TotalAppend(es, e, d, queues[..n]);
      AppendNotify(es, e, d, queues[n]);
    }
  }

  lemma {:induction false} TotalNothing(d: string, queues: seq<u64>)
    ensures TotalCounts([], d, queues) == 0
    decreases |queues|
  {
    if queues != [] {
      TotalNothing(d, queues[..|queues| - 1]);
    }
  }

  lemma {:induction false} CountsAddUp(es: seq<Event>, d: string, queues: seq<u64>)
    requires IsVirtio(d) && Sorting.Distinct(queues)
    requires forall q :: Known(es, d, q) ==> q in queues
    ensures TotalCounts(es, d, queues) == NotifyWrites(es, d)
    decreases |es|
  {
    hide Selected, IsVirtio;
    if es == [] {
      TotalNothing(d, queues);
    } else {
      var before, e := es[..|es| - 1], es[|es| - 1];
      assert es == before + [e];
      CountsAddUp(before, d, queues);
      TotalAppend(before, e, d, queues);
      if e.write && e.name == d && e.reg == QueueNotify {
        assert Known(es, d, e.value);
      }
    }
  }

  function Queues(out: seq<VirtqueueState>): seq<u64> {
    if out == [] then [] else Queues(out[..|out| - 1]) + [out[|out| - 1].queue]
  }

  lemma {:induction false} QueuesAt(out: seq<VirtqueueState>)
    ensures |Queues(out)| == |out| && forall i :: 0 <= i < |out| ==> Queues(out)[i] == out[i].queue
    decreases |out|
  {
    if out != [] {
      QueuesAt(out[..|out| - 1]);
    }
  }

  lemma QueuesDistinct(d: string, out: seq<VirtqueueState>)
    requires Sorting.StrictlySorted(out, StateLess)
    requires forall i :: 0 <= i < |out| ==> out[i].device == d
    ensures Sorting.Distinct(Queues(out))
  {
    hide Queues;
    QueuesAt(out);
    forall i, j | 0 <= i < j < |out| ensures Queues(out)[i] != Queues(out)[j] {
      assert StateLess(out[i], out[j]);
    }
  }

  lemma {:induction false} TotalsAgree(es: seq<Event>, d: string, out: seq<VirtqueueState>)
    requires forall i :: 0 <= i < |out| ==> out[i].notifyCount == NotifyCount(es, d, out[i].queue)
    ensures TotalNotifies(out) == TotalCounts(es, d, Queues(out))
    decreases |out|
  {
    hide NotifyCount;
    if out != [] {
      TotalsAgree(es, d, out[..|out| - 1]);
      assert Queues(out)[..|Queues(out)| - 1] == Queues(out[..|out| - 1]);
    }
  }

  /** Every QueueNotify write of a device is counted in exactly one of its queues. */
  lemma NotifiesConserved(es: seq<Event>, d: string, out: seq<VirtqueueState>)
    requires IsVirtio(d) && IsSummary(es, out)
    ensures TotalNotifies(OfDevice(out, d)) == NotifyWrites(es, d)
  {
    hide QueueState, Known, StateLess, OfDevice, IsVirtio;
    OfDeviceKeeps(out, d);
    var own := OfDevice(out, d);
    forall i | 0 <= i < |own| ensures own[i].device == d && own[i].notifyCount == NotifyCount(es, d, own[i].queue) {
      assert own[i] in own;
      QueueStateKey(es, d, own[i].queue);
    }
    QueuesAt(own);
    QueuesDistinct(d, own);
    TotalsAgree(es, d, own);
    forall q | Known(es, d, q) ensures q in Queues(own) {
      QueueStateKey(es, d, q);
      var i :| 0 <= i < |own| && own[i] == QueueState(es, d, q);
      assert Queues(own)[i] == q;
    }
    CountsAddUp(es, d, Queues(own));
  }
}
