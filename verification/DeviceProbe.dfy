/** Per-device access statistics from an MMIO access log (DeviceProbeSummary in internal/analyze/boot.go). */
module DeviceProbe {
  import Text
  import Sorting
  import opened Options
  import opened Seqs
  import opened Virtqueue

  datatype Probe = Probe(
    name: string,
    readCount: nat,
    writeCount: nat,
    identityReads: nat,
    statusWrites: seq<u64>,
    queueReady: nat,
    queueNotify: nat,
    interrupts: nat,
    lastReg: Register,
    lastValue: u64)

  predicate IsProbed(name: string) {
    IsVirtio(name) || name == "uart16550" || name == "plic" || name == "clint"
  }

  /** What a probe counts. */
  datatype Kind = Read | Write | IdentityRead | StatusWrite | ReadyWrite | NotifyWrite | InterruptRead

  predicate IsKind(e: Event, kind: Kind) {
    match kind
    case Read => !e.write
    case Write => e.write
    case IdentityRead => !e.write && e.reg in {MagicValue, Version, DeviceID, VendorID}
    case StatusWrite => e.write && e.reg == Status
    case ReadyWrite => e.write && e.reg == QueueReady
    case NotifyWrite => e.write && e.reg == QueueNotify
    case InterruptRead => !e.write && e.reg == InterruptStatus
  }

  /** The device's events of a kind, in order. */
  function Matching(d: string, kind: Kind): Event -> bool {
    (e: Event) => e.name == d && IsKind(e, kind)
  }

  function Events(es: seq<Event>, d: string, kind: Kind): seq<Event> {
    Filter(es, Matching(d, kind))
  }

  function Values(es: seq<Event>): seq<u64> {
    seq(|es|, i requires 0 <= i < |es| => es[i].value)
  }

  function LastEvent(es: seq<Event>, d: string): Option<Event> {
    if es == [] then None
    else if es[|es| - 1].name == d then Some(es[|es| - 1])
    else LastEvent(es[..|es| - 1], d)
  }

  /** Has the log an event of this device? */
  predicate Seen(es: seq<Event>, d: string) {
    LastEvent(es, d).Some?
  }

  function ProbeOf(es: seq<Event>, d: string): Probe
    requires Seen(es, d)
  {
    var last := LastEvent(es, d).value;
    Probe(d,
      |Events(es, d, Read)|,
      |Events(es, d, Write)|,
      |Events(es, d, IdentityRead)|,
      Values(Events(es, d, StatusWrite)),
      |Events(es, d, ReadyWrite)|,
      |Events(es, d, NotifyWrite)|,
      |Events(es, d, InterruptRead)|,
      last.reg,
      last.value)
  }

  ghost predicate IsProbeSummary(es: seq<Event>, out: seq<Probe>) {
    && Sorting.StrictlySorted(out, (a: Probe, b: Probe) => Text.Less(a.name, b.name))
    && forall p :: p in out <==> IsProbed(p.name) && Seen(es, p.name) && p == ProbeOf(es, p.name)
  }

  // One event

  /** What the loop body does to a device's probe. */
  function Count(p: Probe, e: Event): Probe {
    var p' := if e.write then p.(writeCount := p.writeCount + 1) else p.(readCount := p.readCount + 1);
    var p'' :=
      match e.reg
      case MagicValue | Version | DeviceID | VendorID => if e.write then p' else p'.(identityReads := p'.identityReads + 1)
      case Status => if e.write then p'.(statusWrites := p'.statusWrites + [e.value]) else p'
      case QueueReady => if e.write then p'.(queueReady := p'.queueReady + 1) else p'
      case QueueNotify => if e.write then p'.(queueNotify := p'.queueNotify + 1) else p'
      case InterruptStatus => if e.write then p' else p'.(interrupts := p'.interrupts + 1)
      case _ => p';
    p''.(lastReg := e.reg, lastValue := e.value)
  }

  function NewProbe(d: string): Probe {
    Probe(d, 0, 0, 0, [], 0, 0, 0, OtherRegister(""), 0)
  }

  function ProbeOrNew(es: seq<Event>, d: string): Probe {
    if Seen(es, d) then ProbeOf(es, d) else NewProbe(d)
  }

  lemma AppendEvents(es: seq<Event>, e: Event, d: string, kind: Kind)
    ensures Events(es + [e], d, kind) == Events(es, d, kind) + if e.name == d && IsKind(e, kind) then [e] else []
    ensures LastEvent(es + [e], d) == if e.name == d then Some(e) else LastEvent(es, d)
  {
    assert (es + [e])[..|es + [e]| - 1] == es;
  }

  lemma {:induction false} UnseenEvents(es: seq<Event>, d: string, kind: Kind)
    requires !Seen(es, d)
    ensures Events(es, d, kind) == []
    decreases |es|
  {
    if es != [] {
      UnseenEvents(es[..|es| - 1], d, kind);
    }
  }

  lemma AppendProbe(es: seq<Event>, e: Event)
    ensures Seen(es + [e], e.name) && ProbeOf(es + [e], e.name) == Count(ProbeOrNew(es, e.name), e)
  {
    hide Events, LastEvent;
    forall kind: Kind
      ensures Events(es + [e], e.name, kind) == Events(es, e.name, kind) + if IsKind(e, kind) then [e] else []
    {
      AppendEvents(es, e, e.name, kind);
    }
    AppendEvents(es, e, e.name, Read);
    if !Seen(es, e.name) {
      forall kind: Kind ensures Events(es, e.name, kind) == [] {
        UnseenEvents(es, e.name, kind);
      }
    }
    var s := Events(es, e.name, StatusWrite);
    assert Values(s + [e]) == Values(s) + [e.value];
    assert Values(s + []) == Values(s);
  }

  lemma AppendElsewhere(es: seq<Event>, e: Event, d: string)
    requires e.name != d
    ensures Seen(es + [e], d) == Seen(es, d)
    ensures Seen(es, d) ==> ProbeOf(es + [e], d) == ProbeOf(es, d)
  {
    hide Events, LastEvent;
    forall kind: Kind ensures Events(es + [e], d, kind) == Events(es, d, kind) {
      AppendEvents(es, e, d, kind);
    }
    AppendEvents(es, e, d, Read);
  }

  // The loop

  method Summary(events: seq<Event>) returns (out: seq<Probe>)
    ensures IsProbeSummary(events, out)
  {
    var probes: map<string, Probe> := map[];
    var order: seq<string> := [];
    for i := 0 to |events|
      invariant forall d :: d in probes <==> IsProbed(d) && Seen(events[..i], d)
      invariant forall d :: d in probes ==> probes[d] == ProbeOf(events[..i], d)
      invariant Sorting.Distinct(order) && forall d :: d in order <==> d in probes
    {
      hide IsProbed, ProbeOf, Seen, Count;
      var e := events[i];
      assert events[..i + 1] == events[..i] + [e];
      AppendAll(events[..i], e);
      if IsProbed(e.name) {
        if e.name !in probes {
          probes := probes[e.name := NewProbe(e.name)];
          order := order + [e.name];
        }
        probes := probes[e.name := Count(probes[e.name], e)];
      }
    }
    assert events[..|events|] == events;
    out := Collect(events, probes, order);
  }

  lemma AppendAll(es: seq<Event>, e: Event)
    ensures Seen(es + [e], e.name) && ProbeOf(es + [e], e.name) == Count(ProbeOrNew(es, e.name), e)
    ensures forall d :: d != e.name ==> Seen(es + [e], d) == Seen(es, d)
    ensures forall d :: d != e.name && Seen(es, d) ==> ProbeOf(es + [e], d) == ProbeOf(es, d)
  {
    hide ProbeOf, Seen, Count, ProbeOrNew;
    AppendProbe(es, e);
    forall d | d != e.name
      ensures Seen(es + [e], d) == Seen(es, d) && (Seen(es, d) ==> ProbeOf(es + [e], d) == ProbeOf(es, d))
    {
      AppendElsewhere(es, e, d);
    }
  }

  method Collect(ghost es: seq<Event>, probes: map<string, Probe>, order: seq<string>) returns (out: seq<Probe>)
    requires forall d :: d in probes <==> IsProbed(d) && Seen(es, d)
    requires forall d :: d in probes ==> probes[d] == ProbeOf(es, d)
    requires Sorting.Distinct(order) && forall d :: d in order <==> d in probes
    ensures IsProbeSummary(es, out)
  {
    hide IsProbed, Seen, ProbeOf, Text.Less, Sorting.StrictlySorted, Sorting.Distinct, Sorting.Sort, IsProbeSummary;
    SortNames(order);
    forall d | d in probes ensures probes[d].name == d {
      ProbeName(es, d);
    }
    var names := Sorting.Sort(order, Text.Less);
    out := [];
    for i := 0 to |names|
      invariant |out| == i
      invariant forall k :: 0 <= k < i ==> out[k] == probes[names[k]]
    {
      assert names[i] in order;
      out := out + [probes[names[i]]];
    }
    forall k | 0 <= k < |out|
      ensures names[k] in probes && out[k] == probes[names[k]] && out[k].name == names[k]
    {
      assert names[k] in order;
    }
    Collected(es, probes, order, names, out);
  }

  lemma Collected(es: seq<Event>, probes: map<string, Probe>, order: seq<string>, names: seq<string>, out: seq<Probe>)
    requires forall d :: d in probes <==> IsProbed(d) && Seen(es, d)
    requires forall d :: d in probes ==> probes[d] == ProbeOf(es, d)
    requires forall d :: d in order <==> d in probes
    requires forall d :: d in names <==> d in order
    requires Sorting.StrictlySorted(names, Text.Less)
    requires |out| == |names| && forall k :: 0 <= k < |out| ==> names[k] in probes && out[k] == probes[names[k]] && out[k].name == names[k]
    ensures IsProbeSummary(es, out)
  {
    hide IsProbed, Seen, ProbeOf;
    forall p ensures p in out <==> IsProbed(p.name) && Seen(es, p.name) && p == ProbeOf(es, p.name) {
      if IsProbed(p.name) && Seen(es, p.name) && p == ProbeOf(es, p.name) {
        assert p.name in order && p.name in names;
        var k :| 0 <= k < |names| && names[k] == p.name;
        assert out[k] == p;
      }
      if p in out {
        var k :| 0 <= k < |out| && out[k] == p;
        assert names[k] in order;
      }
    }
  }

  lemma ProbeName(es: seq<Event>, d: string)
    requires Seen(es, d)
    ensures ProbeOf(es, d).name == d
  {}

  lemma SortNames(order: seq<string>)
    requires Sorting.Distinct(order)
    ensures Sorting.StrictlySorted(Sorting.Sort(order, Text.Less), Text.Less)
    ensures forall d :: d in Sorting.Sort(order, Text.Less) <==> d in order
  {
    hide Text.Less;
    forall x, y ensures !(Text.Less(x, y) && Text.Less(y, x)) && (x != y ==> Text.Less(x, y) || Text.Less(y, x)) {
      Text.LessAsymmetric(x, y);
      Text.LessTotal(x, y);
    }
    forall x, y, z | Text.Less(x, y) && !Text.Less(z, y) ensures Text.Less(x, z) {
      if y != z {
        Text.LessTransitive(x, y, z);
      }
    }
    Sorting.SortStrictly(order, Text.Less);
  }

  // What the counts mean

  /** Every access of a device is counted once, as a read or as a write. */
  lemma {:induction false} ReadsAndWrites(es: seq<Event>, d: string)
    ensures |Events(es, d, Read)| + |Events(es, d, Write)| == |OnDevice(es, d)|
    decreases |es|
  {
    if es != [] {
      ReadsAndWrites(es[..|es| - 1], d);
    }
  }

  /** A device's probe depends on its own events only. */
  lemma {:induction false} ProbeNonInterference(es: seq<Event>, d: string)
    ensures Seen(OnDevice(es, d), d) == Seen(es, d)
    ensures Seen(es, d) ==> ProbeOf(OnDevice(es, d), d) == ProbeOf(es, d)
    decreases |es|
  {
    if es != [] {
      hide ProbeOf, Seen, Count;
      var before, e := es[..|es| - 1], es[|es| - 1];
      assert es == before + [e];
      ProbeNonInterference(before, d);
      if e.name == d {
        AppendProbe(before, e);
        AppendProbe(OnDevice(before, d), e);
      } else {
        AppendElsewhere(before, e, d);
        assert OnDevice(es, d) == OnDevice(before, d);
      }
    }
  }
}
