// Data packets in a queue: one that meets a packet of its flow is merged into it
// if there is room, and over any run no sub-packet is lost or doubled.
module DataRuns {
  import opened Common
  import opened PacketBytes
  import opened Subpackets
  import opened PacketQueue
  import opened Decisions
  import opened QueueRuns
  import P = PacketTreatment
  import T = QueueTreatment

  /** A data packet of this flow that carries these sub-packets. */
  predicate DataOf(b: seq<byte>, flow: FlowId, subs: seq<Sub>) {
    Carries(b, subs) && b[0] == SDN_PACKET_DATA && FlowId(b[6], b[7]) == flow
  }

  /**
   * A data packet meets the first packet k of its flow from `from` on.  With room there, and for the sub-packets, it
   * ends up behind those that entry carries, and its buffer is set free; without, it is appended.  Nothing
   * else changes.
   */
  lemma {:induction false} DataJoinsItsFlow(q: seq<Slot>, from: nat, s: Slot, flow: FlowId, news: seq<Sub>,
                                            olds: seq<Sub>, k: nat)
    requires |q| < QUEUE_SIZE && DataOf(s.octets, flow, news) && from <= k < |q| && DataOf(q[k].octets, flow, olds)
    requires forall j {:trigger q[j]} :: from <= j < k ==>
      |q[j].octets| >= 8 && (q[j].octets[0] != SDN_PACKET_DATA || FlowId(q[j].octets[6], q[j].octets[7]) != flow)
    ensures
      var e := AfterEnqueue(q, from, s, P.Treat);
      if |news| + |olds| <= 8 && |s.octets| + |q[k].octets| <= 116 then
        && e.ok && e.freed == Some(s.buf) && |e.entries| == |q| && (forall j :: 0 <= j < |q| && j != k ==> e.entries[j] == q[j])
        && e.entries[k].buf == q[k].buf && DataOf(e.entries[k].octets, flow, olds + news)
      else e == Enqueued(q + [s], true, None)
  {
    forall j | from <= j < k
      ensures P.Treat(s.octets, q[j].octets) == Skip
    {
      assert q[j] == q[j];
      OthersAreSkipped(s.octets, q[j].octets);
    }
    DataIsJoined(s.octets, news, q[k].octets, olds);
    EnqueueIs(q, from, s, P.Treat, k);
    assert q[k := Slot(q[k].buf, q[k].octets)] == q;
  }

  // ---- Over any run.

  /** The sub-packets for a flow that a packet carries. */
  function DataIn(b: seq<byte>, flow: FlowId): seq<Sub> {
    if 8 <= |b| <= REACH && b[0] == SDN_PACKET_DATA && FlowId(b[6], b[7]) == flow then T.SubsIn(b) else []
  }

  lemma {:induction false} DataInIs(b: seq<byte>, flow: FlowId, subs: seq<Sub>)
    requires DataOf(b, flow, subs)
    ensures DataIn(b, flow) == subs
  {
    T.SubsInIs(b, subs);
  }

  /** All that the packets in a list carry for a flow. */
  function AllData(q: seq<Slot>, flow: FlowId): multiset<Sub> {
    if q == [] then multiset{} else AllData(q[..|q| - 1], flow) + multiset(DataIn(Last(q).octets, flow))
  }

  lemma {:induction false} Regroup(a: multiset<Sub>, b: multiset<Sub>, c: multiset<Sub>)
    ensures (a + b) + c == a + (b + c)
  {
  }

  lemma {:induction false} AllDataJoin(p: seq<Slot>, q: seq<Slot>, flow: FlowId)
    ensures AllData(p + q, flow) == AllData(p, flow) + AllData(q, flow)
  {
    if q == [] {
      assert p + q == p;
    } else {
      var front := q[..|q| - 1];
      AllDataJoin(p, front, flow);
      assert (p + q)[..|p + q| - 1] == p + front && Last(p + q) == Last(q);
      Regroup(AllData(p, flow), AllData(front, flow), multiset(DataIn(Last(q).octets, flow)));
    }
  }

  lemma {:induction false} OneData(s: Slot, flow: FlowId)
    ensures AllData([s], flow) == multiset(DataIn(s.octets, flow))
  {
    assert [s][..0] == [];
  }

  lemma {:induction false} DataReplaced(q: seq<Slot>, k: nat, s: Slot, flow: FlowId)
    requires k < |q|
    ensures AllData(q[k := s], flow) + multiset(DataIn(q[k].octets, flow)) == AllData(q, flow) + multiset(DataIn(s.octets, flow))
  {
    var front, back := q[..k], q[k + 1..];
    assert q == front + [q[k]] + back && q[k := s] == front + [s] + back;
    AllDataJoin(front + [q[k]], back, flow);
    AllDataJoin(front + [s], back, flow);
    AllDataJoin(front, [q[k]], flow);
    AllDataJoin(front, [s], flow);
    OneData(q[k], flow);
    OneData(s, flow);
  }

  /** A data packet is as the merging code leaves it. */
  predicate Sound(b: seq<byte>) {
    |b| >= 8 && b[0] == SDN_PACKET_DATA ==> |b| <= REACH && Carries(b, T.SubsIn(b))
  }

  /** Whatever treatment does to a queued packet, what the two carry stays. */
  predicate KeepsData(outcome: Outcome, a: seq<byte>, q: seq<byte>, flow: FlowId) {
    match outcome
    case Skip => true
    case Replace => DataIn(a, flow) == [] && DataIn(q, flow) == []
    case Absorbed(o) => Sound(o) && DataIn(o, flow) == DataIn(q, flow) + DataIn(a, flow)
    case Refused(o) => Sound(o) && DataIn(o, flow) == DataIn(q, flow)
  }

  lemma {:induction false} SameFlowKeepsData(a: seq<byte>, q: seq<byte>, flow: FlowId)
    requires |a| >= 8 && |q| >= 8 && Sound(a) && Sound(q) && a[0] == q[0] == SDN_PACKET_DATA && a[6] == q[6] && a[7] == q[7]
    ensures KeepsData(P.Treat(a, q), a, q, flow)
  {
    var news, olds := T.SubsIn(a), T.SubsIn(q);
    DataIsJoined(a, news, q, olds);
    match P.Treat(a, q)
    case Absorbed(o) => T.SubsInIs(o, olds + news);
    case _ =>
  }

  lemma {:induction false} OtherTypeKeepsData(a: seq<byte>, q: seq<byte>, flow: FlowId)
    requires |a| >= 8 && |q| >= 8 && a[0] == q[0] != SDN_PACKET_DATA
    ensures KeepsData(P.Treat(a, q), a, q, flow)
  {
    if P.Treat(a, q) != Skip {
      P.DecisionKeepsGoodIff(a, q);
    }
  }

  lemma {:induction false} TreatmentKeepsData(a: seq<byte>, q: seq<byte>, flow: FlowId)
    requires Sound(a) && Sound(q)
    ensures KeepsData(P.Treat(a, q), a, q, flow)
  {
    if |a| < 8 || |q| < 8 {
    } else if a[0] != q[0] || (a[0] == SDN_PACKET_DATA && (a[6] != q[6] || a[7] != q[7])) {
      OthersAreSkipped(a, q);
    } else if a[0] == SDN_PACKET_DATA {
      SameFlowKeepsData(a, q, flow);
    } else {
      OtherTypeKeepsData(a, q, flow);
    }
  }

  predicate AllSound(q: seq<Slot>) {
    forall j {:trigger q[j]} :: 0 <= j < |q| ==> Sound(q[j].octets)
  }

  /** An accepted packet adds what it carries, and a refused one leaves the queue as it is. */
  lemma {:induction false} EnqueueKeepsData(q: seq<Slot>, from: nat, s: Slot, flow: FlowId)
    requires from <= |q| && AllSound(q) && Sound(s.octets)
    ensures
      var e := AfterEnqueue(q, from, s, P.Treat);
      && AllSound(e.entries)
      && AllData(e.entries, flow) == AllData(q, flow) + if e.ok then multiset(DataIn(s.octets, flow)) else multiset{}
  {
    var k := FirstTreated(q, from, s, P.Treat);
    EnqueueIs(q, from, s, P.Treat, k);
    if |q| < QUEUE_SIZE {
      if k < |q| {
        TreatmentKeepsData(s.octets, q[k].octets, flow);
        TreatedKeepsData(q, s, flow, k, P.Treat(s.octets, q[k].octets), AfterEnqueue(q, from, s, P.Treat));
      } else {
        AppendedKeepsData(q, s, flow);
      }
    }
  }

  lemma {:induction false} Cancelled(a: multiset<Sub>, b: multiset<Sub>, x: seq<Sub>, y: seq<Sub>)
    requires a + multiset(x) == b + multiset(x + y)
    ensures a == b + multiset(y)
  {
    assert multiset(x + y) == multiset(x) + multiset(y);
    forall e: Sub
      ensures a[e] == (b + multiset(y))[e]
    {
      assert (a + multiset(x))[e] == (b + multiset(x + y))[e];
    }
  }

  /** Entry k with other octets, which carry what is added. */
  lemma {:induction false} RewrittenKeepsData(q: seq<Slot>, k: nat, o: seq<byte>, flow: FlowId, added: seq<Sub>)
    requires k < |q| && AllSound(q) && Sound(o) && DataIn(o, flow) == DataIn(q[k].octets, flow) + added
    ensures AllSound(q[k := Slot(q[k].buf, o)])
    ensures AllData(q[k := Slot(q[k].buf, o)], flow) == AllData(q, flow) + multiset(added)
  {
    var q' := q[k := Slot(q[k].buf, o)];
    DataReplaced(q, k, Slot(q[k].buf, o), flow);
    Cancelled(AllData(q', flow), AllData(q, flow), DataIn(q[k].octets, flow), added);
  }

  lemma {:induction false} AppendedKeepsData(q: seq<Slot>, s: Slot, flow: FlowId)
    requires AllSound(q) && Sound(s.octets)
    ensures AllSound(q + [s]) && AllData(q + [s], flow) == AllData(q, flow) + multiset(DataIn(s.octets, flow))
  {
    AllDataJoin(q, [s], flow);
    OneData(s, flow);
  }

  lemma {:induction false} TreatedKeepsData(q: seq<Slot>, s: Slot, flow: FlowId, k: nat, found: Outcome, e: Enqueued)
    requires k < |q| && AllSound(q) && Sound(s.octets) && KeepsData(found, s.octets, q[k].octets, flow)
    requires
      match found
      case Skip => false
      case Replace => e == Enqueued(q[k := s], true, Some(q[k].buf))
      case Absorbed(o) => e == Enqueued(q[k := Slot(q[k].buf, o)], true, Some(s.buf))
      case Refused(o) => e == Enqueued(q[k := Slot(q[k].buf, o)] + [s], true, None)
    ensures AllSound(e.entries) && AllData(e.entries, flow) == AllData(q, flow) + multiset(DataIn(s.octets, flow))
  {
    match found
    case Replace =>
      DataReplaced(q, k, s, flow);
    case Absorbed(o) =>
      RewrittenKeepsData(q, k, o, flow, DataIn(s.octets, flow));
    case Refused(o) =>
      assert DataIn(q[k].octets, flow) + [] == DataIn(q[k].octets, flow);
      RewrittenKeepsData(q, k, o, flow, []);
      AppendedKeepsData(q[k := Slot(q[k].buf, o)], s, flow);
  }

  /** Nothing that is carried gets lost. */
  ghost predicate Conserved(l: Log, flow: FlowId) {
    AllSound(l.q) && AllData(l.left, flow) + AllData(l.q, flow) == AllData(l.heard, flow)
  }

  lemma {:induction false} ArrivalConserves(l: Log, s: Slot, from: nat, flow: FlowId, e: Enqueued)
    requires Conserved(l, flow) && Sound(s.octets) && from <= |l.q| && e == AfterEnqueue(l.q, from, s, P.Treat)
    ensures Conserved(Log(e.entries, l.heard + (if e.ok then [s] else []), l.left), flow)
  {
    EnqueueKeepsData(l.q, from, s, flow);
    if e.ok {
      AllDataJoin(l.heard, [s], flow);
      OneData(s, flow);
    } else {
      assert l.heard + [] == l.heard;
    }
  }

  lemma {:induction false} HeadMoved(left: seq<Slot>, head: Slot, rest: seq<Slot>, flow: FlowId)
    ensures AllData(left + [head], flow) + AllData(rest, flow) == AllData(left, flow) + AllData([head] + rest, flow)
  {
    AllDataJoin(left, [head], flow);
    AllDataJoin([head], rest, flow);
  }

  lemma {:induction false} RestIsSound(head: Slot, rest: seq<Slot>)
    requires AllSound([head] + rest)
    ensures AllSound(rest)
  {
    var q := [head] + rest;
    forall j {:trigger rest[j]} | 0 <= j < |rest|
      ensures Sound(rest[j].octets)
    {
      assert q[j + 1] == rest[j];
    }
  }

  lemma {:induction false} LeavingConserves(head: Slot, rest: seq<Slot>, heard: seq<Slot>, left: seq<Slot>, flow: FlowId)
    requires Conserved(Log([head] + rest, heard, left), flow)
    ensures Conserved(Log(rest, heard, left + [head]), flow)
  {
    RestIsSound(head, rest);
    HeadMoved(left, head, rest, flow);
  }

  /** What an event does, as an enqueue or a dequeue. */
  lemma {:induction false} NextIs(l: Log, ev: Event, fixed: nat) returns (from: nat, e: Enqueued)
    ensures ev.Arrives? ==>
      && from <= |l.q| && e == AfterEnqueue(l.q, from, ev.s, P.Treat)
      && Next(l, ev, fixed) == Log(e.entries, l.heard + (if e.ok then [ev.s] else []), l.left)
    ensures ev.Leaves? && l.q != [] ==>
      l.q == [l.q[0]] + l.q[1..] && Next(l, ev, fixed) == Log(l.q[1..], l.heard, l.left + [l.q[0]])
  {
    from := if fixed <= |l.q| then fixed else |l.q|;
    e := if ev.Arrives? then AfterEnqueue(l.q, from, ev.s, P.Treat) else Enqueued(l.q, true, None);
  }

  lemma {:induction false} NextConserves(l: Log, ev: Event, fixed: nat, flow: FlowId)
    requires Conserved(l, flow) && (ev.Arrives? ==> Sound(ev.s.octets))
    ensures Conserved(Next(l, ev, fixed), flow)
  {
    var from, e := NextIs(l, ev, fixed);
    if ev.Arrives? {
      ArrivalConserves(l, ev.s, from, flow, e);
    } else if l.q != [] {
      LeavingConserves(l.q[0], l.q[1..], l.heard, l.left, flow);
    }
  }

  /**
   * Main theorem: after any run, the data sub-packets of a flow that wait or have left are those of the packets
   * the queue accepted, each as often as it was accepted.
   */
  lemma {:induction false} DataIsConserved(events: seq<Event>, fixed: nat, flow: FlowId)
    requires forall ev :: ev in events && ev.Arrives? ==> Sound(ev.s.octets)
    ensures Conserved(Course(events, fixed), flow)
    decreases |events|
  {
    if events != [] {
      var front := events[..|events| - 1];
      DataIsConserved(front, fixed, flow);
      assert Last(events) in events;
      NextConserves(Course(front, fixed), Last(events), fixed, flow);
    }
  }
}
