// Whole queues under treatment: what becomes of neighbor reports over any run,
// and of a data packet that meets one of its flow.
module QueueRuns {
  import opened Common
  import opened PacketBytes
  import opened Subpackets
  import opened PacketQueue
  import opened Decisions
  import P = PacketTreatment

  // ---- Neighbor reports.

  /** A neighbor report for one destination. */
  predicate Report(b: seq<byte>, dest: Addr) {
    8 <= |b| <= SDN_MAX_PACKET_SIZE && b[0] == SDN_PACKET_NEIGHBOR_REPORT && b[1] % 2 == 0 && Addr(b[6], b[7]) == dest
  }

  /** Any other packet. */
  predicate OtherPacket(b: seq<byte>, dest: Addr) {
    !(|b| >= 8 && b[0] == SDN_PACKET_NEIGHBOR_REPORT && Addr(b[6], b[7]) == dest)
  }

  predicate Fits(b: seq<byte>, dest: Addr) {
    Report(b, dest) || OtherPacket(b, dest)
  }

  predicate AllFit(q: seq<Slot>, dest: Addr) {
    forall j {:trigger q[j]} :: 0 <= j < |q| ==> Fits(q[j].octets, dest)
  }

  function Sender(b: seq<byte>): Addr {
    if |b| < 6 then Addr(0, 0) else Addr(b[4], b[5])
  }

  /** A report of this node. */
  predicate ReportOf(b: seq<byte>, dest: Addr, sender: Addr) {
    Report(b, dest) && Sender(b) == sender
  }

  lemma {:induction false} ReportMeets(a: seq<byte>, q: seq<byte>, dest: Addr, sender: Addr)
    requires ReportOf(a, dest, sender) && Fits(q, dest)
    ensures P.Treat(a, q) == if ReportOf(q, dest, sender) then Replace else Skip
  {
    if OtherPacket(q, dest) {
      if |q| >= 8 {
        OthersAreSkipped(a, q);
      }
    } else {
      ReportsReplaceTheirOwn(a, q);
    }
  }

  lemma {:induction false} OtherMeets(a: seq<byte>, q: seq<byte>, dest: Addr)
    requires OtherPacket(a, dest) && Fits(q, dest)
    ensures Report(q, dest) ==> P.Treat(a, q) == Skip
    ensures
      match P.Treat(a, q)
      case Absorbed(o) => OtherPacket(o, dest)
      case Refused(o) => OtherPacket(o, dest)
      case _ => true
  {
    if |a| >= 8 && |q| >= 8 {
      if Report(q, dest) {
        OthersAreSkipped(a, q);
      } else if P.Treat(a, q) != Skip && P.Treat(a, q) != Replace {
        MergedHasOneHeader(a, q);
        P.DecisionKeepsGoodIff(a, q);
      }
    }
  }

  /** k is the first entry from `from` on that is a report of this node, or the end. */
  predicate OwnReportAt(q: seq<Slot>, from: nat, dest: Addr, sender: Addr, k: nat) {
    && from <= k <= |q| && (forall j {:trigger q[j]} :: from <= j < k ==> !ReportOf(q[j].octets, dest, sender))
    && (k < |q| ==> ReportOf(q[k].octets, dest, sender))
  }

  /**
   * A report takes the place, in the queue, of the one that the same node sent before, or is appended.
   * All other entries, and the reports of other nodes among them, stay as and where they are.
   */
  lemma {:induction false} ReportIsPlaced(q: seq<Slot>, from: nat, s: Slot, dest: Addr, sender: Addr, k: nat)
    requires AllFit(q, dest) && ReportOf(s.octets, dest, sender) && OwnReportAt(q, from, dest, sender, k)
    ensures
      AfterEnqueue(q, from, s, P.Treat) ==
      if |q| >= QUEUE_SIZE then Enqueued(q, false, None)
      else if k < |q| then Enqueued(q[k := s], true, Some(q[k].buf))
      else Enqueued(q + [s], true, None)
  {
    forall j | from <= j < k
      ensures P.Treat(s.octets, q[j].octets) == Skip
    {
      ReportMeets(s.octets, q[j].octets, dest, sender);
    }
    if k < |q| {
      ReportMeets(s.octets, q[k].octets, dest, sender);
    }
    EnqueueIs(q, from, s, P.Treat, k);
  }

  /** Any other packet leaves all reports as and where they are. */
  lemma {:induction false} OtherLeavesReports(q: seq<Slot>, from: nat, s: Slot, dest: Addr)
    requires from <= |q| && AllFit(q, dest) && OtherPacket(s.octets, dest)
    ensures
      var q' := AfterEnqueue(q, from, s, P.Treat).entries;
      && |q| <= |q'| && AllFit(q', dest)
      && (forall j {:trigger q'[j]} :: 0 <= j < |q'| && Report(q'[j].octets, dest) ==> j < |q| && q'[j] == q[j])
      && (forall j {:trigger q[j]} :: 0 <= j < |q| && Report(q[j].octets, dest) ==> q'[j] == q[j])
  {
    var k := FirstTreated(q, from, s, P.Treat);
    EnqueueIs(q, from, s, P.Treat, k);
    if k < |q| {
      OtherMeets(s.octets, q[k].octets, dest);
    }
  }

  lemma {:induction false} FirstTreated(q: seq<Slot>, from: nat, s: Slot, f: Treatment) returns (k: nat)
    requires from <= |q|
    ensures from <= k <= |q| && forall j :: from <= j < k ==> f(s.octets, q[j].octets) == Skip
    ensures k < |q| ==> f(s.octets, q[k].octets) != Skip
    decreases |q| - from
  {
    if from == |q| || f(s.octets, q[from].octets) != Skip {
      k := from;
    } else {
      k := FirstTreated(q, from + 1, s, f);
    }
  }

  lemma {:induction false} FirstOwnReport(q: seq<Slot>, from: nat, dest: Addr, sender: Addr) returns (k: nat)
    requires from <= |q|
    ensures OwnReportAt(q, from, dest, sender, k)
    decreases |q| - from
  {
    if from == |q| || ReportOf(q[from].octets, dest, sender) {
      k := from;
    } else {
      k := FirstOwnReport(q, from + 1, dest, sender);
    }
  }

  // ---- Over a run: any packets arrive, and the head leaves now and then.

  datatype Event = Arrives(s: Slot) | Leaves

  /** The queue, the packets it has accepted so far, and the entries that have left. */
  datatype Log = Log(q: seq<Slot>, heard: seq<Slot>, left: seq<Slot>)

  /** The first `fixed` entries are not treated: none in the receive queue, the one being sent in the send queue. */
  function Next(l: Log, ev: Event, fixed: nat): Log {
    match ev
    case Arrives(s) =>
      var e := AfterEnqueue(l.q, if fixed <= |l.q| then fixed else |l.q|, s, P.Treat);
      Log(e.entries, l.heard + (if e.ok then [s] else []), l.left)
    case Leaves => if l.q == [] then l else Log(l.q[1..], l.heard, l.left + [l.q[0]])
  }

  function Course(events: seq<Event>, fixed: nat): Log {
    if events == [] then Log([], [], []) else Next(Course(events[..|events| - 1], fixed), Last(events), fixed)
  }

  /** Packet i is a report, and the last of its sender. */
  predicate IsLatest(heard: seq<Slot>, i: int, dest: Addr) {
    && 0 <= i < |heard| && Report(heard[i].octets, dest)
    && forall m {:trigger heard[m]} :: i < m < |heard| ==> !ReportOf(heard[m].octets, dest, Sender(heard[i].octets))
  }

  /** Every report that waits behind the fixed entries is the latest of its sender. */
  ghost predicate OnlyLatest(q: seq<Slot>, heard: seq<Slot>, fixed: nat, dest: Addr) {
    forall j {:trigger q[j]} :: fixed <= j < |q| && Report(q[j].octets, dest) ==>
      exists i :: IsLatest(heard, i, dest) && heard[i] == q[j]
  }

  /** No two of them have the same sender. */
  predicate OneEach(q: seq<Slot>, fixed: nat, dest: Addr) {
    forall j, k {:trigger q[j], q[k]} ::
      fixed <= j < k < |q| && Report(q[j].octets, dest) && Report(q[k].octets, dest) ==> Sender(q[j].octets) != Sender(q[k].octets)
  }

  /** The latest of every sender waits, or has left. */
  ghost predicate AllLatest(l: Log, dest: Addr) {
    forall i :: IsLatest(l.heard, i, dest) ==> l.heard[i] in l.q || l.heard[i] in l.left
  }

  ghost predicate LatestWait(l: Log, fixed: nat, dest: Addr) {
    && AllFit(l.q, dest)
    && OnlyLatest(l.q, l.heard, fixed, dest) && OneEach(l.q, fixed, dest) && AllLatest(l, dest)
  }

  lemma {:induction false} LatestMore(heard: seq<Slot>, s: Slot, i: int, dest: Addr)
    requires 0 <= i < |heard|
    ensures IsLatest(heard + [s], i, dest) <==> IsLatest(heard, i, dest) && !ReportOf(s.octets, dest, Sender(heard[i].octets))
  {
    var more := heard + [s];
    assert forall m :: 0 <= m < |heard| ==> more[m] == heard[m];
    assert more[|heard|] == s;
    assert IsLatest(more, i, dest) ==> !ReportOf(more[|heard|].octets, dest, Sender(more[i].octets));
  }

  /** The queue when a report has come in, at its sender's place or at the end. */
  predicate TakenIn(q: seq<Slot>, q': seq<Slot>, s: Slot, k: nat) {
    q' == if k < |q| then q[k := s] else q + [s]
  }

  lemma {:induction false} ReportKeepsOnlyLatest(q: seq<Slot>, q': seq<Slot>, heard: seq<Slot>, fixed: nat,
                                                 from: nat, dest: Addr, s: Slot, k: nat)
    requires OnlyLatest(q, heard, fixed, dest) && OneEach(q, fixed, dest) && from == if fixed <= |q| then fixed else |q|
    requires OwnReportAt(q, from, dest, Sender(s.octets), k) && TakenIn(q, q', s, k)
    ensures OnlyLatest(q', heard + [s], fixed, dest)
  {
    forall j {:trigger q'[j]} | fixed <= j < |q'| && Report(q'[j].octets, dest)
      ensures exists i :: IsLatest(heard + [s], i, dest) && (heard + [s])[i] == q'[j]
    {
      if j == k {
        var n := |heard|;
        assert (heard + [s])[n] == q'[j] && IsLatest(heard + [s], n, dest);
      } else {
        assert q'[j] == q[j] && Sender(q[j].octets) != Sender(s.octets);
        var i :| IsLatest(heard, i, dest) && heard[i] == q[j];
        LatestMore(heard, s, i, dest);
        assert (heard + [s])[i] == q'[j];
      }
    }
  }

  lemma {:induction false} ReportKeepsOneEach(q: seq<Slot>, q': seq<Slot>, fixed: nat, from: nat, dest: Addr, s: Slot, k: nat)
    requires OneEach(q, fixed, dest) && from == if fixed <= |q| then fixed else |q|
    requires OwnReportAt(q, from, dest, Sender(s.octets), k) && TakenIn(q, q', s, k)
    ensures OneEach(q', fixed, dest)
  {
    assert forall j :: 0 <= j < |q| && j != k ==> q'[j] == q[j];
    assert q'[k] == s;
  }

  lemma {:induction false} ReportKeepsAllLatest(l: Log, q': seq<Slot>, from: nat, dest: Addr, s: Slot, k: nat)
    requires AllLatest(l, dest) && Report(s.octets, dest)
    requires OwnReportAt(l.q, from, dest, Sender(s.octets), k) && TakenIn(l.q, q', s, k)
    ensures AllLatest(Log(q', l.heard + [s], l.left), dest)
  {
    var heard := l.heard + [s];
    forall i | IsLatest(heard, i, dest)
      ensures heard[i] in q' || heard[i] in l.left
    {
      if i == |l.heard| {
        assert q'[k] == s;
      } else {
        LatestMore(l.heard, s, i, dest);
        if l.heard[i] in l.q {
          var j :| 0 <= j < |l.q| && l.q[j] == l.heard[i];
          assert q'[j] == l.q[j];
        }
      }
    }
  }

  lemma {:induction false} ReportArrives(l: Log, s: Slot, fixed: nat, dest: Addr)
    requires LatestWait(l, fixed, dest) && Report(s.octets, dest)
    ensures LatestWait(Next(l, Arrives(s), fixed), fixed, dest)
  {
    var from := if fixed <= |l.q| then fixed else |l.q|;
    var k := FirstOwnReport(l.q, from, dest, Sender(s.octets));
    ReportIsPlaced(l.q, from, s, dest, Sender(s.octets), k);
    if |l.q| >= QUEUE_SIZE {
      assert l.heard + [] == l.heard;
    } else {
      var q' := if k < |l.q| then l.q[k := s] else l.q + [s];
      ReportKeepsOnlyLatest(l.q, q', l.heard, fixed, from, dest, s, k);
      ReportKeepsOneEach(l.q, q', fixed, from, dest, s, k);
      ReportKeepsAllLatest(l, q', from, dest, s, k);
      assert Next(l, Arrives(s), fixed) == Log(q', l.heard + [s], l.left);
    }
  }

  lemma {:induction false} OtherArrives(l: Log, s: Slot, fixed: nat, dest: Addr)
    requires LatestWait(l, fixed, dest) && OtherPacket(s.octets, dest)
    ensures LatestWait(Next(l, Arrives(s), fixed), fixed, dest)
  {
    var from := if fixed <= |l.q| then fixed else |l.q|;
    OtherLeavesReports(l.q, from, s, dest);
    var q' := AfterEnqueue(l.q, from, s, P.Treat).entries;
    OtherKeepsLatest(l, q', s, fixed, dest);
    assert l.heard + [] == l.heard;
  }

  lemma {:induction false} OtherKeepsLatest(l: Log, q': seq<Slot>, s: Slot, fixed: nat, dest: Addr)
    requires LatestWait(l, fixed, dest) && |l.q| <= |q'| && AllFit(q', dest) && OtherPacket(s.octets, dest)
    requires forall j {:trigger q'[j]} :: 0 <= j < |q'| && Report(q'[j].octets, dest) ==> j < |l.q| && q'[j] == l.q[j]
    requires forall j {:trigger l.q[j]} :: 0 <= j < |l.q| && Report(l.q[j].octets, dest) ==> q'[j] == l.q[j]
    ensures LatestWait(Log(q', l.heard, l.left), fixed, dest)
    ensures LatestWait(Log(q', l.heard + [s], l.left), fixed, dest)
  {
    forall i | IsLatest(l.heard, i, dest)
      ensures l.heard[i] in q' || l.heard[i] in l.left
    {
      if l.heard[i] in l.q {
        var j :| 0 <= j < |l.q| && l.q[j] == l.heard[i];
        assert q'[j] == l.q[j];
      }
    }
    OtherHeard(l.heard, s, dest);
  }

  /** Other packets are no reports. */
  lemma {:induction false} OtherHeard(heard: seq<Slot>, s: Slot, dest: Addr)
    requires OtherPacket(s.octets, dest)
    ensures forall i :: IsLatest(heard + [s], i, dest) <==> IsLatest(heard, i, dest)
  {
    forall i
      ensures IsLatest(heard + [s], i, dest) <==> IsLatest(heard, i, dest)
    {
      if 0 <= i < |heard| {
        LatestMore(heard, s, i, dest);
      }
    }
  }

  lemma {:induction false} HeadLeaves(l: Log, fixed: nat, dest: Addr)
    requires LatestWait(l, fixed, dest)
    ensures LatestWait(Next(l, Leaves, fixed), fixed, dest)
  {
    if l.q != [] {
      var q', left := l.q[1..], l.left + [l.q[0]];
      assert forall j {:trigger q'[j]} :: 0 <= j < |q'| ==> q'[j] == l.q[j + 1];
      assert l.q == [l.q[0]] + q';
      assert left[|l.left|] == l.q[0];
    }
  }

  /**
   * Main theorem: after any run, behind the entries that are not treated there waits at most one report of
   * each node, and it is the latest that was accepted from it; and the latest of every node heard waits,
   * unless it has left.
   */
  lemma {:induction false} LatestReportsWait(events: seq<Event>, fixed: nat, dest: Addr)
    requires forall ev :: ev in events && ev.Arrives? ==> Fits(ev.s.octets, dest)
    ensures LatestWait(Course(events, fixed), fixed, dest)
    decreases |events|
  {
    if events != [] {
      var front, ev := events[..|events| - 1], Last(events);
      LatestReportsWait(front, fixed, dest);
      assert ev in events;
      var l := Course(front, fixed);
      if ev.Leaves? {
        HeadLeaves(l, fixed, dest);
      } else if Report(ev.s.octets, dest) {
        ReportArrives(l, ev.s, fixed, dest);
      } else {
        OtherArrives(l, ev.s, fixed, dest);
      }
    }
  }
}
