// The sending half of a node: one packet at a time goes from the head of the
// send queue to the radio, driven by posted events and completion callbacks.
module SendProcess {
  import opened Common
  import opened PacketQueue

  /** SDN_SEND_IDLE, SDN_SEND_BUSY and SDN_SEND_ACK_WAIT. */
  datatype Status = Idle | Busy | AckWait

  /**
   * pending counts the wake-up events posted and not yet taken; inFlight is the entry given to
   * the radio, as it was then, until its completion is reported.
   */
  datatype Sender = Sender(q: seq<Slot>, status: Status, pending: nat, inFlight: Option<Slot>)

  datatype Arrival = Arrival(s: Slot, f: Treatment)

  /** sdn_send_down_once */
  function Kicked(s: Sender): Sender {
    if s.status == Idle && s.q != [] then s.(status := Busy, pending := s.pending + 1) else s
  }

  /** A packet is put in the send queue, and the process is kicked if that worked. */
  function Requested(s: Sender, a: Arrival): Sender
    requires s.status == Idle || s.q != []
  {
    var e := AfterEnqueue(s.q, if s.status == Idle then 0 else 1, a.s, a.f);
    if e.ok then Kicked(s.(q := e.entries)) else s
  }

  /** Treating a packet may request others to be sent; the status is not idle then. */
  function RequestedAll(s: Sender, during: seq<Arrival>): (s': Sender)
    requires s.q != []
    ensures s'.q != []
  {
    if during == [] then s
    else
      var t := RequestedAll(s, during[..|during| - 1]);
      AfterEnqueueNonempty(t, Last(during));
      Requested(t, Last(during))
  }

  lemma {:induction false} AfterEnqueueNonempty(s: Sender, a: Arrival)
    requires s.q != []
    ensures Requested(s, a).q != []
  {
    TreatedKeepsLength(s.q, if s.status == Idle then 0 else 1, a.s, a.f);
  }

  /** The head leaves the queue, and the next packet gets its turn. */
  function Finished(s: Sender): Sender
    requires s.q != []
  {
    Kicked(Sender(s.q[1..], Idle, s.pending, None))
  }

  /** The send process takes a wake-up; routed says whether treatment found a next hop. */
  function Woken(s: Sender, routed: bool, during: seq<Arrival>): Sender
    requires s.pending > 0 && s.q != []
  {
    var t := RequestedAll(s.(pending := s.pending - 1), during);
    if routed then t.(status := AckWait, inFlight := Some(t.q[0])) else Finished(t)
  }

  /** sdn_send_done with the octets found where the radio says the packet was. */
  function Completed(s: Sender, atPointer: seq<byte>, during: seq<Arrival>): Sender
    requires s.q != []
  {
    if atPointer != s.q[0].octets then s else Finished(RequestedAll(s, during))
  }

  /** What holds between events. */
  predicate Settled(s: Sender) {
    match s.status
    case Idle => s.q == [] && s.pending == 0 && s.inFlight == None
    case Busy => s.q != [] && s.pending == 1 && s.inFlight == None
    case AckWait => s.q != [] && s.pending == 0 && s.inFlight == Some(s.q[0])
  }

  datatype Event =
    | Request(a: Arrival)
    | Wakeup(routed: bool, during: seq<Arrival>)
    | Done(during: seq<Arrival>)

  /** The pointer a completion carries is the one that was given to the radio. */
  function Step(s: Sender, e: Event): Sender {
    match e
    case Request(a) => if s.status == Idle || s.q != [] then Requested(s, a) else s
    case Wakeup(routed, during) => if s.pending > 0 && s.q != [] then Woken(s, routed, during) else s
    case Done(during) => if s.inFlight.Some? && s.q != [] then Completed(s, s.inFlight.value.octets, during) else s
  }

  /** While a packet is being sent, requests leave the head and everything but the queue alone. */
  lemma {:induction false} RequestsLeaveHead(s: Sender, during: seq<Arrival>)
    requires s.status != Idle && s.q != []
    ensures
      var t := RequestedAll(s, during);
      t.q != [] && t.q[0] == s.q[0] && t == s.(q := t.q)
  {
    if during != [] {
      RequestsLeaveHead(s, during[..|during| - 1]);
      RequestLeavesHead(RequestedAll(s, during[..|during| - 1]), Last(during));
    }
  }

  lemma {:induction false} RequestLeavesHead(s: Sender, a: Arrival)
    requires s.status != Idle && s.q != []
    ensures
      var t := Requested(s, a);
      t.q != [] && t.q[0] == s.q[0] && t == s.(q := t.q)
  {
    HeadUntouched(s.q, 1, a.s, a.f);
  }

  lemma {:induction false} HeadUntouched(q: seq<Slot>, i: nat, s: Slot, f: Treatment)
    requires 0 < i <= |q|
    ensures |Treated(q, i, s, f).0| == |q| && Treated(q, i, s, f).0[0] == q[0]
    decreases |q| - i
  {
    if i < |q| && f(s.octets, q[i].octets) == Skip {
      HeadUntouched(q, i + 1, s, f);
    }
  }

  /** Every event keeps the machine settled, and a completion removes exactly the packet that was sent. */
  lemma {:induction false} StepKeepsSettled(s: Sender, e: Event)
    requires Settled(s)
    ensures Settled(Step(s, e))
    ensures e.Done? && s.inFlight.Some? ==> |s.q| > 0 && s.q[0] == s.inFlight.value && Step(s, e).inFlight == None
  {
    match e
    case Request(a) =>
      if s.status != Idle {
        RequestLeavesHead(s, a);
      }
    case Wakeup(routed, during) =>
      if s.pending > 0 {
        RequestsLeaveHead(s.(pending := 0), during);
      }
    case Done(during) =>
      if s.inFlight.Some? {
        RequestsLeaveHead(s, during);
      }
  }

  function Run(events: seq<Event>): Sender {
    if events == [] then Sender([], Idle, 0, None) else Step(Run(events[..|events| - 1]), Last(events))
  }

  /**
   * Main theorem.  After any run: the status is idle exactly when the queue is empty; otherwise exactly
   * one wake-up is pending or exactly one packet is with the radio, never both, and that packet is
   * still at the head of the queue, octet for octet.
   */
  lemma {:induction false} NoLostWakeup(events: seq<Event>)
    ensures
      var s := Run(events);
      && Settled(s) && (s.status == Idle <==> s.q == [])
      && (s.q != [] ==> (s.pending == 1) != s.inFlight.Some? && s.pending <= 1)
      && (s.inFlight.Some? ==> s.q != [] && s.q[0] == s.inFlight.value)
    decreases |events|
  {
    if events != [] {
      NoLostWakeup(events[..|events| - 1]);
      StepKeepsSettled(Run(events[..|events| - 1]), Last(events));
    }
  }

  lemma {:induction false} RequestsPass(s: Sender, during: seq<Arrival>, qs: seq<seq<Slot>>)
    requires s.status != Idle && s.q != []
    requires |qs| == |during| + 1 && qs[0] == s.q && forall i :: 0 <= i < |qs| ==> qs[i] != []
    requires forall i :: 0 <= i < |during| ==> qs[i + 1] == AfterEnqueue(qs[i], 1, during[i].s, during[i].f).entries
    ensures RequestedAll(s, during) == s.(q := Last(qs))
  {
    if during != [] {
      var front, n := during[..|during| - 1], |during|;
      RequestsPass(s, front, qs[..n]);
      assert Last(qs) == qs[n] && Last(qs[..n]) == qs[n - 1];
    }
  }

  /**
   * Every packet that is requested while the head is treated, or its completion handled, is enqueued behind
   * the head, in order: the queue passes through the states qs.  Then the head goes to the radio, or leaves
   * and the next packet has its turn.
   */
  lemma {:induction false} RequestsAreEnqueued(s: Sender, routed: bool, during: seq<Arrival>, qs: seq<seq<Slot>>)
    requires Settled(s) && s.status != Idle
    requires |qs| == |during| + 1 && qs[0] == s.q && forall i :: 0 <= i < |qs| ==> qs[i] != []
    requires forall i :: 0 <= i < |during| ==> qs[i + 1] == AfterEnqueue(qs[i], 1, during[i].s, during[i].f).entries
    ensures s.status == Busy ==>
              Step(s, Wakeup(routed, during)) ==
              if routed then Sender(Last(qs), AckWait, 0, Some(s.q[0]))
              else if |Last(qs)| == 1 then Sender([], Idle, 0, None)
              else Sender(Last(qs)[1..], Busy, 1, None)
    ensures s.status == AckWait ==>
              Step(s, Done(during)) ==
              if |Last(qs)| == 1 then Sender([], Idle, 0, None) else Sender(Last(qs)[1..], Busy, 1, None)
  {
    if s.status == Busy {
      RequestsPass(s.(pending := 0), during, qs);
      RequestsLeaveHead(s.(pending := 0), during);
    } else {
      RequestsPass(s, during, qs);
    }
  }

  /** The wake-ups and completions that serve one packet after the other, with no new requests. */
  function Served(s: Sender, routes: seq<bool>): Sender {
    if routes == [] then s
    else
      var t := Step(Served(s, routes[..|routes| - 1]), Wakeup(Last(routes), []));
      if Last(routes) then Step(t, Done([])) else t
  }

  /** Left to itself the machine empties its queue, one packet for each turn, in order. */
  lemma {:induction false} Drains(s: Sender, routes: seq<bool>)
    requires Settled(s) && s.status != AckWait && |routes| <= |s.q|
    ensures
      var t := Served(s, routes);
      Settled(t) && t.status != AckWait && t.q == s.q[|routes|..]
  {
    if routes != [] {
      var front := routes[..|routes| - 1];
      Drains(s, front);
      var t := Served(s, front);
      StepKeepsSettled(t, Wakeup(Last(routes), []));
      if Last(routes) {
        StepKeepsSettled(Step(t, Wakeup(true, [])), Done([]));
      }
    }
  }

  class SendProcess {
    const queue: PacketQueue
    const pool: Pool
    var status: Status
    var pending: nat
    var inFlight: Option<Slot>

    ghost function State(): Sender
      requires queue.Valid()
      reads this, queue, queue.ring
    {
      Sender(queue.Contents(), status, pending, inFlight)
    }

    constructor ()
      ensures queue.Valid() && Settled(State())
    {
      queue := new PacketQueue();
      pool := new Pool();
      status, pending, inFlight := Idle, 0, None;
    }

    /** sdn_send_down_once */
    method SendDownOnce()
      requires queue.Valid()
      modifies this`status, this`pending
      ensures State() == Kicked(old(State()))
    {
      if status == Idle && queue.size != 0 {
        status := Busy;
        pending := pending + 1;
      }
    }

    /** The enqueue-and-send macros. */
    method EnqueueAndSend(s: Slot, f: Treatment) returns (ok: bool)
      requires queue.Valid() && (status == Idle || queue.Contents() != [])
      modifies this`status, this`pending, queue, queue.ring, pool
      ensures queue.Valid() && State() == Requested(old(State()), Arrival(s, f))
      ensures
        var e := AfterEnqueue(old(queue.Contents()), if old(status) == Idle then 0 else 1, s, f);
        ok == e.ok && pool.free == old(pool.free) + if e.freed.Some? then {e.freed.value} else {}
    {
      ok := queue.EnqueueForSend(s, status == Idle, f, pool);
      if ok {
        SendDownOnce();
      }
    }

    /** What is enqueued while a packet is treated or its completion is handled. */
    method EnqueueDuring(during: seq<Arrival>)
      requires queue.Valid() && queue.Contents() != []
      modifies this`status, this`pending, queue, queue.ring, pool
      ensures queue.Valid() && State() == RequestedAll(old(State()), during)
    {
      assert during[..|during|] == during;
      for i := 0 to |during|
        invariant queue.Valid() && State() == RequestedAll(old(State()), during[..i])
      {
        assert during[..i + 1][..i] == during[..i];
        var _ := EnqueueAndSend(during[i].s, during[i].f);
      }
    }

    /** The head goes back to the pool, and the next packet gets its turn. */
    method Finish()
      requires queue.Valid() && queue.Contents() != []
      modifies this, queue, pool
      ensures queue.Valid() && State() == Finished(old(State()))
      ensures pool.free == old(pool.free) + {old(queue.Contents())[0].buf}
    {
      var s := queue.Dequeue();
      pool.Put(s.value.buf);
      status, inFlight := Idle, None;
      SendDownOnce();
    }

    /** The head is given to the radio. */
    method GiveToRadio()
      requires queue.Valid() && queue.Contents() != []
      modifies this`status, this`inFlight
      ensures State() == old(State()).(status := AckWait, inFlight := Some(old(queue.Contents())[0]))
    {
      status := AckWait;
      inFlight := Some(queue.ring[queue.head]);
    }

    /** The send process takes a wake-up; dest is what treating the head gives. */
    method TakeWakeup(dest: Option<Addr>, during: seq<Arrival>)
      requires queue.Valid() && pending > 0 && queue.Contents() != []
      modifies this, queue, queue.ring, pool
      ensures queue.Valid() && State() == Woken(old(State()), dest.Some?, during)
    {
      ghost var was := State();
      pending := pending - 1;
      EnqueueDuring(during);
      assert State() == RequestedAll(was.(pending := was.pending - 1), during);
      if dest.Some? {
        GiveToRadio();
      } else {
        Finish();
      }
    }

    /** sdn_send_done, given the octets found where the radio says the packet was. */
    method SendDone(atPointer: seq<byte>, during: seq<Arrival>)
      requires queue.Valid() && queue.Contents() != []
      modifies this, queue, queue.ring, pool
      ensures queue.Valid() && State() == Completed(old(State()), atPointer, during)
      ensures atPointer != old(queue.Contents())[0].octets ==> State() == old(State()) && pool.free == old(pool.free)
    {
      if atPointer != queue.ring[queue.head].octets {
        return;
      }
      EnqueueDuring(during);
      Finish();
    }
  }
}
