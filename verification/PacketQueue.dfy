// The two packet queues of a node: rings of buffers from one pool.  An arriving
// packet may be appended, take the place of a queued one, or be merged into it.
module PacketQueue {
  import opened Common

  const SDN_PACKETBUF_POOL_SIZE: nat := 20
  const QUEUE_SIZE: nat := SDN_PACKETBUF_POOL_SIZE - 2

  /** A queue entry: the buffer it occupies, by number, and the octets in use. */
  datatype Slot = Slot(buf: nat, octets: seq<byte>)

  /**
   * What an arriving packet does to a queued one.  Absorbed and Refused give the octets the
   * queued packet has afterwards: a merge that is refused may have deleted sub-packets before.
   */
  datatype Outcome = Skip | Replace | Absorbed(octets: seq<byte>) | Refused(octets: seq<byte>)

  /** The per-packet decision, as a function of the arriving and the queued octets. */
  type Treatment = (seq<byte>, seq<byte>) -> Outcome

  /** The entries after treatment, and the buffer it set free, if it dealt with the packet. */
  function Treated(q: seq<Slot>, i: nat, s: Slot, f: Treatment): (seq<Slot>, Option<nat>)
    requires i <= |q|
    decreases |q| - i
  {
    if i == |q| then (q, None)
    else match f(s.octets, q[i].octets)
      case Skip => Treated(q, i + 1, s, f)
      case Replace => (q[i := s], Some(q[i].buf))
      case Absorbed(o) => (q[i := q[i].(octets := o)], Some(s.buf))
      case Refused(o) => (q[i := q[i].(octets := o)], None)
  }

  /** Result of an enqueue: the entries, whether it succeeded, and the buffer that went back to the pool. */
  datatype Enqueued = Enqueued(entries: seq<Slot>, ok: bool, freed: Option<nat>)

  /** An enqueue whose treatment starts at entry `from`. */
  function AfterEnqueue(q: seq<Slot>, from: nat, s: Slot, f: Treatment): Enqueued
    requires from <= |q|
  {
    if |q| >= QUEUE_SIZE then Enqueued(q, false, None)
    else
      var (q', freed) := Treated(q, from, s, f);
      if freed.Some? then Enqueued(q', true, freed) else Enqueued(q' + [s], true, None)
  }

  /** The place of entry k in a ring that starts at head. */
  function At(head: nat, k: nat): (i: nat)
    requires head < QUEUE_SIZE && k <= QUEUE_SIZE
    ensures i < QUEUE_SIZE
  {
    if head + k < QUEUE_SIZE then head + k else head + k - QUEUE_SIZE
  }

  /** The entries of a ring, in order. */
  function Entries(ring: seq<Slot>, head: nat, size: nat): (q: seq<Slot>)
    requires |ring| == QUEUE_SIZE && head < QUEUE_SIZE && size <= QUEUE_SIZE
    ensures |q| == size
    ensures forall k :: 0 <= k < size ==> q[k] == ring[At(head, k)]
  {
    if head + size <= QUEUE_SIZE then ring[head..head + size] else ring[head..] + ring[..head + size - QUEUE_SIZE]
  }

  const ALL_BUFFERS: set<nat> := set b: nat | b < SDN_PACKETBUF_POOL_SIZE

  class Pool {
    var free: set<nat>

    constructor ()
      ensures free == ALL_BUFFERS
    {
      free := ALL_BUFFERS;
    }

    /** sdn_packetbuf_pool_get */
    method Get() returns (buf: Option<nat>)
      modifies this
      ensures if old(free) == {} then buf == None && free == {}
              else buf.Some? && buf.value in old(free) && free == old(free) - {buf.value}
    {
      if free == {} {
        return None;
      }
      var b :| b in free;
      free := free - {b};
      buf := Some(b);
    }

    /** sdn_packetbuf_pool_put */
    method Put(buf: nat)
      modifies this
      ensures free == old(free) + {buf}
    {
      free := free + {buf};
    }
  }

  class PacketQueue {
    const ring: array<Slot>
    var head: nat
    var tail: nat
    var size: nat

    ghost predicate Valid()
      reads this
    {
      ring.Length == QUEUE_SIZE && head < QUEUE_SIZE && size <= QUEUE_SIZE && tail == At(head, size)
    }

    ghost function Contents(): seq<Slot>
      requires Valid()
      reads this, ring
    {
      Entries(ring[..], head, size)
    }

    constructor ()
      ensures Valid() && Contents() == [] && fresh(ring)
    {
      ring := new Slot[QUEUE_SIZE](_ => Slot(0, []));
      head, tail, size := 0, 0, 0;
    }

    /** sdn_send_queue_dequeue and sdn_recv_queue_dequeue */
    method Dequeue() returns (s: Option<Slot>)
      requires Valid()
      modifies this`head, this`size
      ensures Valid()
      ensures if old(Contents()) == [] then s == None && Contents() == []
              else s == Some(old(Contents())[0]) && Contents() == old(Contents())[1..]
    {
      if size == 0 {
        return None;
      }
      s := Some(ring[head]);
      head := head + 1;
      if head == QUEUE_SIZE {
        head := 0;
      }
      size := size - 1;
    }

    /** The part of the two enqueue functions that appends. */
    method Append(s: Slot)
      requires Valid() && size < QUEUE_SIZE
      modifies this`tail, this`size, ring
      ensures Valid() && Contents() == old(Contents()) + [s]
    {
      ring[tail] := s;
      tail := tail + 1;
      if tail == QUEUE_SIZE {
        tail := 0;
      }
      size := size + 1;
    }

    /**
     * The scan of sdn_queue_process_new_packet from position start, which is entry i, to the
     * first entry that is not skipped.  It ends at the tail: a full ring would not be scanned.
     */
    method Scan(start: nat, ghost i: nat, s: Slot, f: Treatment) returns (pos: nat, action: Outcome, ghost k: nat)
      requires Valid() && size < QUEUE_SIZE && i <= size && start == At(head, i)
      ensures i <= k <= size && pos == At(head, k)
      ensures Treated(Contents(), k, s, f) == Treated(Contents(), i, s, f)
      ensures action == if k < size then f(s.octets, Contents()[k].octets) else Skip
      ensures k < size ==> action != Skip
    {
      ghost var q := Contents();
      pos, k, action := start, i, Skip;
      while pos != tail
        invariant i <= k <= size && pos == At(head, k)
        invariant Treated(q, k, s, f) == Treated(q, i, s, f)
        invariant action == Skip
        decreases size - k
      {
        assert ring[pos] == q[k];
        action := f(s.octets, ring[pos].octets);
        if action != Skip {
          return;
        }
        AtNext(head, k);
        pos, k := (pos + 1) % QUEUE_SIZE, k + 1;
      }
      assert k == size by {
        if k < size {
          PlacesDiffer(head, k, size);
        }
      }
    }

    /** sdn_queue_process_new_packet: what the scan found is carried out in the slot and the pool. */
    method ProcessNewPacket(start: nat, ghost i: nat, s: Slot, f: Treatment, pool: Pool) returns (done: bool)
      requires Valid() && size < QUEUE_SIZE && i <= size && start == At(head, i)
      modifies ring, pool
      ensures Valid()
      ensures
        var (q, freed) := Treated(old(Contents()), i, s, f);
        && Contents() == q && done == freed.Some?
        && pool.free == old(pool.free) + if freed.Some? then {freed.value} else {}
    {
      ghost var was := Contents();
      var pos, action, k := Scan(start, i, s, f);
      done := false;
      match action {
        case Skip =>
        case Replace =>
          pool.Put(ring[pos].buf);
          SetSlot(pos, k, s);
          done := true;
        case Absorbed(o) =>
          SetSlot(pos, k, ring[pos].(octets := o));
          pool.Put(s.buf);
          done := true;
        case Refused(o) =>
          SetSlot(pos, k, ring[pos].(octets := o));
      }
    }

    /** Rewrites entry k, which is at position pos. */
    method SetSlot(pos: nat, ghost k: nat, s: Slot)
      requires Valid() && k < size && pos == At(head, k)
      modifies ring
      ensures Valid() && Contents() == old(Contents())[k := s]
    {
      ghost var was := Contents();
      ring[pos] := s;
      SlotChanged(was, ring[..], head, size, k);
    }

    /** sdn_send_queue_enqueue: while a packet is being sent, the head is left alone. */
    method EnqueueForSend(s: Slot, idle: bool, f: Treatment, pool: Pool) returns (ok: bool)
      requires Valid() && (!idle ==> size > 0)
      modifies this`tail, this`size, ring, pool
      ensures Valid()
      ensures
        var e := AfterEnqueue(old(Contents()), if idle then 0 else 1, s, f);
        && Contents() == e.entries && ok == e.ok
        && pool.free == old(pool.free) + if e.freed.Some? then {e.freed.value} else {}
    {
      if size >= QUEUE_SIZE {
        return false;
      }
      var done := false;
      if idle {
        done := ProcessNewPacket(head, 0, s, f, pool);
      } else if size > 1 {
        done := ProcessNewPacket((head + 1) % QUEUE_SIZE, 1, s, f, pool);
      }
      if !done {
        Append(s);
      }
      return true;
    }

    /** sdn_recv_queue_enqueue: packets at their final destination are not treated. */
    method EnqueueReceived(s: Slot, finalDestination: bool, f: Treatment, pool: Pool) returns (ok: bool)
      requires Valid()
      modifies this`tail, this`size, ring, pool
      ensures Valid()
      ensures
        var q := old(Contents());
        var e := AfterEnqueue(q, if finalDestination then |q| else 0, s, f);
        && Contents() == e.entries && ok == e.ok
        && pool.free == old(pool.free) + if e.freed.Some? then {e.freed.value} else {}
    {
      if !finalDestination && head != tail {
        var done := ProcessNewPacket(head, 0, s, f, pool);
        if done {
          return true;
        }
      }
      if size < QUEUE_SIZE {
        Append(s);
        return true;
      }
      return false;
    }
  }

  /** Distinct entries are at distinct places. */
  lemma {:induction false} PlacesDiffer(head: nat, j: nat, k: nat)
    requires head < QUEUE_SIZE && j < QUEUE_SIZE && k < QUEUE_SIZE && j != k
    ensures At(head, j) != At(head, k)
  {
  }

  lemma {:induction false} AtNext(head: nat, k: nat)
    requires head < QUEUE_SIZE && k < QUEUE_SIZE
    ensures (At(head, k) + 1) % QUEUE_SIZE == At(head, k + 1)
  {
  }

  lemma {:induction false} SlotChanged(was: seq<Slot>, ring: seq<Slot>, head: nat, size: nat, k: nat)
    requires |ring| == QUEUE_SIZE && head < QUEUE_SIZE && k < size <= QUEUE_SIZE && |was| == size
    requires forall j :: 0 <= j < size && j != k ==> was[j] == ring[At(head, j)]
    ensures Entries(ring, head, size) == was[k := ring[At(head, k)]]
  {
  }

  // ---- What treatment can do to a queue.

  /** An entry keeps its buffer or takes the new packet's; whichever is not in the queue then is set free. */
  predicate TouchedAt(q: seq<Slot>, q': seq<Slot>, k: nat, s: Slot, freed: Option<nat>) {
    && k < |q| == |q'| && (forall j :: 0 <= j < |q| && j != k ==> q'[j] == q[j])
    && if q'[k].buf == q[k].buf && freed != Some(q[k].buf) then freed == None || freed == Some(s.buf)
       else q'[k] == s && freed == Some(q[k].buf)
  }

  /** Treatment touches one entry at most, and none in front of where it starts. */
  lemma {:induction false} TreatedTouchesOne(q: seq<Slot>, i: nat, s: Slot, f: Treatment) returns (k: nat)
    requires i <= |q| && forall j :: 0 <= j < |q| ==> q[j].buf != s.buf
    ensures
      var (q', freed) := Treated(q, i, s, f);
      i <= k <= |q| && if k == |q| then q' == q && freed == None else TouchedAt(q, q', k, s, freed)
    decreases |q| - i
  {
    if i == |q| || f(s.octets, q[i].octets) != Skip {
      k := i;
    } else {
      k := TreatedTouchesOne(q, i + 1, s, f);
    }
  }

  lemma {:induction false} FirstNotSkipped(q: seq<Slot>, from: nat, s: Slot, f: Treatment, k: nat)
    requires from <= k <= |q| && forall j :: from <= j < k ==> f(s.octets, q[j].octets) == Skip
    ensures Treated(q, from, s, f) == Treated(q, k, s, f)
    decreases k - from
  {
    if from < k {
      FirstNotSkipped(q, from + 1, s, f, k);
    }
  }

  /**
   * What becomes of an arriving packet.  A full queue refuses it.  Otherwise k is the first entry from `from`
   * on that the treatment does not skip, or there is none, and exactly what is decided there is carried out.
   */
  lemma {:induction false} EnqueueIs(q: seq<Slot>, from: nat, s: Slot, f: Treatment, k: nat)
    requires from <= k <= |q| && forall j :: from <= j < k ==> f(s.octets, q[j].octets) == Skip
    requires k < |q| ==> f(s.octets, q[k].octets) != Skip
    ensures |q| >= QUEUE_SIZE ==> AfterEnqueue(q, from, s, f) == Enqueued(q, false, None)
    ensures |q| < QUEUE_SIZE && k == |q| ==> AfterEnqueue(q, from, s, f) == Enqueued(q + [s], true, None)
    ensures |q| < QUEUE_SIZE && k < |q| ==>
              var e, found := AfterEnqueue(q, from, s, f), f(s.octets, q[k].octets);
              && (found.Replace? ==> e == Enqueued(q[k := s], true, Some(q[k].buf)))
              && (found.Absorbed? ==> e == Enqueued(q[k := Slot(q[k].buf, found.octets)], true, Some(s.buf)))
              && (found.Refused? ==> e == Enqueued(q[k := Slot(q[k].buf, found.octets)] + [s], true, None))
  {
    FirstNotSkipped(q, from, s, f, k);
  }

  /**
   * What an enqueue does, whatever the treatment decides: a failed one changes nothing; one that sets
   * a buffer free changes one entry and no length; any other appends behind entries that kept their
   * buffers.  Entries in front of `from` never change, which is what protects a packet being sent.
   */
  lemma {:induction false} EnqueueChanges(q: seq<Slot>, from: nat, s: Slot, f: Treatment) returns (k: nat)
    requires from <= |q| <= QUEUE_SIZE && forall j :: 0 <= j < |q| ==> q[j].buf != s.buf
    ensures
      var e := AfterEnqueue(q, from, s, f);
      && (e.ok <==> |q| < QUEUE_SIZE) && from <= k <= |q| && |e.entries| <= QUEUE_SIZE
      && (!e.ok ==> e.entries == q && e.freed == None)
      && (e.ok && e.freed.Some? ==> k < |q| && TouchedAt(q, e.entries, k, s, e.freed))
      && (e.ok && e.freed.None? ==>
            && |e.entries| == |q| + 1 && Last(e.entries) == s
            && (forall j :: 0 <= j < |q| && j != k ==> e.entries[j] == q[j])
            && (k < |q| ==> e.entries[k].buf == q[k].buf))
      && forall j :: 0 <= j < from ==> e.entries[j] == q[j]
  {
    k := TreatedTouchesOne(q, from, s, f);
  }

  // ---- Both queues and the pool together.

  function Bufs(q: seq<Slot>): (b: seq<nat>)
    ensures |b| == |q|
    ensures forall i :: 0 <= i < |q| ==> b[i] == q[i].buf
  {
    seq(|q|, i requires 0 <= i < |q| => q[i].buf)
  }

  /** hand holds the buffers that some process works on. */
  datatype Node = Node(pool: set<nat>, hand: set<nat>, send: seq<Slot>, recv: seq<Slot>)

  datatype Op =
    | Get(buf: nat)
    | Put(buf: nat)
    | EnqueueSend(s: Slot, idle: bool, f: Treatment)
    | EnqueueRecv(s: Slot, finalDestination: bool, f: Treatment)
    | DequeueSend
    | DequeueRecv

  /** The buffer of an accepted packet leaves the hand; a freed one goes to the pool. */
  function Accept(pool: set<nat>, hand: set<nat>, buf: nat, e: Enqueued): (set<nat>, set<nat>) {
    if e.ok then (pool + (if e.freed.Some? then {e.freed.value} else {}), hand - {buf}) else (pool, hand)
  }

  ghost function Apply(n: Node, op: Op): Node {
    match op
    case Get(b) => if b in n.pool then n.(pool := n.pool - {b}, hand := n.hand + {b}) else n
    case Put(b) => if b in n.hand then n.(pool := n.pool + {b}, hand := n.hand - {b}) else n
    case EnqueueSend(s, idle, f) =>
      if s.buf in n.hand && (idle || n.send != []) then
        var e := AfterEnqueue(n.send, if idle then 0 else 1, s, f);
        Node(Accept(n.pool, n.hand, s.buf, e).0, Accept(n.pool, n.hand, s.buf, e).1, e.entries, n.recv)
      else n
    case EnqueueRecv(s, finalDestination, f) =>
      if s.buf in n.hand then
        var e := AfterEnqueue(n.recv, if finalDestination then |n.recv| else 0, s, f);
        Node(Accept(n.pool, n.hand, s.buf, e).0, Accept(n.pool, n.hand, s.buf, e).1, n.send, e.entries)
      else n
    case DequeueSend => if n.send == [] then n else n.(hand := n.hand + {n.send[0].buf}, send := n.send[1..])
    case DequeueRecv => if n.recv == [] then n else n.(hand := n.hand + {n.recv[0].buf}, recv := n.recv[1..])
  }

  /** Where all buffers are, with multiplicity. */
  ghost function Places(n: Node): multiset<nat> {
    multiset(n.pool) + multiset(n.hand) + multiset(Bufs(n.send)) + multiset(Bufs(n.recv))
  }

  /** Every buffer is in exactly one place: the pool, a process's hand, or one slot of one queue. */
  ghost predicate Partitioned(n: Node) {
    Places(n) == multiset(ALL_BUFFERS) && |n.send| <= QUEUE_SIZE && |n.recv| <= QUEUE_SIZE
  }

  lemma {:induction false} MovedOut(s: set<nat>, b: nat)
    requires b in s
    ensures multiset(s) == multiset(s - {b}) + multiset{b}
  {
    assert s == s - {b} + {b};
  }

  lemma {:induction false} MovedIn(s: set<nat>, b: nat)
    requires b !in s
    ensures multiset(s + {b}) == multiset(s) + multiset{b}
  {
    MovedOut(s + {b}, b);
    assert s + {b} - {b} == s;
  }

  lemma {:induction false} BufsReplaced(q: seq<Slot>, q': seq<Slot>, k: nat)
    requires k < |q| == |q'| && forall j :: 0 <= j < |q| && j != k ==> q'[j] == q[j]
    ensures multiset(Bufs(q')) + multiset{q[k].buf} == multiset(Bufs(q)) + multiset{q'[k].buf}
  {
    assert Bufs(q') == Bufs(q)[k := q'[k].buf];
  }

  lemma {:induction false} BufsAppended(q: seq<Slot>, q': seq<Slot>, s: Slot)
    requires |q'| == |q| + 1 && Last(q') == s && forall j :: 0 <= j < |q| ==> q'[j].buf == q[j].buf
    ensures multiset(Bufs(q')) == multiset(Bufs(q)) + multiset{s.buf}
  {
    assert Bufs(q') == Bufs(q) + [s.buf];
  }

  lemma {:induction false} BufsDequeued(q: seq<Slot>)
    requires q != []
    ensures multiset(Bufs(q)) == multiset{q[0].buf} + multiset(Bufs(q[1..]))
  {
    assert Bufs(q) == [q[0].buf] + Bufs(q[1..]);
  }

  /** An enqueue moves buffers between the hand, the queue and the pool, and loses none. */
  lemma {:induction false} EnqueueKeepsPlaces(pool: set<nat>, hand: set<nat>, q: seq<Slot>, from: nat, s: Slot, f: Treatment)
    requires from <= |q| <= QUEUE_SIZE && s.buf in hand && s.buf !in pool
    requires forall j :: 0 <= j < |q| ==> q[j].buf !in pool && q[j].buf !in hand
    ensures
      var e := AfterEnqueue(q, from, s, f);
      var (pool', hand') := Accept(pool, hand, s.buf, e);
      && |e.entries| <= QUEUE_SIZE
      && multiset(pool') + multiset(hand') + multiset(Bufs(e.entries)) == multiset(pool) + multiset(hand) + multiset(Bufs(q))
  {
    var e := AfterEnqueue(q, from, s, f);
    var k := EnqueueChanges(q, from, s, f);
    if e.ok {
      MovedOut(hand, s.buf);
      if e.freed.Some? {
        MovedIn(pool, e.freed.value);
        BufsReplaced(q, e.entries, k);
        if e.entries[k].buf == q[k].buf {
          assert Bufs(e.entries) == Bufs(q);
        }
      } else {
        BufsAppended(q, e.entries, s);
      }
    }
  }

  lemma {:induction false} SeparatePlaces(n: Node, b: nat)
    requires Partitioned(n)
    ensures multiset(n.pool)[b] + multiset(n.hand)[b] + multiset(Bufs(n.send))[b] + multiset(Bufs(n.recv))[b] <= 1
  {
    assert Places(n)[b] == multiset(ALL_BUFFERS)[b] <= 1;
  }

  /** What is in one place is in no other. */
  lemma {:induction false} Separate(n: Node)
    requires Partitioned(n)
    ensures n.pool !! n.hand
    ensures forall q: seq<Slot>, j :: (q == n.send || q == n.recv) && 0 <= j < |q| ==> q[j].buf !in n.pool && q[j].buf !in n.hand
  {
    forall b | b in n.pool
      ensures b !in n.hand
    {
      SeparatePlaces(n, b);
    }
    forall q: seq<Slot>, j | (q == n.send || q == n.recv) && 0 <= j < |q|
      ensures q[j].buf !in n.pool && q[j].buf !in n.hand
    {
      assert Bufs(q)[j] in multiset(Bufs(q));
      SeparatePlaces(n, q[j].buf);
    }
  }

  lemma {:induction false} SendKeepsPartition(n: Node, from: nat, s: Slot, f: Treatment)
    requires Partitioned(n) && s.buf in n.hand && from <= |n.send|
    ensures
      var e := AfterEnqueue(n.send, from, s, f);
      Partitioned(Node(Accept(n.pool, n.hand, s.buf, e).0, Accept(n.pool, n.hand, s.buf, e).1, e.entries, n.recv))
  {
    Separate(n);
    EnqueueKeepsPlaces(n.pool, n.hand, n.send, from, s, f);
  }

  lemma {:induction false} RecvKeepsPartition(n: Node, from: nat, s: Slot, f: Treatment)
    requires Partitioned(n) && s.buf in n.hand && from <= |n.recv|
    ensures
      var e := AfterEnqueue(n.recv, from, s, f);
      Partitioned(Node(Accept(n.pool, n.hand, s.buf, e).0, Accept(n.pool, n.hand, s.buf, e).1, n.send, e.entries))
  {
    Separate(n);
    EnqueueKeepsPlaces(n.pool, n.hand, n.recv, from, s, f);
    var e := AfterEnqueue(n.recv, from, s, f);
    var n' := Node(Accept(n.pool, n.hand, s.buf, e).0, Accept(n.pool, n.hand, s.buf, e).1, n.send, e.entries);
    var kept := multiset(Bufs(n.send));
    assert Places(n') == (multiset(n'.pool) + multiset(n'.hand) + multiset(Bufs(n'.recv))) + kept;
    assert Places(n) == (multiset(n.pool) + multiset(n.hand) + multiset(Bufs(n.recv))) + kept;
  }

  lemma {:induction false} MoveKeepsPartition(n: Node, b: nat)
    requires Partitioned(n)
    ensures Partitioned(Apply(n, Get(b))) && Partitioned(Apply(n, Put(b)))
  {
    Separate(n);
    if b in n.pool {
      MovedOut(n.pool, b);
      MovedIn(n.hand, b);
    }
    if b in n.hand {
      MovedOut(n.hand, b);
      MovedIn(n.pool, b);
    }
  }

  lemma {:induction false} DequeueSendKeepsPartition(n: Node)
    requires Partitioned(n)
    ensures Partitioned(Apply(n, DequeueSend))
  {
    Separate(n);
    if n.send != [] {
      BufsDequeued(n.send);
      MovedIn(n.hand, n.send[0].buf);
    }
  }

  lemma {:induction false} DequeueRecvKeepsPartition(n: Node)
    requires Partitioned(n)
    ensures Partitioned(Apply(n, DequeueRecv))
  {
    Separate(n);
    if n.recv != [] {
      BufsDequeued(n.recv);
      MovedIn(n.hand, n.recv[0].buf);
    }
  }

  lemma {:induction false} OpKeepsPartition(n: Node, op: Op)
    requires Partitioned(n)
    ensures Partitioned(Apply(n, op))
  {
    match op
    case Get(b) => MoveKeepsPartition(n, b);
    case Put(b) => MoveKeepsPartition(n, b);
    case EnqueueSend(s, idle, f) =>
      if s.buf in n.hand && (idle || n.send != []) {
        SendKeepsPartition(n, if idle then 0 else 1, s, f);
      }
    case EnqueueRecv(s, finalDestination, f) =>
      if s.buf in n.hand {
        RecvKeepsPartition(n, if finalDestination then |n.recv| else 0, s, f);
      }
    case DequeueSend => DequeueSendKeepsPartition(n);
    case DequeueRecv => DequeueRecvKeepsPartition(n);
  }

  ghost function Run(ops: seq<Op>): Node {
    if ops == [] then Node(ALL_BUFFERS, {}, [], []) else Apply(Run(ops[..|ops| - 1]), Last(ops))
  }

  /**
   * Main theorem: after any interleaving of enqueues and dequeues of both queues, with any treatment,
   * every buffer of the pool is in exactly one place.
   */
  lemma {:induction false} BuffersAreConserved(ops: seq<Op>)
    ensures Partitioned(Run(ops))
    decreases |ops|
  {
    if ops != [] {
      BuffersAreConserved(ops[..|ops| - 1]);
      OpKeepsPartition(Run(ops[..|ops| - 1]), Last(ops));
    }
  }

  // ---- One queue over time: entries leave in the order in which they were appended.

  /** tickets numbers the entries by when they were appended; left lists those that were dequeued. */
  datatype History = History(q: seq<Slot>, tickets: seq<nat>, next: nat, left: seq<nat>)

  datatype QueueOp = Enqueue(s: Slot, from: nat, f: Treatment) | Dequeue

  function Step(h: History, op: QueueOp): History {
    match op
    case Enqueue(s, from, f) =>
      if from > |h.q| then h
      else
        var e := AfterEnqueue(h.q, from, s, f);
        if e.ok && e.freed.None? then History(e.entries, h.tickets + [h.next], h.next + 1, h.left) else h.(q := e.entries)
    case Dequeue =>
      if h.q == [] || h.tickets == [] then h else History(h.q[1..], h.tickets[1..], h.next, h.left + [h.tickets[0]])
  }

  function Past(ops: seq<QueueOp>): History {
    if ops == [] then History([], [], 0, []) else Step(Past(ops[..|ops| - 1]), Last(ops))
  }

  lemma {:induction false} TreatedKeepsLength(q: seq<Slot>, i: nat, s: Slot, f: Treatment)
    requires i <= |q|
    ensures |Treated(q, i, s, f).0| == |q|
    decreases |q| - i
  {
    if i < |q| && f(s.octets, q[i].octets) == Skip {
      TreatedKeepsLength(q, i + 1, s, f);
    }
  }

  /** What left, followed by what waits, is numbered in order. */
  predicate InOrder(h: History) {
    |h.tickets| == |h.q| && h.left + h.tickets == seq(h.next, i => i)
  }

  lemma {:induction false} StepInOrder(h: History, op: QueueOp)
    requires InOrder(h)
    ensures InOrder(Step(h, op))
  {
    if op.Enqueue? {
      if op.from <= |h.q| {
        TreatedKeepsLength(h.q, op.from, op.s, op.f);
        assert seq(h.next + 1, i => i) == seq(h.next, i => i) + [h.next];
        assert h.left + (h.tickets + [h.next]) == h.left + h.tickets + [h.next];
      }
    } else if h.q != [] {
      assert h.left + [h.tickets[0]] + h.tickets[1..] == h.left + h.tickets;
    }
  }

  /** Replacing and merging never let a packet overtake an entry. */
  lemma {:induction false} LeaveInOrder(ops: seq<QueueOp>)
    ensures InOrder(Past(ops))
    decreases |ops|
  {
    if ops != [] {
      LeaveInOrder(ops[..|ops| - 1]);
      StepInOrder(Past(ops[..|ops| - 1]), Last(ops));
    }
  }
}
