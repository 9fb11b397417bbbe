// The decision for one queued packet when another arrives: skip it, replace it,
// or delete what the arriving packet supersedes and merge the rest.
module QueueTreatment {
  import opened Common
  import opened PacketBytes
  import opened Subpackets
  import opened Aggregation
  import opened SourceTail
  import Supersede
  import Deaggregation
  import opened PacketQueue

  /** The types whose packets are compared and merged, other than the source-routed ones. */
  const COMPARED: set<byte> :=
    {SDN_PACKET_CONTROL_FLOW_SETUP, SDN_PACKET_DATA_FLOW_SETUP, SDN_PACKET_CONTROL_FLOW_REQUEST, SDN_PACKET_DATA_FLOW_REQUEST,
     SDN_PACKET_REGISTER_FLOWID, SDN_PACKET_ACK_BY_FLOW_ADDRESS, SDN_PACKET_ACK_BY_FLOW_ID}

  /** How many octets identify a request; 0 stands for the whole payload. */
  function CompareSize(ptype: byte): (n: nat)
    ensures n <= 2
  {
    if ptype == SDN_PACKET_ACK_BY_FLOW_ID then 0 else 2
  }

  /** The sub-packets of a packet, as read from its octets. */
  function SubsIn(b: seq<byte>): seq<Sub>
    requires HEADER <= |b| <= REACH
  {
    if IsMerged(b) then (if |b| > HEADER then Deaggregation.Parse(b, HEADER + 1, b[HEADER]).subs else []) else [OwnSub(b)]
  }

  /** Packets of other types are as the merging code leaves them, and have the octets that are compared. */
  predicate WellFormed(b: seq<byte>) {
    && HEADER <= |b| <= REACH && b[TYPE] !in SRC_ROUTED_TYPES && Carries(b, SubsIn(b))
    && (b[TYPE] in COMPARED ==> Supersede.Comparable(CompareSize(b[TYPE]), SubsIn(b)))
  }

  lemma {:induction false} SubsInIs(b: seq<byte>, subs: seq<Sub>)
    requires Carries(b, subs)
    ensures SubsIn(b) == subs
  {
    if IsMerged(b) {
      assert b[HEADER + 1..HEADER + 1 + |EncSubs(subs)|] == EncSubs(subs);
      Deaggregation.ParseOfContainer(b, subs, |subs|);
      assert subs[..|subs|] == subs;
    }
  }

  /** A merge, if the checks of CombinePackets allow it. */
  function Combined(arriving: seq<byte>, s1: seq<Sub>, queued: seq<byte>, s2: seq<Sub>): Outcome
    requires |queued| >= HEADER
  {
    if |s1| + |s2| <= SDN_MAX_SUBPACKETS && |arriving| + |queued| <= SDN_MAX_PACKET_SIZE
    then Absorbed(Merged(queued, s2, s1)) else Refused(queued)
  }

  /** What is left of a container when a packet with these sub-packets arrives. */
  function Left(arriving: seq<byte>, size: nat, queued: seq<byte>): seq<Sub>
    requires WellFormed(arriving) && WellFormed(queued)
  {
    var olds := SubsIn(queued);
    var d := Supersede.AllHits(IsMerged(arriving), size, SubsIn(arriving), olds);
    Supersede.AllDeleted(olds, Supersede.Capped(d, |olds|))
  }

  /** A container loses what is superseded and then takes the arriving packet in. */
  function DecideForContainer(arriving: seq<byte>, queued: seq<byte>, size: nat): Outcome
    requires WellFormed(arriving) && WellFormed(queued)
  {
    var left := Left(arriving, size, queued);
    if |left| < 256 then Combined(arriving, SubsIn(arriving), Container(queued[..HEADER], left), left) else Skip
  }

  /** The decision for packets of a type that is compared. */
  function DecideCompared(arriving: seq<byte>, queued: seq<byte>, size: nat): Outcome
    requires WellFormed(arriving) && WellFormed(queued)
  {
    var s1, s2 := SubsIn(arriving), SubsIn(queued);
    if IsMerged(queued) then DecideForContainer(arriving, queued, size)
    else match Supersede.Verdict(size, s1, s2[0])
      case Replace => Outcome.Replace
      case NoAction => Skip
      case Merge => Combined(arriving, s1, queued, s2)
  }

  /** sdn_queue_determine_pckt_action and the merge it may lead to, for packets that are not source-routed. */
  function Decide(arriving: seq<byte>, queued: seq<byte>): Outcome
    requires WellFormed(arriving) && WellFormed(queued)
  {
    var ptype, s1, s2 := arriving[TYPE], SubsIn(arriving), SubsIn(queued);
    if ptype != queued[TYPE] || arriving[DESTINATION..DESTINATION + 2] != queued[DESTINATION..DESTINATION + 2] then Skip
    else if ptype == SDN_PACKET_DATA then Combined(arriving, s1, queued, s2)
    else if ptype == SDN_PACKET_NEIGHBOR_REPORT then if AddrAt(arriving, SOURCE) == AddrAt(queued, SOURCE) then Replace else Skip
    else if ptype !in COMPARED then Skip
    else DecideCompared(arriving, queued, CompareSize(ptype))
  }

  /** The outcome as the code reports it, with the octets left in the queued packet. */
  predicate Carried(outcome: Outcome, code: Supersede.Action, done: bool, before: seq<byte>, b: seq<byte>) {
    match outcome
    case Skip => code == Supersede.NoAction && b == before
    case Replace => code == Supersede.Replace && b == before
    case Absorbed(o) => code == Supersede.Merge && done && b == o
    case Refused(o) => code == Supersede.Merge && !done && b == o
  }

  /** Treats one queued packet in place. */
  method TreatSlot(p1: array<byte>, p1Len: byte, p2: array<byte>, p2Len: byte)
    returns (code: Supersede.Action, done: bool, newLen: nat)
    requires p1 != p2 && p1.Length == p2.Length == REACH && p1Len <= p1.Length && p2Len <= p2.Length
    requires WellFormed(p1[..p1Len]) && WellFormed(p2[..p2Len])
    modifies p2
    ensures newLen <= p2.Length
    ensures Carried(Decide(p1[..p1Len], old(p2[..p2Len])), code, done, old(p2[..p2Len]), p2[..newLen])
  {
    var b1, b2 := p1[..p1Len], p2[..p2Len];
    code, done, newLen := Supersede.NoAction, false, p2Len;
    if b1[TYPE] != b2[TYPE] || b1[DESTINATION..DESTINATION + 2] != b2[DESTINATION..DESTINATION + 2] {
      return;
    }
    if b1[TYPE] == SDN_PACKET_DATA {
      code := Supersede.Merge;
      done, newLen := CombineWith(p1, p1Len, p2, p2Len, SubsIn(b1), SubsIn(b2));
    } else if b1[TYPE] == SDN_PACKET_NEIGHBOR_REPORT {
      if AddrAt(b1, SOURCE) == AddrAt(b2, SOURCE) {
        code := Supersede.Replace;
      }
    } else if b1[TYPE] in COMPARED {
      code, done, newLen := CompareAndCombine(p1, p1Len, p2, p2Len);
    }
  }

  /** CombinePackets, with its result as an outcome. */
  method CombineWith(p1: array<byte>, p1Len: byte, p2: array<byte>, p2Len: byte, ghost s1: seq<Sub>, ghost s2: seq<Sub>)
    returns (done: bool, newLen: nat)
    requires p1 != p2 && p1.Length == p2.Length == REACH && p1Len <= p1.Length && p2Len <= p2.Length
    requires Carries(p1[..p1Len], s1) && Carries(p2[..p2Len], s2)
    modifies p2
    ensures newLen <= p2.Length
    ensures Combined(p1[..p1Len], s1, old(p2[..p2Len]), s2) == if done then Absorbed(p2[..newLen]) else Refused(p2[..newLen])
  {
    done, newLen := CombinePackets(p1, p1Len, p2, p2Len, s1, s2);
  }

  lemma {:induction false} WellFormedBegins(b: seq<byte>)
    requires WellFormed(b)
    ensures Supersede.BeginsWith(b, SubsIn(b))
    ensures IsMerged(b) ==> Supersede.IsContainer(b, b[..HEADER], SubsIn(b), [])
  {
    if IsMerged(b) {
      assert b == Container(b[..HEADER], SubsIn(b)) + [];
      Supersede.ContainerBegins(b, b[..HEADER], SubsIn(b), []);
    }
  }

  lemma {:induction false} ContainerCarries(b: seq<byte>, header: seq<byte>, subs: seq<Sub>)
    requires |b| <= REACH && Supersede.IsContainer(b, header, subs, []) && IsMerged(header)
    ensures Carries(b, subs) && b == Container(header, subs) && b[..HEADER] == header
  {
    assert b == Container(header, subs);
  }

  /** The case of the types that are compared. */
  method CompareAndCombine(p1: array<byte>, p1Len: byte, p2: array<byte>, p2Len: byte)
    returns (code: Supersede.Action, done: bool, newLen: nat)
    requires p1 != p2 && p1.Length == p2.Length == REACH && p1Len <= p1.Length && p2Len <= p2.Length
    requires WellFormed(p1[..p1Len]) && WellFormed(p2[..p2Len])
    requires p1[TYPE] == p2[TYPE] && p1[TYPE] in COMPARED
    modifies p2
    ensures newLen <= p2.Length
    ensures Carried(DecideCompared(p1[..p1Len], old(p2[..p2Len]), CompareSize(p1[TYPE])), code, done, old(p2[..p2Len]), p2[..newLen])
  {
    var b1 := p1[..p1Len];
    ghost var b2 := p2[..p2Len];
    ghost var s1, s2, left := SubsIn(b1), SubsIn(b2), SubsIn(b2);
    var size, len := CompareSize(b1[TYPE]), p2Len;
    WellFormedBegins(b1);
    WellFormedBegins(b2);
    assert p2[..HEADER] == b2[..HEADER];
    code, len := Supersede.ComparePackets(b1, p2, p2Len, size, s1, s2, []);
    done, newLen := false, len;
    if code == Supersede.Merge {
      if IsMerged(b2) {
        left := Left(b1, size, b2);
        ContainerCarries(p2[..len], b2[..HEADER], left);
      }
      ghost var mid := p2[..len];
      assert DecideCompared(b1, b2, size) == Combined(b1, s1, mid, left);
      done, newLen := CombineWith(p1, p1Len, p2, len, s1, left);
    }
  }

  // ---- Entries stay well formed, so treatment can be repeated on its own results.

  /** A rewritten packet is well formed and of this type. */
  predicate Keeps(outcome: Outcome, ptype: byte) {
    match outcome
    case Absorbed(o) => WellFormed(o) && o[TYPE] == ptype
    case Refused(o) => WellFormed(o) && o[TYPE] == ptype
    case _ => true
  }

  lemma {:induction false} CombinedKeepsWellFormed(arriving: seq<byte>, s1: seq<Sub>, queued: seq<byte>, s2: seq<Sub>)
    requires WellFormed(arriving) && s1 == SubsIn(arriving) && Carries(queued, s2) && queued[TYPE] == arriving[TYPE]
    requires queued[TYPE] in COMPARED ==> Supersede.Comparable(CompareSize(queued[TYPE]), s2)
    ensures Keeps(Combined(arriving, s1, queued, s2), queued[TYPE])
  {
    SubsInIs(queued, s2);
    if |s1| + |s2| <= SDN_MAX_SUBPACKETS && |arriving| + |queued| <= SDN_MAX_PACKET_SIZE {
      MergedCarries(arriving, s1, queued, s2);
      SubsInIs(Merged(queued, s2, s1), s2 + s1);
    }
  }

  /** Against an unmerged arrival a container keeps exactly what the arrival does not match, in order. */
  lemma {:induction false} LeftIsSurviving(arriving: seq<byte>, size: nat, queued: seq<byte>)
    requires WellFormed(arriving) && WellFormed(queued) && !IsMerged(arriving)
    ensures Left(arriving, size, queued) == Supersede.Surviving(size, OwnSub(arriving), SubsIn(queued))
  {
    Supersede.UnmergedArrivalFilters(size, OwnSub(arriving), SubsIn(queued));
  }

  lemma {:induction false} DecideOnContainer(arriving: seq<byte>, queued: seq<byte>)
    requires WellFormed(arriving) && WellFormed(queued) && IsMerged(queued)
    requires arriving[TYPE] == queued[TYPE] && queued[TYPE] in COMPARED
    requires arriving[DESTINATION..DESTINATION + 2] == queued[DESTINATION..DESTINATION + 2]
    ensures Decide(arriving, queued) == DecideForContainer(arriving, queued, CompareSize(arriving[TYPE]))
  {
    assert arriving[TYPE] != SDN_PACKET_DATA && arriving[TYPE] != SDN_PACKET_NEIGHBOR_REPORT;
  }

  /** Whatever the decision, the queued packet is well formed and of the same type afterwards. */
  lemma {:induction false} DecideKeepsWellFormed(arriving: seq<byte>, queued: seq<byte>)
    requires WellFormed(arriving) && WellFormed(queued)
    ensures Keeps(Decide(arriving, queued), queued[TYPE])
  {
    var ptype, d := arriving[TYPE], Decide(arriving, queued);
    if ptype != queued[TYPE] || arriving[DESTINATION..DESTINATION + 2] != queued[DESTINATION..DESTINATION + 2] {
      assert d == Skip;
    } else if ptype in COMPARED && IsMerged(queued) {
      ContainerKeepsWellFormed(arriving, queued);
      DecideOnContainer(arriving, queued);
    } else {
      CombinedKeepsWellFormed(arriving, SubsIn(arriving), queued, SubsIn(queued));
      assert d == Skip || d == Outcome.Replace || d == Combined(arriving, SubsIn(arriving), queued, SubsIn(queued));
    }
  }

  lemma {:induction false} ContainerKeepsWellFormed(arriving: seq<byte>, queued: seq<byte>)
    requires WellFormed(arriving) && WellFormed(queued) && IsMerged(queued)
    requires arriving[TYPE] == queued[TYPE] && queued[TYPE] in COMPARED
    ensures Keeps(DecideForContainer(arriving, queued, CompareSize(arriving[TYPE])), queued[TYPE])
  {
    LeftIsContainer(arriving, queued);
    var left := Left(arriving, CompareSize(arriving[TYPE]), queued);
    CombinedKeepsWellFormed(arriving, SubsIn(arriving), Container(queued[..HEADER], left), left);
  }

  /** After the deletions the queued packet is a container of what is left. */
  lemma {:induction false} LeftIsContainer(arriving: seq<byte>, queued: seq<byte>)
    requires WellFormed(arriving) && WellFormed(queued) && IsMerged(queued)
    requires arriving[TYPE] == queued[TYPE] && queued[TYPE] in COMPARED
    ensures
      var left := Left(arriving, CompareSize(arriving[TYPE]), queued);
      && |left| < 256
      && var b := Container(queued[..HEADER], left);
      Carries(b, left) && b[TYPE] == queued[TYPE] && Supersede.Comparable(CompareSize(b[TYPE]), left)
  {
    var size, olds := CompareSize(arriving[TYPE]), SubsIn(queued);
    var d := Supersede.Capped(Supersede.AllHits(IsMerged(arriving), size, SubsIn(arriving), olds), |olds|);
    Supersede.DeletedIsPart(olds, d);
    DeletedIsShorter(olds, d);
    var b := Container(queued[..HEADER], Supersede.AllDeleted(olds, d));
    assert b[..HEADER] == queued[..HEADER];
    assert b[TYPE] == b[..HEADER][TYPE] && b[RESERVED] == b[..HEADER][RESERVED];
  }

  lemma {:induction false} DeletedIsShorter(subs: seq<Sub>, d: seq<nat>)
    ensures |EncSubs(Supersede.AllDeleted(subs, d))| <= |EncSubs(subs)|
    decreases |d|
  {
    if d != [] {
      var number := Last(d);
      if 1 <= number <= |subs| {
        SplitAt(subs, number - 1);
        EncSubsJoin(subs[..number - 1], subs[number..]);
      }
      DeletedIsShorter(Supersede.Deleted(subs, number), d[..|d| - 1]);
    }
  }

  // ---- Keys, octet by octet.

  /** The entry that an unmerged packet of the same type and destination leaves, as Supersede.Arrive describes it. */
  predicate AsArrived(size: nat, n: Sub, e: Supersede.Entry, outcome: Outcome) {
    && (e.merged || |e.subs| == 1)
    && match outcome
       case Skip => Supersede.Arrive(size, e, Supersede.Arrival(n, true)) == e
       case Replace => Supersede.Arrive(size, e, Supersede.Arrival(n, true)) == Supersede.Entry(false, [n])
       case Absorbed(o) => HEADER <= |o| <= REACH && Supersede.Arrive(size, e, Supersede.Arrival(n, false)) == EntryOf(o)
       case Refused(o) => HEADER <= |o| <= REACH && Supersede.Arrive(size, e, Supersede.Arrival(n, true)) == EntryOf(o)
  }

  function EntryOf(b: seq<byte>): Supersede.Entry
    requires HEADER <= |b| <= REACH
  {
    Supersede.Entry(IsMerged(b), SubsIn(b))
  }

  /** The decision on octets is the step of Supersede.Arrive. */
  lemma {:induction false} DecideIsArrive(arriving: seq<byte>, queued: seq<byte>)
    requires WellFormed(arriving) && WellFormed(queued) && !IsMerged(arriving)
    requires arriving[TYPE] == queued[TYPE] && queued[TYPE] in COMPARED
    ensures AsArrived(CompareSize(queued[TYPE]), OwnSub(arriving), EntryOf(queued),
                      DecideCompared(arriving, queued, CompareSize(queued[TYPE])))
  {
    var size, n := CompareSize(queued[TYPE]), OwnSub(arriving);
    assert SubsIn(arriving) == [n];
    if IsMerged(queued) {
      LeftIsSurviving(arriving, size, queued);
      LeftIsContainer(arriving, queued);
      var left := Left(arriving, size, queued);
      var b := Container(queued[..HEADER], left);
      assert b[..HEADER] == queued[..HEADER];
      assert b[RESERVED] == b[..HEADER][RESERVED];
      CombinedIs(arriving, n, b, left);
    } else {
      CombinedIs(arriving, n, queued, SubsIn(queued));
    }
  }

  lemma {:induction false} CombinedIs(arriving: seq<byte>, n: Sub, queued: seq<byte>, s2: seq<Sub>)
    requires WellFormed(arriving) && !IsMerged(arriving) && n == OwnSub(arriving) && Carries(queued, s2)
    ensures
      match Combined(arriving, [n], queued, s2)
      case Absorbed(o) => HEADER <= |o| <= REACH && EntryOf(o) == Supersede.Entry(true, s2 + [n])
      case Refused(o) => o == queued && SubsIn(o) == s2
      case _ => false
  {
    SubsInIs(queued, s2);
    if |[n]| + |s2| <= SDN_MAX_SUBPACKETS && |arriving| + |queued| <= SDN_MAX_PACKET_SIZE {
      MergedCarries(arriving, [n], queued, s2);
      SubsInIs(Merged(queued, s2, [n]), s2 + [n]);
    }
  }

  /** The queued packet after the treatment of an arrival. */
  function EntryAfter(arriving: seq<byte>, queued: seq<byte>): seq<byte>
    requires WellFormed(arriving) && WellFormed(queued)
  {
    match Decide(arriving, queued)
    case Skip => queued
    case Replace => arriving
    case Absorbed(o) => o
    case Refused(o) => o
  }

  /** Keys in a well-formed packet of a type that is compared. */
  predicate Keyed(b: seq<byte>) {
    WellFormed(b) && b[TYPE] in COMPARED && Supersede.KeysDistinct(CompareSize(b[TYPE]), SubsIn(b))
  }

  lemma {:induction false} TreatedIsCompared(arriving: seq<byte>, queued: seq<byte>)
    requires WellFormed(arriving) && WellFormed(queued) && queued[TYPE] in COMPARED
    ensures Decide(arriving, queued) != Skip ==>
              arriving[TYPE] == queued[TYPE]
              && Decide(arriving, queued) == DecideCompared(arriving, queued, CompareSize(queued[TYPE]))
  {
    assert SDN_PACKET_DATA !in COMPARED && SDN_PACKET_NEIGHBOR_REPORT !in COMPARED;
  }

  lemma {:induction false} OutcomeKeepsKeys(size: nat, n: Sub, e: Supersede.Entry, outcome: Outcome)
    requires AsArrived(size, n, e, outcome) && Supersede.KeysDistinct(size, e.subs)
    ensures
      match outcome
      case Absorbed(o) => HEADER <= |o| <= REACH && Supersede.KeysDistinct(size, SubsIn(o))
      case Refused(o) => HEADER <= |o| <= REACH && Supersede.KeysDistinct(size, SubsIn(o))
      case _ => true
  {
    Supersede.ArriveKeepsKeys(size, e, Supersede.Arrival(n, false));
    Supersede.ArriveKeepsKeys(size, e, Supersede.Arrival(n, true));
  }

  /** Any unmerged arrival leaves a queued packet with different keys. */
  lemma {:induction false} ArrivalKeepsKeys(arriving: seq<byte>, queued: seq<byte>)
    requires WellFormed(arriving) && Keyed(queued) && !IsMerged(arriving)
    ensures Keyed(EntryAfter(arriving, queued)) && EntryAfter(arriving, queued)[TYPE] == queued[TYPE]
  {
    var d := Decide(arriving, queued);
    DecideKeepsWellFormed(arriving, queued);
    TreatedIsCompared(arriving, queued);
    if d != Skip {
      DecideIsArrive(arriving, queued);
      OutcomeKeepsKeys(CompareSize(queued[TYPE]), OwnSub(arriving), EntryOf(queued), d);
    }
  }

  /** A queued packet after a run of arrivals. */
  function EntryAfterAll(first: seq<byte>, arrivals: seq<seq<byte>>): (b: seq<byte>)
    requires Keyed(first) && forall a :: a in arrivals ==> WellFormed(a) && !IsMerged(a)
    ensures Keyed(b)
  {
    if arrivals == [] then first
    else
      var was, a := EntryAfterAll(first, arrivals[..|arrivals| - 1]), Last(arrivals);
      ArrivalKeepsKeys(a, was);
      EntryAfter(a, was)
  }
}
