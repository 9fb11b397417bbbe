// What treatment decides about a queued packet, read off the octets of the two
// packets and the sub-packets they carry, for every type.
module Decisions {
  import opened Common
  import opened PacketBytes
  import opened Subpackets
  import opened Aggregation
  import opened SourceTail
  import opened PacketQueue
  import opened PacketTreatment
  import Supersede
  import H = MergeHistory
  import M = MergedArrivals
  import R = SourceRoutedSetup
  import S = SourceTreatment
  import T = QueueTreatment

  /** The requests, setups and acknowledgements that are compared, other than the source-routed ones. */
  predicate IsCompared(ptype: byte) {
    || ptype == SDN_PACKET_CONTROL_FLOW_SETUP || ptype == SDN_PACKET_DATA_FLOW_SETUP
    || ptype == SDN_PACKET_CONTROL_FLOW_REQUEST || ptype == SDN_PACKET_DATA_FLOW_REQUEST
    || ptype == SDN_PACKET_REGISTER_FLOWID || ptype == SDN_PACKET_ACK_BY_FLOW_ADDRESS || ptype == SDN_PACKET_ACK_BY_FLOW_ID
  }

  predicate IsSrcRouted(ptype: byte) {
    || ptype == SDN_PACKET_SRC_ROUTED_ACK || ptype == SDN_PACKET_SRC_ROUTED_CONTROL_FLOW_SETUP
    || ptype == SDN_PACKET_SRC_ROUTED_DATA_FLOW_SETUP
  }

  /** How many octets of a sub-packet are compared; 0 stands for all. */
  function KeySize(ptype: byte): nat {
    if ptype == SDN_PACKET_ACK_BY_FLOW_ID then 0 else 2
  }

  lemma {:induction false} OtherTypeIsSkipped(a: seq<byte>, q: seq<byte>)
    requires |a| >= 8 && |q| >= 8 && a[0] != q[0]
    ensures Treat(a, q) == Skip
  {
  }

  lemma {:induction false} OtherTargetIsSkipped(a: seq<byte>, q: seq<byte>)
    requires T.WellFormed(a) && T.WellFormed(q)
    requires
      || a[6] != q[6] || a[7] != q[7]
      || !(IsCompared(a[0]) || a[0] == SDN_PACKET_DATA || a[0] == SDN_PACKET_NEIGHBOR_REPORT)
    ensures T.Decide(a, q) == Skip
  {
    assert a[6] == a[6..8][0] && a[7] == a[6..8][1] && q[6] == q[6..8][0] && q[7] == q[6..8][1];
    assert a[0] in T.COMPARED ==> IsCompared(a[0]);
  }

  lemma {:induction false} TreatsOthers(a: seq<byte>, q: seq<byte>)
    requires |a| >= 8 && |q| >= 8 && a[0] == q[0] && !IsSrcRouted(a[0])
    ensures Good(a) && Good(q) ==> T.WellFormed(a) && T.WellFormed(q) && Treat(a, q) == T.Decide(a, q)
    ensures !Good(a) || !Good(q) ==> Treat(a, q) == Skip
  {
    assert !SourceRouted(a) && !SourceRouted(q);
  }

  /** A queued packet that differs in type or destination, or is of a type that is not treated, is left alone. */
  lemma {:induction false} OthersAreSkipped(a: seq<byte>, q: seq<byte>)
    requires |a| >= 8 && |q| >= 8
    requires
      || a[0] != q[0]
      || (!IsSrcRouted(a[0]) && (a[6] != q[6] || a[7] != q[7]))
      || !(IsCompared(a[0]) || IsSrcRouted(a[0]) || a[0] == SDN_PACKET_DATA || a[0] == SDN_PACKET_NEIGHBOR_REPORT)
    ensures Treat(a, q) == Skip
  {
    if a[0] != q[0] {
      OtherTypeIsSkipped(a, q);
    } else {
      TreatsOthers(a, q);
      if T.WellFormed(a) && T.WellFormed(q) {
        OtherTargetIsSkipped(a, q);
      }
    }
  }

  /** A neighbor report takes the place of the same node's, and no other's. */
  lemma {:induction false} ReportsReplaceTheirOwn(a: seq<byte>, q: seq<byte>)
    requires 8 <= |a| <= SDN_MAX_PACKET_SIZE && 8 <= |q| <= SDN_MAX_PACKET_SIZE && a[1] % 2 == 0 && q[1] % 2 == 0
    requires a[0] == q[0] == SDN_PACKET_NEIGHBOR_REPORT && a[6] == q[6] && a[7] == q[7]
    ensures Treat(a, q) == if a[4] == q[4] && a[5] == q[5] then Replace else Skip
  {
    assert a[6..8] == [a[6], a[7]] == q[6..8];
  }

  /** Every sub-packet has the octets that are compared. */
  predicate Long(ptype: byte, subs: seq<Sub>) {
    IsCompared(ptype) ==> Supersede.Comparable(KeySize(ptype), subs)
  }

  lemma {:induction false} IsGood(b: seq<byte>, subs: seq<Sub>)
    requires Carries(b, subs) && !IsSrcRouted(b[0]) && Long(b[0], subs)
    ensures Good(b) && !SourceRouted(b) && T.WellFormed(b) && T.SubsIn(b) == subs
  {
    T.SubsInIs(b, subs);
  }

  /**
   * What a merge comes to.  With room in the packet and for the sub-packets, the queued packet takes all of the
   * arriving one's behind its own, and keeps its header but for the merged flag; otherwise it stays as it is.
   */
  predicate Joined(outcome: Outcome, a: seq<byte>, news: seq<Sub>, q: seq<byte>, olds: seq<Sub>)
    requires |q| >= 8
  {
    match outcome
    case Absorbed(b) =>
      && |news| + |olds| <= 8 && |a| + |q| <= 116 && Carries(b, olds + news) && |b| >= 8
      && b[1] == (if q[1] % 2 == 1 then q[1] else q[1] + 1)
      && forall k :: 0 <= k < 8 && k != 1 ==> b[k] == q[k]
    case Refused(b) => (|news| + |olds| > 8 || |a| + |q| > 116) && b == q
    case _ => false
  }

  lemma {:induction false} CombinedIsJoined(a: seq<byte>, news: seq<Sub>, q: seq<byte>, olds: seq<Sub>)
    requires Carries(a, news) && Carries(q, olds)
    ensures Joined(T.Combined(a, news, q, olds), a, news, q, olds)
  {
    if |news| + |olds| <= 8 && |a| + |q| <= 116 {
      MergedCarries(a, news, q, olds);
      var b := Merged(q, olds, news);
      assert b[..HEADER] == SetMerged(q[..HEADER]);
      assert forall k :: 0 <= k < 8 ==> b[k] == b[..HEADER][k];
    }
  }

  /** Data packets of one flow are merged. */
  lemma {:induction false} DataIsJoined(a: seq<byte>, news: seq<Sub>, q: seq<byte>, olds: seq<Sub>)
    requires Carries(a, news) && Carries(q, olds)
    requires a[0] == q[0] == SDN_PACKET_DATA && a[6] == q[6] && a[7] == q[7]
    ensures Joined(Treat(a, q), a, news, q, olds)
  {
    IsGood(a, news);
    IsGood(q, olds);
    assert a[6..8] == [a[6], a[7]] == q[6..8];
    CombinedIsJoined(a, news, q, olds);
  }

  /** The packets are of one type that is compared, and for one destination; they carry these sub-packets. */
  predicate Alike(a: seq<byte>, news: seq<Sub>, q: seq<byte>, olds: seq<Sub>) {
    && Carries(a, news) && Carries(q, olds) && a[0] == q[0] && IsCompared(q[0]) && a[6] == q[6] && a[7] == q[7]
    && Supersede.Comparable(KeySize(q[0]), news) && Supersede.Comparable(KeySize(q[0]), olds)
  }

  lemma {:induction false} AlikeAreCompared(a: seq<byte>, news: seq<Sub>, q: seq<byte>, olds: seq<Sub>)
    requires Alike(a, news, q, olds)
    ensures T.WellFormed(a) && T.WellFormed(q) && T.SubsIn(a) == news && T.SubsIn(q) == olds
    ensures KeySize(q[0]) == T.CompareSize(q[0]) && Treat(a, q) == T.DecideCompared(a, q, KeySize(q[0]))
  {
    IsGood(a, news);
    IsGood(q, olds);
    assert a[6..8] == [a[6], a[7]] == q[6..8];
  }

  /**
   * An unmerged packet: of the arriving sub-packets the first that matches it decides.  From another node it
   * replaces the packet, from the same node it changes nothing; if there is none, the packets are merged.
   */
  lemma {:induction false} UnmergedIsCompared(a: seq<byte>, news: seq<Sub>, q: seq<byte>, o: Sub, i: nat)
    requires Alike(a, news, q, [o]) && q[1] % 2 == 0
    requires i <= |news| && forall j :: 0 <= j < i ==> !Supersede.Matches(KeySize(q[0]), news[j].payload, o.payload)
    ensures i == |news| ==> Joined(Treat(a, q), a, news, q, [o])
    ensures i < |news| && Supersede.Matches(KeySize(q[0]), news[i].payload, o.payload) ==>
              Treat(a, q) == if news[i].source == o.source then Skip else Replace
  {
    AlikeAreCompared(a, news, q, [o]);
    Supersede.VerdictIs(KeySize(q[0]), news, o, i);
    CombinedIsJoined(a, news, q, [o]);
  }

  /** A container whose sub-packets are these after the deletions. */
  lemma {:induction false} ContainerIsJoined(a: seq<byte>, news: seq<Sub>, q: seq<byte>, olds: seq<Sub>, left: seq<Sub>)
    requires Alike(a, news, q, olds) && q[1] % 2 == 1 && T.WellFormed(a) && T.WellFormed(q)
    requires left == T.Left(a, KeySize(q[0]), q)
    ensures |left| < 256 && Joined(Treat(a, q), a, news, Container(q[..8], left), left)
  {
    AlikeAreCompared(a, news, q, olds);
    T.LeftIsContainer(a, q);
    CombinedIsJoined(a, news, Container(q[..8], left), left);
  }

  /** A container that an unmerged packet meets keeps what this does not match, in order, and then takes it in. */
  lemma {:induction false} ContainerIsFiltered(a: seq<byte>, n: Sub, q: seq<byte>, olds: seq<Sub>)
    requires Alike(a, [n], q, olds) && a[1] % 2 == 0 && q[1] % 2 == 1
    ensures
      var left := Supersede.Surviving(KeySize(q[0]), n, olds);
      |left| < 256 && Joined(Treat(a, q), a, [n], Container(q[..8], left), left)
  {
    AlikeAreCompared(a, [n], q, olds);
    T.LeftIsSurviving(a, KeySize(q[0]), q);
    ContainerIsJoined(a, [n], q, olds, T.Left(a, KeySize(q[0]), q));
  }

  /**
   * Two containers: the queued one keeps what no arriving sub-packet of another node matches, if its
   * sub-packets are different and those to go stand in the order of those that match them.
   */
  lemma {:induction false} ContainersAreFiltered(a: seq<byte>, news: seq<Sub>, q: seq<byte>, olds: seq<Sub>)
    requires Alike(a, news, q, olds) && a[1] % 2 == 1 && q[1] % 2 == 1
    requires M.AllDifferent(olds) && M.SameOrder(true, KeySize(q[0]), news, olds)
    ensures
      var left := M.Unsuperseded(true, KeySize(q[0]), news, olds);
      |left| < 256 && Joined(Treat(a, q), a, news, Container(q[..8], left), left)
  {
    AlikeAreCompared(a, news, q, olds);
    M.SameOrderFilters(true, KeySize(q[0]), news, olds);
    ContainerIsJoined(a, news, q, olds, T.Left(a, KeySize(q[0]), q));
  }

  /**
   * The receiver, which looks for the count behind the header it takes a packet of the type to have, finds it
   * in every packet that a merge was tried on.
   */
  lemma {:induction false} MergedHasOneHeader(a: seq<byte>, q: seq<byte>)
    requires |a| >= 8 && |q| >= 8 && Treat(a, q) != Skip && Treat(a, q) != Replace
    ensures a[0] == q[0] && HeaderSize(q[0]) == 8
    ensures IsCompared(q[0]) || IsSrcRouted(q[0]) || q[0] == SDN_PACKET_DATA
  {
    if a[0] != q[0] {
      OtherTypeIsSkipped(a, q);
    } else if !IsSrcRouted(a[0]) {
      TreatsOthers(a, q);
      if T.WellFormed(a) && T.WellFormed(q) && !(IsCompared(a[0]) || a[0] == SDN_PACKET_DATA) {
        OthersAreNotMerged(a, q);
      }
    }
  }

  lemma {:induction false} OthersAreNotMerged(a: seq<byte>, q: seq<byte>)
    requires T.WellFormed(a) && T.WellFormed(q) && !IsCompared(a[0]) && a[0] != SDN_PACKET_DATA
    ensures T.Decide(a, q) == Skip || T.Decide(a, q) == Replace
  {
    assert a[0] !in T.COMPARED;
  }

  /**
   * However two packets of a flow came about, the queue merges them exactly if MergeHistory accepts the merge,
   * and into its octets.
   */
  lemma {:induction false} DataMergesAreAccepted(arriving: H.Build, queued: H.Build, flow: seq<byte>)
    requires H.Accepted(arriving) && H.Accepted(queued)
    requires H.SameTarget(arriving, SDN_PACKET_DATA, flow) && H.SameTarget(queued, SDN_PACKET_DATA, flow)
    ensures
      var t, found := H.Merge(arriving, queued), Treat(H.Octets(arriving), H.Octets(queued));
      && (found.Absorbed? <==> H.Accepted(t))
      && found == if H.Accepted(t) then Absorbed(H.Octets(t)) else Refused(H.Octets(queued))
  {
    var a, q := H.Octets(arriving), H.Octets(queued);
    H.BuildCarries(arriving);
    H.BuildCarries(queued);
    TargetOf(arriving, SDN_PACKET_DATA, flow);
    TargetOf(queued, SDN_PACKET_DATA, flow);
    IsGood(a, H.Subs(arriving));
    IsGood(q, H.Subs(queued));
    TreatsOthers(a, q);
    assert T.Decide(a, q) == T.Combined(a, H.Subs(arriving), q, H.Subs(queued));
  }

  lemma {:induction false} TargetOf(t: H.Build, ptype: byte, dest: seq<byte>)
    requires H.Accepted(t) && H.SameTarget(t, ptype, dest)
    ensures H.Octets(t)[0] == ptype && H.Octets(t)[6..8] == dest
  {
    H.BuildCarries(t);
    H.OldestIsOne(t, ptype, dest);
    var b, o := H.Octets(t), H.Oldest(t);
    assert b[0] == b[..HEADER][0] && b[6] == b[..HEADER][6] && b[7] == b[..HEADER][7];
    assert o[..HEADER][6] == o[6] && o[..HEADER][7] == o[7] && o[..HEADER][0] == o[0];
    assert o[6..8] == [o[6], o[7]];
    assert b[6..8] == [b[6], b[7]];
  }

  // ---- Source-routed packets.

  /** The octets that are left, as an outcome. */
  function AsOutcome(o: S.SrcOutcome, octets: seq<byte>): Outcome {
    match o
    case Skip => Outcome.Skip
    case Replace => Outcome.Replace
    case Absorbed(_) => Outcome.Absorbed(octets)
    case _ => Refused(octets)
  }

  lemma {:induction false} TreatsSrc(a: seq<byte>, x: S.Src, q: seq<byte>, y: S.Src)
    requires S.IsSrc(a, x) && S.IsSrc(q, y) && x.ptype == y.ptype
    ensures (y.subs != [] || y.merged) && S.Encodable(S.DecideSrc(x, y), y) && 8 <= S.BodyLen(y) <= |q|
    ensures Treat(a, q) == AsOutcome(S.DecideSrc(x, y), S.LeftOctets(S.DecideSrc(x, y), y, q))
  {
    GoodSrc(a, x);
    GoodSrc(q, y);
    S.Begins(q, y);
    S.BodyFits(q, y);
    DecideIsEncodable(a, q, x, y);
  }

  /** With another route or real destination the queued packet is left alone. */
  lemma {:induction false} OtherRouteIsSkipped(a: seq<byte>, x: S.Src, q: seq<byte>, y: S.Src)
    requires S.IsSrc(a, x) && S.IsSrc(q, y) && x.route != y.route
    ensures Treat(a, q) == Skip
  {
    if x.ptype != y.ptype {
      OtherTypeIsSkipped(a, q);
    } else {
      TreatsSrc(a, x, q, y);
    }
  }

  /**
   * What a merge of source-routed packets with one tail comes to, for a queued packet with these octets.
   * Room is needed for both bodies and one tail; without it the tail stays, but with too many
   * sub-packets it is lost.
   */
  predicate SrcJoined(outcome: Outcome, a: seq<byte>, x: S.Src, q: seq<byte>, y: S.Src)
    requires |q| >= 8 && |q| >= 3 + 2 * |y.route.path|
  {
    var tail := 3 + 2 * |y.route.path|;
    match outcome
    case Absorbed(b) =>
      && |a| + |q| - tail <= 116 && |x.subs| + |y.subs| <= 8
      && S.IsSrc(b, S.Src(y.ptype, true, y.subs + x.subs, y.route)) && b[6] == q[6] && b[7] == q[7]
    case Refused(b) =>
      if |a| + |q| - tail > 116 then b == q else |x.subs| + |y.subs| > 8 && b == q[..|q| - tail]
    case _ => false
  }

  lemma {:induction false} BothFit(a: seq<byte>, x: S.Src, q: seq<byte>, y: S.Src)
    requires S.IsSrc(a, x) && S.IsSrc(q, y) && x.ptype == y.ptype && x.route == y.route && S.MergeInto(x, y).Absorbed?
    ensures |x.subs| + |y.subs| <= 8 && |a| + |q| - (3 + 2 * |y.route.path|) <= 116 && |y.route.path| < 256
    ensures
      var b := S.SrcOctets(SetMerged(q[..8]), y.subs + x.subs, y.route);
      S.IsSrc(b, S.Src(y.ptype, true, y.subs + x.subs, y.route)) && b[6] == q[6] && b[7] == q[7]
  {
    SubsLen(a, x);
    SubsLen(q, y);
    EncSubsJoin(y.subs, x.subs);
    var header, z := SetMerged(q[..8]), S.Src(y.ptype, true, y.subs + x.subs, y.route);
    OctetsAreSrc(header, z);
    var b := S.SrcOctets(header, z.subs, z.route);
    assert b[6] == header[6] && b[7] == header[7];
  }

  lemma {:induction false} MergeIsJoined(a: seq<byte>, x: S.Src, q: seq<byte>, y: S.Src)
    requires S.IsSrc(a, x) && S.IsSrc(q, y) && x.ptype == y.ptype && x.route == y.route
    ensures S.Encodable(S.MergeInto(x, y), y) && 8 <= S.BodyLen(y) <= |q| && 3 + 2 * |y.route.path| <= |q|
    ensures SrcJoined(AsOutcome(S.MergeInto(x, y), S.LeftOctets(S.MergeInto(x, y), y, q)), a, x, q, y)
  {
    SubsLen(a, x);
    SubsLen(q, y);
    var o := S.MergeInto(x, y);
    if o.Absorbed? {
      BothFit(a, x, q, y);
    } else if y.merged {
      S.MergedIsOctets(q, y);
      assert Container(q[..8], y.subs) == q[..S.BodyLen(y)];
    }
  }

  /** An unmerged packet is compared as one of the other types is. */
  lemma {:induction false} SrcUnmergedIsCompared(a: seq<byte>, x: S.Src, q: seq<byte>, y: S.Src, o: Sub, i: nat)
    requires S.IsSrc(a, x) && S.IsSrc(q, y) && x.ptype == y.ptype && x.route == y.route && !y.merged && y.subs == [o]
    requires i <= |x.subs| && forall j :: 0 <= j < i ==> !Supersede.Matches(2, x.subs[j].payload, o.payload)
    ensures 3 + 2 * |y.route.path| <= |q| && (i == |x.subs| ==> SrcJoined(Treat(a, q), a, x, q, y))
    ensures i < |x.subs| && Supersede.Matches(2, x.subs[i].payload, o.payload) ==>
              Treat(a, q) == if x.subs[i].source == o.source then Skip else Replace
  {
    TreatsSrc(a, x, q, y);
    Supersede.VerdictIs(2, x.subs, o, i);
    MergeIsJoined(a, x, q, y);
  }

  /** A container loses what is deleted, and keeps its tail, before the merge is tried. */
  lemma {:induction false} SrcContainerIsJoined(a: seq<byte>, x: S.Src, q: seq<byte>, y: S.Src, left: seq<Sub>)
    requires S.IsSrc(a, x) && S.IsSrc(q, y) && x.ptype == y.ptype && x.route == y.route && y.merged
    requires left == S.Left(x, y)
    ensures |left| < 256 && |y.route.path| < 256
    ensures
      var mid, y' := S.SrcOctets(q[..8], left, y.route), y.(subs := left);
      S.IsSrc(mid, y') && SrcJoined(Treat(a, q), a, x, mid, y')
  {
    TreatsSrc(a, x, q, y);
    SubsLen(q, y);
    LeftFits(q, x, y);
    var mid, y' := S.SrcOctets(q[..8], left, y.route), y.(subs := left);
    OctetsAreSrc(q[..8], y');
    MergeIsJoined(a, x, mid, y');
    S.SameLeft(S.MergeInto(x, y'), y, y', q, mid);
  }

  lemma {:induction false} SrcContainerIsFiltered(a: seq<byte>, x: S.Src, n: Sub, q: seq<byte>, y: S.Src)
    requires S.IsSrc(a, x) && S.IsSrc(q, y) && x.ptype == y.ptype && x.route == y.route && y.merged
    requires !x.merged && x.subs == [n]
    ensures
      var left := Supersede.Surviving(2, n, y.subs);
      && |left| < 256 && |y.route.path| < 256
      && var mid, y' := S.SrcOctets(q[..8], left, y.route), y.(subs := left);
      S.IsSrc(mid, y') && SrcJoined(Treat(a, q), a, x, mid, y')
  {
    Supersede.UnmergedArrivalFilters(2, n, y.subs);
    SrcContainerIsJoined(a, x, q, y, S.Left(x, y));
  }

  lemma {:induction false} SrcContainersAreFiltered(a: seq<byte>, x: S.Src, q: seq<byte>, y: S.Src)
    requires S.IsSrc(a, x) && S.IsSrc(q, y) && x.ptype == y.ptype && x.route == y.route && y.merged && x.merged
    requires M.AllDifferent(y.subs) && M.SameOrder(true, 2, x.subs, y.subs)
    ensures
      var left := M.Unsuperseded(true, 2, x.subs, y.subs);
      && |left| < 256 && |y.route.path| < 256
      && var mid, y' := S.SrcOctets(q[..8], left, y.route), y.(subs := left);
      S.IsSrc(mid, y') && SrcJoined(Treat(a, q), a, x, mid, y')
  {
    M.SameOrderFilters(true, 2, x.subs, y.subs);
    SrcContainerIsJoined(a, x, q, y, S.Left(x, y));
  }

  /** What the controller sends as a source-routed setup is such a packet, with the rule as its only sub-packet. */
  lemma {:induction false} SetupIsSource(p: R.Setup)
    requires R.WellFormed(p) && p.header[0] == SDN_PACKET_SRC_ROUTED_DATA_FLOW_SETUP && p.header[1] % 2 == 0 && |p.route| <= 50
    ensures
      var f, e, source := p.rule.flow, p.rule.e, Addr(p.header[4], p.header[5]);
      var rule := [f.f0, f.f1, e.action, e.param.u0, e.param.u1];
      S.IsSrc(R.Encode(p), S.Src(p.header[0], false, [Sub(p.header[3], source, rule)], Route(p.realDest, p.route)))
  {
    var b, f, e, r := R.Encode(p), p.rule.flow, p.rule.e, Route(p.realDest, p.route);
    R.EncodedOctets(p, 0);
    assert b == b[..13] + EncTail(r);
    assert b[..13][8..] == [f.f0, f.f1, e.action, e.param.u0, e.param.u1];
    assert b[0] == b[..6][0] && b[1] == b[..6][1] && b[3] == b[..6][3] && b[4] == b[..6][4] && b[5] == b[..6][5];
  }
}
