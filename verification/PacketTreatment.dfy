// One treatment for packets of all types, on octets: when it leaves every
// queued packet well formed, so that it can be repeated on its own results.
module PacketTreatment {
  import opened Common
  import opened PacketBytes
  import opened Subpackets
  import opened SourceTail
  import Supersede
  import Deaggregation
  import opened PacketQueue
  import S = SourceTreatment
  import T = QueueTreatment

  // ---- What a source-routed packet holds, read from its octets.

  function DecAddrs(b: seq<byte>): seq<Addr> {
    if |b| < 2 then [] else DecAddrs(b[..|b| - 2]) + [AddrAt(b, |b| - 2)]
  }

  lemma {:induction false} DecodedAddrs(s: seq<Addr>)
    ensures DecAddrs(EncAddrs(s)) == s
  {
    if s != [] {
      var b, front := EncAddrs(s), s[..|s| - 1];
      DecodedAddrs(front);
      assert b[..|b| - 2] == EncAddrs(front);
    }
  }

  /** The tail that starts at a place. */
  function RouteAt(b: seq<byte>, n: nat): Route {
    if n + 3 <= |b| then Route(AddrAt(b, n), DecAddrs(b[n + 3..])) else Route(Addr(0, 0), [])
  }

  lemma {:induction false} RouteRead(b: seq<byte>, n: nat, r: Route)
    requires |r.path| < 256 && n + |EncTail(r)| == |b| && b[n..] == EncTail(r)
    ensures RouteAt(b, n) == r
  {
    TailRead(b, n, r);
    DecodedAddrs(r.path);
  }

  function SrcIn(b: seq<byte>): S.Src
    requires HEADER <= |b| <= REACH
  {
    if IsMerged(b) then
      if |b| == HEADER then S.Src(b[TYPE], true, [], RouteAt(b, |b|))
      else
        var read := Deaggregation.Parse(b, HEADER + 1, b[HEADER]);
        S.Src(b[TYPE], true, read.subs, RouteAt(b, read.at))
    else
      var n := BodySize(b[TYPE]);
      S.Src(b[TYPE], false, if n <= |b| then [OwnSub(b[..n])] else [], RouteAt(b, n))
  }

  lemma {:induction false} MergedSrcIn(b: seq<byte>, x: S.Src)
    requires S.IsSrc(b, x) && x.merged
    ensures HEADER < |b| && Deaggregation.Parse(b, HEADER + 1, b[HEADER]) == Deaggregation.Reader(x.subs, S.BodyLen(x), false)
    ensures RouteAt(b, S.BodyLen(x)) == x.route
  {
    TailBehindSubs(b, x.subs, x.route);
    Deaggregation.ParseOfContainer(b, x.subs, |x.subs|);
    assert x.subs[..|x.subs|] == x.subs;
    RouteRead(b, S.BodyLen(x), x.route);
  }

  lemma {:induction false} UnmergedSrcIn(b: seq<byte>, x: S.Src)
    requires S.IsSrc(b, x) && !x.merged
    ensures
      var n := BodySize(b[TYPE]);
      n <= |b| && x.subs == [OwnSub(b[..n])] && RouteAt(b, n) == x.route
  {
    RouteRead(b, BodySize(b[TYPE]), x.route);
  }

  lemma {:induction false} SrcInIs(b: seq<byte>, x: S.Src)
    requires S.IsSrc(b, x)
    ensures SrcIn(b) == x
  {
    if x.merged {
      MergedSrcIn(b, x);
    } else {
      UnmergedSrcIn(b, x);
    }
  }

  // ---- All types.

  predicate SourceRouted(b: seq<byte>) {
    |b| > 0 && b[TYPE] in SRC_ROUTED_TYPES
  }

  /** A queued packet is as its type demands. */
  predicate Good(b: seq<byte>) {
    HEADER <= |b| <= REACH && (if SourceRouted(b) then S.IsSrc(b, SrcIn(b)) else T.WellFormed(b))
  }

  lemma {:induction false} GoodSrc(b: seq<byte>, x: S.Src)
    requires S.IsSrc(b, x)
    ensures Good(b) && SourceRouted(b) && SrcIn(b) == x
  {
    SrcInIs(b, x);
  }

  /** The decision of SourceTreatment, as an outcome on octets. */
  function DecideOnOctets(arriving: seq<byte>, queued: seq<byte>): (o: Outcome)
    requires Good(arriving) && Good(queued) && SourceRouted(arriving) && SourceRouted(queued)
  {
    var a, q := SrcIn(arriving), SrcIn(queued);
    S.Begins(queued, q);
    var outcome := S.DecideSrc(a, q);
    DecideIsEncodable(arriving, queued, a, q);
    match outcome
    case Skip => Skip
    case Replace => Replace
    case Absorbed(_) => Absorbed(S.LeftOctets(outcome, q, queued))
    case _ => Refused(S.LeftOctets(outcome, q, queued))
  }

  lemma {:induction false} DecideIsEncodable(arriving: seq<byte>, queued: seq<byte>, a: S.Src, q: S.Src)
    requires S.IsSrc(arriving, a) && S.IsSrc(queued, q) && (q.subs != [] || q.merged)
    ensures S.Encodable(S.DecideSrc(a, q), q) && S.BodyLen(q) <= |queued|
  {
    S.BodyFits(queued, q);
    Supersede.DeletedIsPart(q.subs, Supersede.Capped(Supersede.AllHits(a.merged, S.COMPARE_SIZE, a.subs, q.subs), |q.subs|));
  }

  /** sdn_queue_determine_pckt_action and the merge it may lead to, for packets of any type. */
  function DecideAny(arriving: seq<byte>, queued: seq<byte>): Outcome
    requires Good(arriving) && Good(queued)
  {
    if arriving[TYPE] != queued[TYPE] then Skip
    else if SourceRouted(arriving) then DecideOnOctets(arriving, queued)
    else T.Decide(arriving, queued)
  }

  /** Treats one queued packet in place, whatever its type. */
  method TreatAny(p1: array<byte>, p1Len: byte, p2: array<byte>, p2Len: byte, ghost before: seq<byte>)
    returns (code: Supersede.Action, done: bool, newLen: nat)
    requires p1 != p2 && p1.Length == p2.Length == REACH && p1Len <= p1.Length && p2Len <= p2.Length
    requires Good(p1[..p1Len]) && Good(before) && before == p2[..p2Len]
    modifies p2
    ensures newLen <= p2.Length
    ensures
      match DecideAny(p1[..p1Len], before)
      case Skip => code == Supersede.NoAction && p2[..newLen] == before
      case Replace => code == Supersede.Replace && p2[..newLen] == before
      case Absorbed(o) => code == Supersede.Merge && done && p2[..newLen] == o
      case Refused(o) => code == Supersede.Merge && !done && p2[..newLen] == o
  {
    ghost var b1 := p1[..p1Len];
    if p1[TYPE] != p2[TYPE] {
      assert b1[TYPE] == p1[TYPE] && before[TYPE] == p2[TYPE];
      return Supersede.NoAction, false, p2Len;
    }
    if p1[TYPE] in SRC_ROUTED_TYPES {
      code, done, newLen := S.TreatSrcSlot(p1, p1Len, p2, p2Len, SrcIn(b1), SrcIn(before), before);
    } else {
      code, done, newLen := T.TreatSlot(p1, p1Len, p2, p2Len);
    }
  }

  // ---- Which treatments leave a packet that can be treated again.

  /**
   * The packets belong together and their bodies and one tail fit, but there are too many sub-packets:
   * the merge is refused when the tails are already cut off, and the queued packet's is not put back.
   */
  predicate LosesTail(a: S.Src, q: S.Src) {
    && a.ptype == q.ptype && a.route == q.route
    && (q.merged || (q.subs != [] && Supersede.Verdict(S.COMPARE_SIZE, a.subs, q.subs[0]) == Supersede.Merge))
    && var q' := AfterDeletion(a, q);
    && S.BodyLen(a) + S.BodyLen(q') + S.TailLen(q.route) <= SDN_MAX_PACKET_SIZE
    && |a.subs| + |q'.subs| > SDN_MAX_SUBPACKETS
  }

  predicate GoodOfType(b: seq<byte>, ptype: byte) {
    Good(b) && b[TYPE] == ptype
  }

  /** A rewritten packet is as this predicate demands. */
  predicate Stays(outcome: Outcome, good: seq<byte> -> bool) {
    match outcome
    case Absorbed(o) => good(o)
    case Refused(o) => good(o)
    case _ => true
  }

  /** A rewritten packet has this type. */
  predicate KeepsType(outcome: Outcome, ptype: byte) {
    match outcome
    case Absorbed(o) => |o| > 0 && o[TYPE] == ptype
    case Refused(o) => |o| > 0 && o[TYPE] == ptype
    case _ => true
  }

  lemma {:induction false} SubsLen(b: seq<byte>, x: S.Src)
    requires S.IsSrc(b, x)
    ensures |EncSubs(x.subs)| == S.BodyLen(x) - if x.merged then HEADER + 1 else SUB_HEADER
    ensures |b| == S.BodyLen(x) + S.TailLen(x.route) && b[TYPE] == x.ptype && x.ptype in SRC_ROUTED_TYPES && HEADER <= S.BodyLen(x)
    ensures |x.route.path| < 256 && |x.subs| <= SDN_MAX_SUBPACKETS && Supersede.Comparable(S.COMPARE_SIZE, x.subs)
  {
    S.Begins(b, x);
    if !x.merged {
      var own := x.subs[0];
      assert x.subs[..0] == [] && x.subs == [own];
      assert EncSubs(x.subs) == EncSubs([]) + EncSub(own);
    }
  }

  /** A header of the right type, sub-packets and a tail that fit make a source-routed packet. */
  lemma {:induction false} OctetsAreSrc(header: seq<byte>, x: S.Src)
    requires |header| == HEADER && IsMerged(header) && header[TYPE] == x.ptype && x.ptype in SRC_ROUTED_TYPES && x.merged
    requires |x.route.path| < 256 && S.BodyLen(x) + S.TailLen(x.route) <= REACH
    requires |x.subs| <= SDN_MAX_SUBPACKETS && Supersede.Comparable(S.COMPARE_SIZE, x.subs)
    ensures S.IsSrc(S.SrcOctets(header, x.subs, x.route), x)
  {
    S.ContainerIsSrc(S.SrcOctets(header, x.subs, x.route), header, x.subs, x);
  }

  /** What the deletions leave of a queued packet; an unmerged one stays as it is. */
  function AfterDeletion(a: S.Src, q: S.Src): S.Src {
    if q.merged then q.(subs := S.Left(a, q)) else q
  }

  lemma {:induction false} LeftFits(b: seq<byte>, a: S.Src, q: S.Src)
    requires S.IsSrc(b, q)
    ensures
      var q' := AfterDeletion(a, q);
      && S.BodyLen(q') <= S.BodyLen(q) && |q'.subs| <= SDN_MAX_SUBPACKETS && Supersede.Comparable(S.COMPARE_SIZE, q'.subs)
      && |EncSubs(q'.subs)| == S.BodyLen(q') - if q.merged then HEADER + 1 else SUB_HEADER
  {
    SubsLen(b, q);
    if q.merged {
      var d := Supersede.Capped(Supersede.AllHits(a.merged, S.COMPARE_SIZE, a.subs, q.subs), |q.subs|);
      Supersede.DeletedIsPart(q.subs, d);
      T.DeletedIsShorter(q.subs, d);
    }
  }

  /** The outcome of a merge keeps the packet well formed unless it is the one that loses the tail. */
  lemma {:induction false} AbsorbedIsGood(arriving: seq<byte>, queued: seq<byte>, a: S.Src, q: S.Src)
    requires S.IsSrc(arriving, a) && S.IsSrc(queued, q) && a.ptype == q.ptype && a.route == q.route
    requires S.MergeInto(a, AfterDeletion(a, q)).Absorbed?
    ensures
      var subs := S.MergeInto(a, AfterDeletion(a, q)).subs;
      |subs| < 256 && |q.route.path| < 256 && GoodOfType(S.SrcOctets(SetMerged(queued[..HEADER]), subs, q.route), q.ptype)
  {
    SubsLen(arriving, a);
    SubsLen(queued, q);
    LeftFits(queued, a, q);
    var q' := AfterDeletion(a, q);
    EncSubsJoin(q'.subs, a.subs);
    var x := q.(merged := true, subs := q'.subs + a.subs);
    var header := SetMerged(queued[..HEADER]);
    OctetsAreSrc(header, x);
    GoodSrc(S.SrcOctets(header, x.subs, x.route), x);
  }

  lemma {:induction false} NoRoomIsGood(queued: seq<byte>, a: S.Src, q: S.Src)
    requires S.IsSrc(queued, q) && q.merged
    ensures
      var subs := S.Left(a, q);
      |subs| < 256 && |q.route.path| < 256 && GoodOfType(S.SrcOctets(queued[..HEADER], subs, q.route), q.ptype)
  {
    SubsLen(queued, q);
    LeftFits(queued, a, q);
    var x := AfterDeletion(a, q);
    OctetsAreSrc(queued[..HEADER], x);
    GoodSrc(S.SrcOctets(queued[..HEADER], x.subs, x.route), x);
  }

  lemma {:induction false} SubsEndIt(b: seq<byte>, header: seq<byte>, subs: seq<Sub>)
    requires |header| == HEADER && |subs| < 256 && b == Container(header, subs)
    ensures |b| == HEADER + 1 + |EncSubs(subs)| && b[HEADER] == |subs|
    ensures Deaggregation.Parse(b, HEADER + 1, |subs|).at == |b|
  {
    assert b[HEADER + 1..HEADER + 1 + |EncSubs(subs)|] == EncSubs(subs);
    ParseEndsAt(b, subs);
  }

  lemma {:induction false} ParseEndsAt(b: seq<byte>, subs: seq<Sub>)
    requires |b| == HEADER + 1 + |EncSubs(subs)| && b[HEADER + 1..HEADER + 1 + |EncSubs(subs)|] == EncSubs(subs)
    ensures Deaggregation.Parse(b, HEADER + 1, |subs|).at == |b|
  {
    var n := |subs|;
    Deaggregation.ParseOfContainer(b, subs, n);
    assert subs[..n] == subs;
  }

  /** Without its tail a container is no source-routed packet. */
  lemma {:induction false} TaillessIsBad(header: seq<byte>, subs: seq<Sub>)
    requires |header| == HEADER && |subs| < 256 && IsMerged(header) && header[TYPE] in SRC_ROUTED_TYPES
    ensures !Good(Container(header, subs))
  {
    var b := Container(header, subs);
    assert b[TYPE] == header[TYPE] && b[RESERVED] == header[RESERVED];
    SubsEndIt(b, header, subs);
    if Good(b) {
      var x := SrcIn(b);
      MergedSrcIn(b, x);
      SubsLen(b, x);
    }
  }

  lemma {:induction false} ShortIsBad(queued: seq<byte>, q: S.Src)
    requires S.IsSrc(queued, q) && !q.merged
    ensures S.BodyLen(q) <= |queued| && !Good(queued[..S.BodyLen(q)])
  {
    SubsLen(queued, q);
    var b := queued[..S.BodyLen(q)];
    if Good(b) {
      var x := SrcIn(b);
      SubsLen(b, x);
    }
  }

  /** The packets are of a source-routed type, and treating the queued one loses its tail. */
  predicate TailAtRisk(arriving: seq<byte>, queued: seq<byte>) {
    && Good(arriving) && Good(queued) && SourceRouted(arriving) && SourceRouted(queued)
    && LosesTail(SrcIn(arriving), SrcIn(queued))
  }

  lemma {:induction false} LosesTailIs(queued: seq<byte>, a: S.Src, q: S.Src)
    requires S.IsSrc(queued, q) && (q.subs != [] || q.merged)
    ensures S.DecideSrc(a, q).TailLost? <==> LosesTail(a, q)
  {
    SubsLen(queued, q);
    LeftFits(queued, a, q);
  }

  /** A lost tail leaves a packet that is no source-routed one any more. */
  lemma {:induction false} TailLostIsBad(queued: seq<byte>, a: S.Src, q: S.Src)
    requires S.IsSrc(queued, q) && (q.subs != [] || q.merged) && S.DecideSrc(a, q).TailLost?
    ensures S.Encodable(S.DecideSrc(a, q), q) && S.BodyLen(q) <= |queued|
    ensures
      var o := S.LeftOctets(S.DecideSrc(a, q), q, queued);
      !Good(o) && |o| > 0 && o[TYPE] == q.ptype
  {
    SubsLen(queued, q);
    LeftFits(queued, a, q);
    if q.merged {
      TaillessIsBad(queued[..HEADER], S.Left(a, q));
      assert Container(queued[..HEADER], S.Left(a, q))[TYPE] == queued[..HEADER][TYPE];
    } else {
      ShortIsBad(queued, q);
    }
  }

  /** Every other outcome leaves one. */
  lemma {:induction false} OthersAreGood(arriving: seq<byte>, queued: seq<byte>, a: S.Src, q: S.Src)
    requires S.IsSrc(arriving, a) && S.IsSrc(queued, q) && (q.subs != [] || q.merged) && !S.DecideSrc(a, q).TailLost?
    requires GoodOfType(queued, q.ptype)
    ensures S.Encodable(S.DecideSrc(a, q), q) && S.BodyLen(q) <= |queued|
    ensures GoodOfType(S.LeftOctets(S.DecideSrc(a, q), q, queued), q.ptype)
  {
    DecideIsEncodable(arriving, queued, a, q);
    var outcome := S.DecideSrc(a, q);
    if outcome.Absorbed? {
      AbsorbedIsGood(arriving, queued, a, q);
    } else if outcome.NoRoom? && q.merged {
      NoRoomIsGood(queued, a, q);
    } else {
      assert S.LeftOctets(outcome, q, queued) == queued;
    }
  }

  lemma {:induction false} LeftIsGoodIff(arriving: seq<byte>, queued: seq<byte>, a: S.Src, q: S.Src)
    requires S.IsSrc(arriving, a) && S.IsSrc(queued, q) && (q.subs != [] || q.merged) && GoodOfType(queued, q.ptype)
    ensures S.Encodable(S.DecideSrc(a, q), q) && S.BodyLen(q) <= |queued|
    ensures
      var o := S.LeftOctets(S.DecideSrc(a, q), q, queued);
      (Good(o) <==> !LosesTail(a, q)) && |o| > 0 && o[TYPE] == q.ptype
  {
    LosesTailIs(queued, a, q);
    if S.DecideSrc(a, q).TailLost? {
      TailLostIsBad(queued, a, q);
    } else {
      OthersAreGood(arriving, queued, a, q);
    }
  }

  /** The source-routed types. */
  lemma {:induction false} OctetsStayGoodIff(arriving: seq<byte>, queued: seq<byte>)
    requires Good(arriving) && Good(queued) && SourceRouted(arriving) && SourceRouted(queued)
    ensures Stays(DecideOnOctets(arriving, queued), Good) <==> !TailAtRisk(arriving, queued)
    ensures KeepsType(DecideOnOctets(arriving, queued), queued[TYPE])
  {
    var a, q := SrcIn(arriving), SrcIn(queued);
    S.Begins(queued, q);
    LeftIsGoodIff(arriving, queued, a, q);
    LosesTailIs(queued, a, q);
  }

  lemma {:induction false} OthersStayGood(arriving: seq<byte>, queued: seq<byte>)
    requires T.WellFormed(arriving) && T.WellFormed(queued)
    ensures Stays(T.Decide(arriving, queued), Good) && KeepsType(T.Decide(arriving, queued), queued[TYPE])
  {
    T.DecideKeepsWellFormed(arriving, queued);
  }

  /**
   * Whatever the types, the queued packet keeps its type, and it is well formed after its treatment
   * exactly if the treatment does not lose a tail.
   */
  lemma {:induction false} DecisionKeepsGoodIff(arriving: seq<byte>, queued: seq<byte>)
    requires Good(arriving) && Good(queued)
    ensures Stays(DecideAny(arriving, queued), Good) <==> !TailAtRisk(arriving, queued)
    ensures KeepsType(DecideAny(arriving, queued), queued[TYPE])
  {
    if arriving[TYPE] != queued[TYPE] {
      OtherTypeOtherSrc(arriving, queued);
    } else if SourceRouted(arriving) {
      OctetsStayGoodIff(arriving, queued);
    } else {
      OthersStayGood(arriving, queued);
    }
  }

  lemma {:induction false} OtherTypeOtherSrc(arriving: seq<byte>, queued: seq<byte>)
    requires Good(arriving) && Good(queued) && arriving[TYPE] != queued[TYPE]
    ensures !TailAtRisk(arriving, queued)
  {
  }

  // ---- It happens: a setup packet meets a merged one of eight others for the same node.

  lemma {:induction false} NoneMatched(news: seq<Sub>, o: Sub)
    requires forall n :: n in news ==> !Supersede.Matches(S.COMPARE_SIZE, n.payload, o.payload)
    ensures Supersede.Verdict(S.COMPARE_SIZE, news, o) == Supersede.Merge
  {
    if news != [] {
      assert news[0] in news;
      NoneMatched(news[1..], o);
    }
  }

  lemma {:induction false} EncSubsOfFive(subs: seq<Sub>)
    requires forall s :: s in subs ==> |s.payload| == 5
    ensures |EncSubs(subs)| == 9 * |subs|
  {
    if subs != [] {
      assert Last(subs) in subs;
      EncSubsOfFive(subs[..|subs| - 1]);
    }
  }

  lemma {:induction false} UnmergedIsGood(body: seq<byte>, r: Route)
    requires |body| == HEADER + 5 && body[TYPE] == SDN_PACKET_SRC_ROUTED_DATA_FLOW_SETUP && !IsMerged(body) && |r.path| <= 9
    ensures
      var b, x := body + EncTail(r), S.Src(body[TYPE], false, [OwnSub(body)], r);
      S.IsSrc(b, x) && Good(b) && SourceRouted(b) && SrcIn(b) == x
  {
    var b, x := body + EncTail(r), S.Src(body[TYPE], false, [OwnSub(body)], r);
    assert b[..|body|] == body && b[|body|..] == EncTail(r);
    assert b[TYPE] == body[TYPE] && b[RESERVED] == body[RESERVED];
    assert S.IsSrc(b, x);
    GoodSrc(b, x);
  }

  lemma {:induction false} EightIsGood(header: seq<byte>, news: seq<Sub>, r: Route)
    requires |header| == HEADER && header[TYPE] == SDN_PACKET_SRC_ROUTED_DATA_FLOW_SETUP && IsMerged(header) && |r.path| <= 9
    requires |news| == SDN_MAX_SUBPACKETS && forall n :: n in news ==> |n.payload| == 5
    ensures
      var b, x := S.SrcOctets(header, news, r), S.Src(header[TYPE], true, news, r);
      S.IsSrc(b, x) && Good(b) && SourceRouted(b) && SrcIn(b) == x
  {
    EncSubsOfFive(news);
    OctetsAreSrc(header, S.Src(header[TYPE], true, news, r));
    GoodSrc(S.SrcOctets(header, news, r), S.Src(header[TYPE], true, news, r));
  }

  /** Eight sub-packets for the node of an unmerged packet, none of which matches it. */
  predicate EightOthers(a: S.Src, q: S.Src) {
    && a.ptype == q.ptype && a.route == q.route && !q.merged && |q.subs| == 1 && |a.subs| == SDN_MAX_SUBPACKETS
    && S.BodyLen(a) + S.BodyLen(q) + S.TailLen(q.route) <= SDN_MAX_PACKET_SIZE
    && forall n :: n in a.subs ==> !Supersede.Matches(S.COMPARE_SIZE, n.payload, q.subs[0].payload)
  }

  lemma {:induction false} AreEightOthers(ptype: byte, news: seq<Sub>, o: Sub, r: Route)
    requires ptype == SDN_PACKET_SRC_ROUTED_DATA_FLOW_SETUP && |r.path| <= 9 && |news| == SDN_MAX_SUBPACKETS
    requires forall n :: n in news ==> |n.payload| == 5 && !Supersede.Matches(S.COMPARE_SIZE, n.payload, o.payload)
    ensures EightOthers(S.Src(ptype, true, news, r), S.Src(ptype, false, [o], r))
  {
    EncSubsOfFive(news);
  }

  /** The decision for the two. */
  lemma {:induction false} EightAreTooMany(arriving: seq<byte>, queued: seq<byte>, a: S.Src, q: S.Src)
    requires S.IsSrc(arriving, a) && S.IsSrc(queued, q) && EightOthers(a, q)
    requires Good(arriving) && Good(queued) && SourceRouted(arriving) && SourceRouted(queued)
    requires SrcIn(arriving) == a && SrcIn(queued) == q
    ensures
      var n := S.BodyLen(q);
      n <= |queued| && DecideAny(arriving, queued) == Refused(queued[..n]) && !Good(queued[..n])
  {
    NoneMatched(a.subs, q.subs[0]);
    ShortIsBad(queued, q);
    assert S.DecideSrc(a, q) == S.TailLost(q.subs);
  }

  /** An unmerged flow setup in the queue, and eight others with the same route in one packet: up to nine addresses fit. */
  lemma {:induction false} EightOthersLoseTail(body: seq<byte>, news: seq<Sub>, r: Route)
    requires |body| == HEADER + 5 && body[TYPE] == SDN_PACKET_SRC_ROUTED_DATA_FLOW_SETUP && !IsMerged(body) && |r.path| <= 9
    requires |news| == SDN_MAX_SUBPACKETS
    requires forall n :: n in news ==> |n.payload| == 5 && !Supersede.Matches(S.COMPARE_SIZE, n.payload, body[HEADER..])
    ensures
      var arriving, queued := S.SrcOctets(SetMerged(body[..HEADER]), news, r), body + EncTail(r);
      Good(arriving) && Good(queued) && DecideAny(arriving, queued) == Refused(body) && !Good(body)
  {
    var header, own := SetMerged(body[..HEADER]), OwnSub(body);
    var arriving, queued := S.SrcOctets(header, news, r), body + EncTail(r);
    EightIsGood(header, news, r);
    UnmergedIsGood(body, r);
    AreEightOthers(body[TYPE], news, own, r);
    EightAreTooMany(arriving, queued, S.Src(body[TYPE], true, news, r), S.Src(body[TYPE], false, [own], r));
    assert queued[..|body|] == body;
  }

  // ---- The queue.

  /** The decision as a treatment for PacketQueue; it is only ever asked about well-formed packets. */
  function Treat(arriving: seq<byte>, queued: seq<byte>): Outcome {
    if Good(arriving) && Good(queued) then DecideAny(arriving, queued) else Skip
  }

  predicate AllOf(q: seq<Slot>, good: seq<byte> -> bool) {
    forall j {:trigger q[j]} :: 0 <= j < |q| ==> good(q[j].octets)
  }

  /** The first entry from i on that is not skipped is at risk. */
  predicate AtRiskFrom(q: seq<Slot>, i: nat, arriving: seq<byte>, f: Treatment, risk: (seq<byte>, seq<byte>) -> bool)
    requires i <= |q|
    decreases |q| - i
  {
    i < |q| &&
    if f(arriving, q[i].octets) == Skip then AtRiskFrom(q, i + 1, arriving, f, risk) else risk(arriving, q[i].octets)
  }

  lemma {:induction false} OneRewritten(q: seq<Slot>, i: nat, s: Slot, good: seq<byte> -> bool)
    requires i < |q| && AllOf(q, good)
    ensures AllOf(q[i := s], good) <==> good(s.octets)
  {
    var r := q[i := s];
    assert r[i] == s;
    if good(s.octets) {
      forall j | 0 <= j < |r|
        ensures good(r[j].octets)
      {
        assert j != i ==> r[j] == q[j];
      }
    }
  }

  /** What holds of a single treatment holds of the queue. */
  lemma {:induction false} TreatedStays(q: seq<Slot>, i: nat, s: Slot, f: Treatment, good: seq<byte> -> bool,
                                        risk: (seq<byte>, seq<byte>) -> bool)
    requires i <= |q| && good(s.octets) && AllOf(q, good)
    requires forall b :: good(b) ==> (Stays(f(s.octets, b), good) <==> !risk(s.octets, b))
    ensures AllOf(Treated(q, i, s, f).0, good) <==> !AtRiskFrom(q, i, s.octets, f, risk)
    decreases |q| - i
  {
    if i < |q| {
      assert good(q[i].octets);
      match f(s.octets, q[i].octets)
      case Skip => TreatedStays(q, i + 1, s, f, good, risk);
      case Replace => OneRewritten(q, i, s, good);
      case Absorbed(o) => OneRewritten(q, i, q[i].(octets := o), good);
      case Refused(o) => OneRewritten(q, i, q[i].(octets := o), good);
    }
  }

  /** A queue of well-formed packets stays one exactly if the arrival's treatment loses no tail. */
  lemma {:induction false} QueueStaysGoodIff(q: seq<Slot>, i: nat, s: Slot)
    requires i <= |q| && Good(s.octets) && AllOf(q, Good)
    ensures AllOf(Treated(q, i, s, Treat).0, Good) <==> !AtRiskFrom(q, i, s.octets, Treat, TailAtRisk)
  {
    forall b | Good(b)
      ensures Stays(Treat(s.octets, b), Good) <==> !TailAtRisk(s.octets, b)
    {
      DecisionKeepsGoodIff(s.octets, b);
    }
    TreatedStays(q, i, s, Treat, Good, TailAtRisk);
  }
}
