// The decision for one queued packet when a source-routed one arrives: only
// packets with the same tail are compared, and the tail survives deletion and merge.
module SourceTreatment {
  import opened Common
  import opened PacketBytes
  import opened Subpackets
  import opened SourceTail
  import Supersede

  /** All source-routed types are compared in two octets: address, flow id, or type and number. */
  const COMPARE_SIZE: nat := 2

  /** What a source-routed packet holds. */
  datatype Src = Src(ptype: byte, merged: bool, subs: seq<Sub>, route: Route)

  predicate IsSrc(b: seq<byte>, x: Src) {
    && SrcCarries(b, x.subs, x.route) && b[TYPE] == x.ptype && IsMerged(b) == x.merged
    && |x.subs| <= SDN_MAX_SUBPACKETS && Supersede.Comparable(COMPARE_SIZE, x.subs)
  }

  datatype SrcOutcome = Skip | Replace | Absorbed(subs: seq<Sub>) | NoRoom(subs: seq<Sub>) | TailLost(subs: seq<Sub>)

  function BodyLen(x: Src): nat {
    if x.merged then HEADER + 1 + |EncSubs(x.subs)| else BodySize(x.ptype)
  }

  function TailLen(r: Route): nat {
    3 + 2 * |r.path|
  }

  /** sdn_queue_combine_src_packets as a decision. */
  function MergeInto(a: Src, q: Src): SrcOutcome {
    if BodyLen(a) + BodyLen(q) > SDN_MAX_PACKET_SIZE - TailLen(q.route) then NoRoom(q.subs)
    else if |a.subs| + |q.subs| > SDN_MAX_SUBPACKETS then TailLost(q.subs)
    else Absorbed(q.subs + a.subs)
  }

  /** The queued sub-packets that are left when a arrives. */
  function Left(a: Src, q: Src): seq<Sub> {
    var d := Supersede.AllHits(a.merged, COMPARE_SIZE, a.subs, q.subs);
    Supersede.AllDeleted(q.subs, Supersede.Capped(d, |q.subs|))
  }

  /** The source-routed branches of sdn_queue_determine_pckt_action, and the merge it may lead to. */
  function DecideSrc(a: Src, q: Src): SrcOutcome
    requires q.subs != [] || q.merged
  {
    if a.ptype != q.ptype || a.route != q.route then Skip else DecideSameTail(a, q)
  }

  /** The decision for a packet with the same type and tail. */
  function DecideSameTail(a: Src, q: Src): SrcOutcome
    requires q.subs != [] || q.merged
  {
    if q.merged then MergeInto(a, q.(subs := Left(a, q)))
    else match Supersede.Verdict(COMPARE_SIZE, a.subs, q.subs[0])
      case Replace => Replace
      case NoAction => Skip
      case Merge => MergeInto(a, q)
  }

  // ---- Unmerged packets are compared with their tail still on.

  /** The sub-packets as the comparison sees them. */
  function Compared(b: seq<byte>, x: Src): seq<Sub>
    requires IsSrc(b, x)
  {
    if x.merged then x.subs else [OwnSub(b)]
  }

  /** Two sub-packets that agree in source and in the octets that are compared. */
  predicate SameKey(s: Sub, t: Sub) {
    s.source == t.source && COMPARE_SIZE <= |s.payload| && COMPARE_SIZE <= |t.payload|
    && s.payload[..COMPARE_SIZE] == t.payload[..COMPARE_SIZE]
  }

  lemma {:induction false} ComparedKeys(b: seq<byte>, x: Src)
    requires IsSrc(b, x)
    ensures |Compared(b, x)| == |x.subs|
    ensures forall i :: 0 <= i < |x.subs| ==> SameKey(Compared(b, x)[i], x.subs[i])
    ensures Supersede.Comparable(COMPARE_SIZE, Compared(b, x))
  {
    forall i | 0 <= i < |x.subs|
      ensures COMPARE_SIZE <= |x.subs[i].payload|
    {
      assert x.subs[i] in x.subs;
    }
    if !x.merged {
      var body := b[..|b| - |EncTail(x.route)|];
      assert x.subs == [OwnSub(body)];
      assert body[HEADER..] == b[HEADER..|body|];
      assert b[HEADER..][..COMPARE_SIZE] == body[HEADER..][..COMPARE_SIZE];
    }
  }

  lemma {:induction false} HitByKey(bothMerged: bool, n: Sub, n': Sub, o: Sub, o': Sub)
    requires SameKey(n, n') && SameKey(o, o')
    ensures Supersede.Matches(COMPARE_SIZE, n.payload, o.payload) == Supersede.Matches(COMPARE_SIZE, n'.payload, o'.payload)
    ensures Supersede.Hit(bothMerged, COMPARE_SIZE, n, o) == Supersede.Hit(bothMerged, COMPARE_SIZE, n', o')
  {
  }

  lemma {:induction false} HitsByKey(bothMerged: bool, n: Sub, n': Sub, olds: seq<Sub>)
    requires SameKey(n, n') && Supersede.Comparable(COMPARE_SIZE, olds)
    ensures Supersede.Hits(bothMerged, COMPARE_SIZE, n, olds) == Supersede.Hits(bothMerged, COMPARE_SIZE, n', olds)
  {
    if olds != [] {
      assert Last(olds) in olds;
      HitByKey(bothMerged, n, n', Last(olds), Last(olds));
      HitsByKey(bothMerged, n, n', olds[..|olds| - 1]);
    }
  }

  lemma {:induction false} AllHitsByKey(bothMerged: bool, news: seq<Sub>, news': seq<Sub>, olds: seq<Sub>)
    requires |news| == |news'| && (forall i :: 0 <= i < |news| ==> SameKey(news[i], news'[i]))
    requires Supersede.Comparable(COMPARE_SIZE, olds)
    ensures Supersede.AllHits(bothMerged, COMPARE_SIZE, news, olds) == Supersede.AllHits(bothMerged, COMPARE_SIZE, news', olds)
  {
    if news != [] {
      AllHitsByKey(bothMerged, news[..|news| - 1], news'[..|news'| - 1], olds);
      HitsByKey(bothMerged, Last(news), Last(news'), olds);
    }
  }

  lemma {:induction false} VerdictByKey(news: seq<Sub>, news': seq<Sub>, o: Sub, o': Sub)
    requires |news| == |news'| && (forall i :: 0 <= i < |news| ==> SameKey(news[i], news'[i])) && SameKey(o, o')
    ensures Supersede.Verdict(COMPARE_SIZE, news, o) == Supersede.Verdict(COMPARE_SIZE, news', o')
  {
    if news != [] {
      HitByKey(false, news[0], news'[0], o, o');
      VerdictByKey(news[1..], news'[1..], o, o');
    }
  }

  // ---- The tails.

  lemma {:induction false} EncAddrsInjective(s: seq<Addr>, t: seq<Addr>)
    requires |s| == |t|
    ensures EncAddrs(s) == EncAddrs(t) <==> s == t
  {
    if s != [] && EncAddrs(s) == EncAddrs(t) {
      var n, a, b := |s| - 1, EncAddrs(s), EncAddrs(t);
      assert a[..2 * n] == EncAddrs(s[..n]) && b[..2 * n] == EncAddrs(t[..n]);
      assert a[2 * n..] == EncAddr(Last(s)) && b[2 * n..] == EncAddr(Last(t));
      assert EncAddr(Last(s))[0] == EncAddr(Last(t))[0] && EncAddr(Last(s))[1] == EncAddr(Last(t))[1];
      EncAddrsInjective(s[..n], t[..n]);
      assert s == s[..n] + [Last(s)] && t == t[..n] + [Last(t)];
    }
  }

  /** sdn_compare_src_rtd_tails */
  method CompareTails(p1: seq<byte>, p2: seq<byte>, ghost s1: seq<Sub>, ghost r1: Route, ghost s2: seq<Sub>, ghost r2: Route)
    returns (same: bool)
    requires SrcCarries(p1, s1, r1) && SrcCarries(p2, s2, r2)
    ensures same <==> r1 == r2
  {
    var realDest1, pathLen1, path1 := SrcRoutingInfo(p1, s1, r1);
    var realDest2, pathLen2, path2 := SrcRoutingInfo(p2, s2, r2);
    if |r1.path| == |r2.path| {
      EncAddrsInjective(r1.path, r2.path);
    }
    same := pathLen1 == pathLen2 && realDest1 == realDest2 && p1[path1..] == p2[path2..];
  }

  // ---- In place.

  /** What the code reports. */
  predicate Reports(outcome: SrcOutcome, code: Supersede.Action, done: bool) {
    match outcome
    case Skip => code == Supersede.NoAction
    case Replace => code == Supersede.Replace
    case Absorbed(_) => code == Supersede.Merge && done
    case _ => code == Supersede.Merge && !done
  }

  /** The octets of a merged source-routed packet. */
  function SrcOctets(header: seq<byte>, subs: seq<Sub>, r: Route): seq<byte>
    requires |header| == HEADER && |subs| < 256 && |r.path| < 256
  {
    Container(header, subs) + EncTail(r)
  }

  /** There is room for what q is left with, and for its tail. */
  predicate Encodable(outcome: SrcOutcome, q: Src) {
    && |q.route.path| < 256
    && match outcome
       case Absorbed(subs) => |subs| < 256
       case NoRoom(subs) => |subs| < 256
       case TailLost(subs) => |subs| < 256
       case _ => true
  }

  /** The octets that are left, from those there were before. */
  function LeftOctets(outcome: SrcOutcome, q: Src, before: seq<byte>): seq<byte>
    requires Encodable(outcome, q) && |before| >= HEADER && |before| >= BodyLen(q)
  {
    match outcome
    case Skip => before
    case Replace => before
    case Absorbed(subs) => SrcOctets(SetMerged(before[..HEADER]), subs, q.route)
    case NoRoom(subs) => if q.merged then SrcOctets(before[..HEADER], subs, q.route) else before
    case TailLost(subs) => if q.merged then Container(before[..HEADER], subs) else before[..BodyLen(q)]
  }

  /** A merged source-routed packet is given by its header and by what it holds. */
  lemma {:induction false} MergedIsOctets(b: seq<byte>, x: Src)
    requires IsSrc(b, x) && x.merged
    ensures b == SrcOctets(b[..HEADER], x.subs, x.route)
  {
    var n := |b| - |EncTail(x.route)|;
    assert b == b[..n] + b[n..];
    assert b[..n][..HEADER] == b[..HEADER];
  }

  lemma {:induction false} Begins(b: seq<byte>, x: Src)
    requires IsSrc(b, x)
    ensures Supersede.BeginsWith(b, Compared(b, x))
    ensures x.merged ==> Supersede.IsContainer(b, b[..HEADER], x.subs, EncTail(x.route))
    ensures |b| == BodyLen(x) + TailLen(x.route)
    ensures x.merged || |x.subs| == 1
  {
    if x.merged {
      TailBehindSubs(b, x.subs, x.route);
      var n := |b| - |EncTail(x.route)|;
      assert b == b[..n] + b[n..];
      assert b[..n][..HEADER] == b[..HEADER];
      Supersede.ContainerBegins(b, b[..HEADER], x.subs, EncTail(x.route));
    }
  }

  /** A container with its tail is a source-routed packet. */
  lemma {:induction false} ContainerIsSrc(b: seq<byte>, header: seq<byte>, subs: seq<Sub>, q: Src)
    requires |header| == HEADER && IsMerged(header) && header[TYPE] == q.ptype && q.ptype in SRC_ROUTED_TYPES && q.merged
    requires |q.route.path| < 256 && |b| <= REACH && Supersede.IsContainer(b, header, subs, EncTail(q.route))
    requires |subs| <= SDN_MAX_SUBPACKETS && Supersede.Comparable(COMPARE_SIZE, subs)
    ensures IsSrc(b, q.(subs := subs))
  {
    var n := |Container(header, subs)|;
    assert b[..n] == Container(header, subs) && b[n..] == EncTail(q.route);
    assert b[..n][..HEADER] == header;
    assert b[TYPE] == header[TYPE] && b[RESERVED] == header[RESERVED];
  }

  /** Deletes from the queued packet what is superseded; q' is what it holds afterwards. */
  method CompareSrc(p1: seq<byte>, p2: array<byte>, p2Len: byte, ghost a: Src, ghost q: Src, ghost before: seq<byte>)
    returns (code: Supersede.Action, len: nat, ghost q': Src, ghost mid: seq<byte>)
    requires p2.Length == REACH && p2Len <= p2.Length && IsSrc(p1, a) && IsSrc(before, q) && before == p2[..p2Len]
    modifies p2
    ensures len <= p2Len && mid == p2[..len] && IsSrc(mid, q') && (q.subs != [] || q.merged)
    ensures q' == (if q.merged then q.(subs := Left(a, q)) else q)
    ensures code == if q.merged then Supersede.Merge else Supersede.Verdict(COMPARE_SIZE, a.subs, q.subs[0])
    ensures mid == if q.merged then SrcOctets(before[..HEADER], q'.subs, q'.route) else before
  {
    ghost var news, olds := Compared(p1, a), Compared(before, q);
    Begins(p1, a);
    Begins(before, q);
    ComparedKeys(p1, a);
    ComparedKeys(before, q);
    assert p2[..HEADER] == before[..HEADER];
    code, len := Supersede.ComparePackets(p1, p2, p2Len, COMPARE_SIZE, news, olds, EncTail(q.route));
    q', mid := q, p2[..len];
    if q.merged {
      AllHitsByKey(a.merged, news, a.subs, q.subs);
      Supersede.DeletedIsPart(q.subs, Supersede.Capped(Supersede.AllHits(a.merged, COMPARE_SIZE, a.subs, q.subs), |q.subs|));
      q' := q.(subs := Left(a, q));
      ContainerIsSrc(mid, before[..HEADER], q'.subs, q);
    } else {
      VerdictByKey(news, a.subs, olds[0], q.subs[0]);
    }
  }

  /** CombineSrcPackets, with its result as an outcome. */
  method CombineSrc(p1: array<byte>, p1Len: byte, p2: array<byte>, p2Len: byte, ghost a: Src, ghost q: Src, ghost before: seq<byte>)
    returns (done: bool, newLen: nat)
    requires p1 != p2 && p1.Length == p2.Length == REACH && p1Len <= p1.Length && p2Len <= p2.Length
    requires IsSrc(p1[..p1Len], a) && IsSrc(before, q) && before == p2[..p2Len]
    modifies p2
    ensures newLen <= p2.Length && Reports(MergeInto(a, q), Supersede.Merge, done)
    ensures Encodable(MergeInto(a, q), q) && BodyLen(q) <= |before| && p2[..newLen] == LeftOctets(MergeInto(a, q), q, before)
  {
    ghost var was := p2[..];
    done, newLen := CombineSrcPackets(p1, p1Len, p2, p2Len, a.subs, a.route, q.subs, q.route);
    Begins(p1[..p1Len], a);
    Begins(before, q);
    assert before == was[..p2Len];
    if done {
      AbsorbedOctets(was, p2[..], p2Len, newLen, q.subs + a.subs, q);
    } else {
      RefusedOctets(was, p2Len, q);
    }
  }

  lemma {:induction false} AbsorbedOctets(was: seq<byte>, now: seq<byte>, len: nat, newLen: nat, subs: seq<Sub>, q: Src)
    requires HEADER <= len <= |was| && HEADER <= newLen <= |now| && |subs| < 256
    requires SrcCarries(now[..newLen], subs, q.route) && IsMerged(now) && now[..HEADER] == SetMerged(was[..HEADER])
    ensures now[..newLen] == SrcOctets(SetMerged(was[..len][..HEADER]), subs, q.route)
  {
    var b := now[..newLen];
    var n := |b| - |EncTail(q.route)|;
    assert b == b[..n] + b[n..];
    assert b[..n][..HEADER] == now[..HEADER] && was[..len][..HEADER] == was[..HEADER];
    assert b[..n][RESERVED] == now[RESERVED];
  }

  lemma {:induction false} RefusedOctets(b: seq<byte>, len: nat, q: Src)
    requires HEADER <= len <= |b| && IsSrc(b[..len], q)
    ensures len == BodyLen(q) + TailLen(q.route)
    ensures b[..BodyLen(q)] == if q.merged then Container(b[..len][..HEADER], q.subs) else b[..len][..BodyLen(q)]
    ensures q.merged ==> b[..len] == SrcOctets(b[..len][..HEADER], q.subs, q.route)
  {
    Begins(b[..len], q);
    if q.merged {
      MergedIsOctets(b[..len], q);
      assert b[..BodyLen(q)] == b[..len][..BodyLen(q)];
    }
  }

  /** Treats one queued packet in place when a source-routed packet arrives. */
  method TreatSrcSlot(p1: array<byte>, p1Len: byte, p2: array<byte>, p2Len: byte, ghost a: Src, ghost q: Src, ghost before: seq<byte>)
    returns (code: Supersede.Action, done: bool, newLen: nat)
    requires p1 != p2 && p1.Length == p2.Length == REACH && p1Len <= p1.Length && p2Len <= p2.Length
    requires IsSrc(p1[..p1Len], a) && IsSrc(before, q) && before == p2[..p2Len]
    modifies p2
    ensures newLen <= p2.Length && (q.subs != [] || q.merged) && Reports(DecideSrc(a, q), code, done)
    ensures Encodable(DecideSrc(a, q), q) && BodyLen(q) <= |before| && p2[..newLen] == LeftOctets(DecideSrc(a, q), q, before)
  {
    code, done, newLen := Supersede.NoAction, false, p2Len;
    Begins(before, q);
    if p1[..p1Len][TYPE] != p2[..p2Len][TYPE] {
      return;
    }
    var sameTails := CompareTails(p1[..p1Len], p2[..p2Len], a.subs, a.route, q.subs, q.route);
    if !sameTails {
      return;
    }
    var dest1 := RealDest(p1[..p1Len], a.subs, a.route);
    var dest2 := RealDest(p2[..p2Len], q.subs, q.route);
    if dest1 != dest2 {
      return;
    }
    code, done, newLen := CompareAndCombineSrc(p1, p1Len, p2, p2Len, a, q, before);
  }

  /** What DecideSrc says for packets with the same tail, in place. */
  method CompareAndCombineSrc(p1: array<byte>, p1Len: byte, p2: array<byte>, p2Len: byte, ghost a: Src, ghost q: Src,
                              ghost before: seq<byte>)
    returns (code: Supersede.Action, done: bool, newLen: nat)
    requires p1 != p2 && p1.Length == p2.Length == REACH && p1Len <= p1.Length && p2Len <= p2.Length
    requires IsSrc(p1[..p1Len], a) && IsSrc(before, q) && before == p2[..p2Len] && (q.subs != [] || q.merged)
    modifies p2
    ensures newLen <= p2.Length && Reports(DecideSameTail(a, q), code, done)
    ensures Encodable(DecideSameTail(a, q), q) && BodyLen(q) <= |before|
    ensures p2[..newLen] == LeftOctets(DecideSameTail(a, q), q, before)
  {
    var len;
    ghost var q', mid;
    code, len, q', mid := CompareSrc(p1[..p1Len], p2, p2Len, a, q, before);
    done, newLen := false, len;
    SameTailIs(a, q, q', code);
    BodyFits(before, q);
    if code == Supersede.Merge {
      ghost var outcome := MergeInto(a, q');
      done, newLen := CombineSrc(p1, p1Len, p2, len, a, q', mid);
      SameLeft(outcome, q, q', before, mid);
    }
  }

  lemma {:induction false} BodyFits(b: seq<byte>, q: Src)
    requires IsSrc(b, q)
    ensures HEADER <= BodyLen(q) <= |b| && |q.route.path| < 256
  {
    Begins(b, q);
  }

  /** The decision, from the answer of the comparison. */
  lemma {:induction false} SameTailIs(a: Src, q: Src, q': Src, code: Supersede.Action)
    requires (q.subs != [] || q.merged) && q' == if q.merged then q.(subs := Left(a, q)) else q
    requires code == if q.merged then Supersede.Merge else Supersede.Verdict(COMPARE_SIZE, a.subs, q.subs[0])
    ensures DecideSameTail(a, q) ==
            match code
            case Merge => MergeInto(a, q')
            case Replace => Replace
            case NoAction => Skip
  {
  }

  /** What is left of the queued packet after the deletions has its header and its tail. */
  lemma {:induction false} SameLeft(outcome: SrcOutcome, q: Src, q': Src, before: seq<byte>, mid: seq<byte>)
    requires |before| >= HEADER && |before| >= BodyLen(q) && |mid| >= HEADER && |mid| >= BodyLen(q')
    requires Encodable(outcome, q') && q' == q.(subs := q'.subs) && |q'.subs| < 256
    requires mid == (if q.merged then SrcOctets(before[..HEADER], q'.subs, q'.route) else before) && (!q.merged ==> q' == q)
    requires !outcome.Skip? && !outcome.Replace? && (outcome.Absorbed? || outcome.subs == q'.subs)
    ensures LeftOctets(outcome, q', mid) == LeftOctets(outcome, q, before)
  {
    if q.merged {
      assert mid[..HEADER] == before[..HEADER];
    }
  }
}
