// A packet arriving at a queue supersedes the queued sub-packets it matches:
// they are deleted in place before the arriving packet is merged.
module Supersede {
  import opened Common
  import opened PacketBytes
  import opened Subpackets

  datatype Action = NoAction | Replace | Merge

  /** b begins with these sub-packets; a source-routed packet goes on behind them. */
  predicate BeginsWith(b: seq<byte>, subs: seq<Sub>) {
    && HEADER <= |b| <= REACH
    && if IsMerged(b) then
         && |subs| < 256 && HEADER + 1 + |EncSubs(subs)| <= |b|
         && b[HEADER] == |subs| && b[HEADER + 1..HEADER + 1 + |EncSubs(subs)|] == EncSubs(subs)
       else subs == [OwnSub(b)]
  }

  /** Where the cursor stands before sub-packet i. */
  function Cursor(b: seq<byte>, subs: seq<Sub>, i: nat): nat
    requires BeginsWith(b, subs) && i <= |subs|
  {
    if IsMerged(b) then Start(subs, i) else if i == 0 then HEADER else |b|
  }

  /** Two payloads agree in the octets that identify the request; size 0 compares all they have in common. */
  predicate Matches(size: nat, p: seq<byte>, q: seq<byte>) {
    var n := if size == 0 then if |p| < |q| then |p| else |q| else size;
    n <= |p| && n <= |q| && p[..n] == q[..n]
  }

  lemma {:induction false} MatchesIs(size: nat, p: seq<byte>, q: seq<byte>)
    ensures size == 0 ==> (Matches(size, p, q) <==> p <= q || q <= p)
    ensures size > 0 ==> (Matches(size, p, q) <==> size <= |p| && size <= |q| && p[..size] == q[..size])
  {
    if |p| < |q| {
      assert Matches(0, p, q) <==> p == q[..|p|];
    } else {
      assert Matches(0, p, q) <==> p[..|q|] == q;
    }
  }

  /** Whether old sub-packet o is recorded for new sub-packet n. */
  predicate Hit(bothMerged: bool, size: nat, n: Sub, o: Sub) {
    !(bothMerged && n.source == o.source) && Matches(size, n.payload, o.payload)
  }

  /** The numbers, from 1, of the old sub-packets recorded for one new one. */
  function Hits(bothMerged: bool, size: nat, n: Sub, olds: seq<Sub>): (d: seq<nat>)
    ensures |d| <= |olds|
  {
    if olds == [] then []
    else
      Hits(bothMerged, size, n, olds[..|olds| - 1]) + if Hit(bothMerged, size, n, Last(olds)) then [|olds|] else []
  }

  /** The numbers recorded for all new sub-packets, one after the other. */
  function AllHits(bothMerged: bool, size: nat, news: seq<Sub>, olds: seq<Sub>): seq<nat> {
    if news == [] then [] else AllHits(bothMerged, size, news[..|news| - 1], olds) + Hits(bothMerged, size, Last(news), olds)
  }

  /** Reads the sub-packet at the cursor. */
  method NextSub(b: seq<byte>, offset: nat, ghost subs: seq<Sub>, ghost i: nat) returns (source: Addr, at: nat, len: byte)
    requires BeginsWith(b, subs) && i < |subs| && offset == Cursor(b, subs, i)
    ensures source == subs[i].source && at + len == Cursor(b, subs, i + 1) <= |b| && b[at..at + len] == subs[i].payload
  {
    at := offset;
    if IsMerged(b) {
      SubAt(b, subs, i);
      SubRead(b, at, subs[i]);
      at := at + 1;
      source := AddrAt(b, at);
      at := at + 2;
      len := b[at];
      at := at + 1;
    } else {
      source := AddrAt(b, SOURCE);
      len := |b| - HEADER;
    }
  }

  /** Every sub-packet has the octets that are compared. */
  predicate Comparable(size: nat, subs: seq<Sub>) {
    forall s :: s in subs ==> size <= |s.payload|
  }

  /** The first min(cap, |d|) numbers: the table of recorded numbers has one place per old sub-packet. */
  function Capped(d: seq<nat>, cap: nat): seq<nat> {
    if |d| <= cap then d else d[..cap]
  }

  /** Compares two sub-packets; sdnaddr_cmp gives 0 for equal addresses, so same_src holds when they differ. */
  method Compare(n: Sub, bothMerged: bool, size: nat, oldSource: Addr, oldPayload: seq<byte>, ghost o: Sub) returns (hit: bool)
    requires o.source == oldSource && o.payload == oldPayload && size <= |n.payload| && size <= |oldPayload|
    ensures hit == Hit(bothMerged, size, n, o)
    ensures size > 0 ==> (hit <==> n.payload[..size] == oldPayload[..size] && (bothMerged ==> n.source != oldSource))
    ensures size == 0 ==> (hit <==> (n.payload <= oldPayload || oldPayload <= n.payload) && (bothMerged ==> n.source != oldSource))
  {
    var sameSrc := n.source != oldSource;
    if bothMerged && !sameSrc {
      return false;
    }
    var cmpLen := if size == 0 then if |n.payload| < |oldPayload| then |n.payload| else |oldPayload| else size;
    hit := n.payload[..cmpLen] == oldPayload[..cmpLen];
  }

  lemma {:induction false} HitsMore(bothMerged: bool, size: nat, n: Sub, olds: seq<Sub>, j: nat, sofar: seq<nat>)
    requires j < |olds|
    ensures
      var d := sofar + Hits(bothMerged, size, n, olds[..j]);
      sofar + Hits(bothMerged, size, n, olds[..j + 1]) == if Hit(bothMerged, size, n, olds[j]) then d + [j + 1] else d
  {
    assert olds[..j + 1][..j] == olds[..j];
  }

  /** One turn of the inner loop: old sub-packet j, which the cursor points to. */
  method OldTurn(n: Sub, bothMerged: bool, size: nat, oldB: seq<byte>, offset: nat, j: nat, table: seq<nat>,
                 ghost olds: seq<Sub>, ghost sofar: seq<nat>)
    returns (table': seq<nat>, offset': nat)
    requires BeginsWith(oldB, olds) && IsMerged(oldB) && Comparable(size, olds) && size <= |n.payload|
    requires j < |olds| && offset == Cursor(oldB, olds, j)
    requires table == Capped(sofar + Hits(bothMerged, size, n, olds[..j]), |olds|)
    ensures table' == Capped(sofar + Hits(bothMerged, size, n, olds[..j + 1]), |olds|)
    ensures offset' == Cursor(oldB, olds, j + 1)
  {
    var oldSource, at, len := NextSub(oldB, offset, olds, j);
    assert olds[j] in olds;
    HitsMore(bothMerged, size, n, olds, j, sofar);
    table', offset' := table, at + len;
    var hit := Compare(n, bothMerged, size, oldSource, oldB[at..at + len], olds[j]);
    if hit && |table| < oldB[HEADER] {
      table' := table + [j + 1];
    }
  }

  /** One new sub-packet against every old one of a container; the table is extended. */
  method CompareOne(n: Sub, bothMerged: bool, size: nat, oldB: seq<byte>, table: seq<nat>, ghost olds: seq<Sub>, ghost sofar: seq<nat>)
    returns (table': seq<nat>)
    requires BeginsWith(oldB, olds) && IsMerged(oldB) && Comparable(size, olds) && size <= |n.payload|
    requires table == Capped(sofar, |olds|)
    ensures table' == Capped(sofar + Hits(bothMerged, size, n, olds), |olds|)
  {
    table' := table;
    var offset, oldSubs: nat := HEADER + 1, oldB[HEADER];
    assert olds[..0] == [] && olds[..oldSubs] == olds && sofar + [] == sofar;
    for j := 0 to oldSubs
      invariant offset == Cursor(oldB, olds, j)
      invariant table' == Capped(sofar + Hits(bothMerged, size, n, olds[..j]), |olds|)
    {
      table', offset := OldTurn(n, bothMerged, size, oldB, offset, j, table', olds, sofar);
    }
  }

  /** What happens to an unmerged entry: the first new sub-packet that matches it decides. */
  function Verdict(size: nat, news: seq<Sub>, o: Sub): Action {
    if news == [] then Merge
    else if Matches(size, news[0].payload, o.payload) then if news[0].source != o.source then Replace else NoAction
    else Verdict(size, news[1..], o)
  }

  /**
   * The first match replaces the entry if it comes from another node, and leaves both as they are if not;
   * without one they are merged.
   */
  lemma {:induction false} VerdictIs(size: nat, news: seq<Sub>, o: Sub, k: nat)
    requires k <= |news| && forall j :: 0 <= j < k ==> !Matches(size, news[j].payload, o.payload)
    ensures k == |news| ==> Verdict(size, news, o) == Merge
    ensures k < |news| && Matches(size, news[k].payload, o.payload) ==>
              Verdict(size, news, o) == if news[k].source == o.source then NoAction else Replace
    decreases k
  {
    if k > 0 {
      var rest, m := news[1..], k - 1;
      assert forall j :: 0 <= j < m ==> rest[j] == news[j + 1];
      VerdictIs(size, rest, o, m);
      assert m < |rest| ==> rest[m] == news[k];
    }
  }

  /** The comparing half of sdn_queue_compare_packets. */
  method Scan(newB: seq<byte>, oldB: seq<byte>, size: nat, ghost news: seq<Sub>, ghost olds: seq<Sub>)
    returns (action: Action, table: seq<nat>)
    requires BeginsWith(newB, news) && BeginsWith(oldB, olds) && Comparable(size, news) && Comparable(size, olds)
    ensures IsMerged(oldB) ==> action == Merge && table == Capped(AllHits(IsMerged(newB), size, news, olds), |olds|)
    ensures !IsMerged(oldB) ==> action == Verdict(size, news, olds[0])
  {
    if IsMerged(oldB) {
      table := ScanMerged(newB, oldB, size, news, olds);
      action := Merge;
    } else {
      action := ScanSingle(newB, oldB, size, news, olds[0]);
      table := [];
    }
  }

  /** The outer loop against a container. */
  method ScanMerged(newB: seq<byte>, oldB: seq<byte>, size: nat, ghost news: seq<Sub>, ghost olds: seq<Sub>)
    returns (table: seq<nat>)
    requires BeginsWith(newB, news) && BeginsWith(oldB, olds) && Comparable(size, news) && Comparable(size, olds) && IsMerged(oldB)
    ensures table == Capped(AllHits(IsMerged(newB), size, news, olds), |olds|)
  {
    table := [];
    var newSubs: nat := if IsMerged(newB) then newB[HEADER] else 1;
    var offset: nat := if IsMerged(newB) then HEADER + 1 else HEADER;
    ghost var sofar := [];
    assert news[..0] == [] && news[..newSubs] == news;
    for i := 0 to newSubs
      invariant offset == Cursor(newB, news, i)
      invariant sofar == AllHits(IsMerged(newB), size, news[..i], olds) && table == Capped(sofar, |olds|)
    {
      var source, at, len := NextSub(newB, offset, news, i);
      assert news[i] in news && news[..i + 1][..i] == news[..i];
      var n := Sub(0, source, newB[at..at + len]);
      SameHits(IsMerged(newB), size, n, news[i], olds);
      table := CompareOne(n, IsMerged(newB), size, oldB, table, olds, sofar);
      sofar := sofar + Hits(IsMerged(newB), size, n, olds);
      offset := at + len;
    }
  }

  /** Sequence numbers play no part in the comparison. */
  lemma {:induction false} SameHits(bothMerged: bool, size: nat, n: Sub, m: Sub, olds: seq<Sub>)
    requires n.source == m.source && n.payload == m.payload
    ensures Hits(bothMerged, size, n, olds) == Hits(bothMerged, size, m, olds)
  {
    if olds != [] {
      SameHits(bothMerged, size, n, m, olds[..|olds| - 1]);
    }
  }

  /** The outer loop against an unmerged entry: it returns at the first match. */
  method ScanSingle(newB: seq<byte>, oldB: seq<byte>, size: nat, ghost news: seq<Sub>, ghost o: Sub) returns (action: Action)
    requires BeginsWith(newB, news) && BeginsWith(oldB, [o]) && Comparable(size, news) && size <= |o.payload| && !IsMerged(oldB)
    ensures action == Verdict(size, news, o)
  {
    var newSubs: nat := if IsMerged(newB) then newB[HEADER] else 1;
    var offset: nat := if IsMerged(newB) then HEADER + 1 else HEADER;
    for i := 0 to newSubs
      invariant offset == Cursor(newB, news, i)
      invariant Verdict(size, news[i..], o) == Verdict(size, news, o)
    {
      var source, at, len := NextSub(newB, offset, news, i);
      assert news[i] in news && news[i..][1..] == news[i + 1..];
      var hit := Compare(Sub(0, source, newB[at..at + len]), false, size, AddrAt(oldB, SOURCE), oldB[HEADER..], o);
      if hit {
        var sameSrc := source != AddrAt(oldB, SOURCE);
        return if sameSrc then Replace else NoAction;
      }
      offset := at + len;
    }
    return Merge;
  }

  /** Deleting by number; a number that is out of range deletes nothing. */
  function Deleted<T>(s: seq<T>, number: nat): seq<T> {
    if 1 <= number <= |s| then s[..number - 1] + s[number..] else s
  }

  /** Deleting the recorded numbers from the last to the first. */
  function AllDeleted<T>(s: seq<T>, d: seq<nat>): seq<T>
    decreases |d|
  {
    if d == [] then s else AllDeleted(Deleted(s, Last(d)), d[..|d| - 1])
  }

  /** Nothing new appears. */
  lemma {:induction false} DeletedIsPart(subs: seq<Sub>, d: seq<nat>)
    ensures |AllDeleted(subs, d)| <= |subs|
    ensures forall s :: s in AllDeleted(subs, d) ==> s in subs
    decreases |d|
  {
    if d != [] {
      DeletedIsPart(Deleted(subs, Last(d)), d[..|d| - 1]);
    }
  }

  /** A container with a tail behind it. */
  predicate IsContainer(b: seq<byte>, header: seq<byte>, subs: seq<Sub>, tail: seq<byte>) {
    |header| == HEADER && |subs| < 256 && b == Container(header, subs) + tail
  }

  /** sdn_queue_delete_subpacket: what is behind the sub-packet moves up over it. */
  method DeleteSubpacket(p: array<byte>, len: nat, number: nat, ghost header: seq<byte>, ghost subs: seq<Sub>, ghost tail: seq<byte>)
    returns (newLen: nat, ghost rest: seq<Sub>)
    requires len <= p.Length <= REACH && IsContainer(p[..len], header, subs, tail)
    modifies p
    ensures rest == Deleted(subs, number)
    ensures newLen <= len && IsContainer(p[..newLen], header, rest, tail)
    ensures p[len..] == old(p[len..])
  {
    ContainerLayout(p[..len], header, subs, tail);
    var num := p[..len][HEADER];
    rest := Deleted(subs, number);
    if number < 1 || number > num {
      return len, rest;
    }
    newLen := RemoveSub(p, len, number - 1, header, subs, tail);
  }

  lemma {:induction false} ContainerLayout(b: seq<byte>, header: seq<byte>, subs: seq<Sub>, tail: seq<byte>)
    requires IsContainer(b, header, subs, tail)
    ensures b[HEADER] == |subs| && HEADER + 1 + |EncSubs(subs)| <= |b|
    ensures b[HEADER + 1..HEADER + 1 + |EncSubs(subs)|] == EncSubs(subs)
  {
  }

  /** Moves what is behind sub-packet k up over it. */
  method RemoveSub(p: array<byte>, len: nat, k: nat, ghost header: seq<byte>, ghost subs: seq<Sub>, ghost tail: seq<byte>)
    returns (newLen: nat)
    requires len <= p.Length <= REACH && IsContainer(p[..len], header, subs, tail) && k < |subs|
    modifies p
    ensures newLen <= len && IsContainer(p[..newLen], header, Deleted(subs, k + 1), tail)
    ensures p[len..] == old(p[len..])
  {
    ghost var was := p[..];
    ContainerLayout(was[..len], header, subs, tail);
    var start, size := FindSub(p[..len], k, subs);
    newLen := len - size;
    CloseGap(p, len, start, size);
    ClosedInPlace(was, p[..], len, header, subs, tail, k);
  }

  /** Moves the octets behind the gap up, and counts one sub-packet less. */
  method CloseGap(p: array<byte>, len: nat, start: nat, size: nat)
    requires HEADER < start <= start + size <= len <= p.Length && p[HEADER] > 0
    modifies p
    ensures p[..] == Overwrite(old(p[..]), start, old(p[start + size..len]))[HEADER := old(p[HEADER]) - 1]
  {
    ghost var was := p[..];
    var behind := p[start + size..len];
    Write(p, start, behind);
    ghost var moved := p[..];
    assert moved[HEADER] == was[HEADER];
    p[HEADER] := p[HEADER] - 1;
    assert p[..] == moved[HEADER := was[HEADER] - 1];
  }

  /** What moving up the octets behind sub-packet k makes of the buffer. */
  lemma {:induction false} ClosedInPlace(was: seq<byte>, b: seq<byte>, len: nat, header: seq<byte>,
                                         subs: seq<Sub>, tail: seq<byte>, k: nat)
    requires len <= |was| && IsContainer(was[..len], header, subs, tail) && k < |subs|
    requires
      var start, size := Start(subs, k), |EncSub(subs[k])|;
      start + size <= len && b == Overwrite(was, start, was[start + size..len])[HEADER := |subs| - 1]
    ensures
      var newLen := len - |EncSub(subs[k])|;
      IsContainer(b[..newLen], header, Deleted(subs, k + 1), tail) && b[len..] == was[len..]
  {
    var start, size := Start(subs, k), |EncSub(subs[k])|;
    var c := b[..len - size];
    assert c[start..] == was[start + size..len] == was[..len][start + size..];
    Closed(was[..len], c, header, subs, tail, k);
  }

  /** Walks to sub-packet k; returns where it starts and its size. */
  method FindSub(p: seq<byte>, k: nat, ghost subs: seq<Sub>) returns (start: nat, size: nat)
    requires HEADER + 1 + |EncSubs(subs)| <= |p| <= REACH && k < |subs|
    requires p[HEADER + 1..HEADER + 1 + |EncSubs(subs)|] == EncSubs(subs)
    ensures start == Start(subs, k) && size == |EncSub(subs[k])| && start + size <= |p|
  {
    var offset: byte := HEADER + 1;
    for current := 0 to k
      invariant offset == Start(subs, current)
    {
      SubAt(p, subs, current);
      SubRead(p, offset, subs[current]);
      offset := offset + 3;
      var len := p[offset];
      offset := offset + 1 + len;
    }
    SubAt(p, subs, k);
    SubRead(p, offset, subs[k]);
    offset := offset + 3;
    size := SUB_HEADER + p[offset];
    start := offset - 3;
  }

  /** Closing the gap leaves the container of the other sub-packets. */
  lemma {:induction false} Closed(was: seq<byte>, b: seq<byte>, header: seq<byte>, subs: seq<Sub>, tail: seq<byte>, k: nat)
    requires IsContainer(was, header, subs, tail) && k < |subs|
    requires
      var start, size := Start(subs, k), |EncSub(subs[k])|;
      && start + size <= |was| == |b| + size && start <= |b|
      && b[HEADER] == |subs| - 1
      && (forall j :: 0 <= j < start && j != HEADER ==> b[j] == was[j])
      && b[start..] == was[start + size..]
    ensures IsContainer(b, header, Deleted(subs, k + 1), tail)
  {
    SplitAt(subs, k);
    EncSubsJoin(subs[..k], subs[k + 1..]);
    Gap(was, b, header, |subs|, EncSubs(subs[..k]), EncSub(subs[k]), EncSubs(subs[k + 1..]), tail);
  }

  lemma {:induction false} Gap(was: seq<byte>, b: seq<byte>, header: seq<byte>, count: byte,
                               before: seq<byte>, gap: seq<byte>, behind: seq<byte>, tail: seq<byte>)
    requires |header| == HEADER && count > 0 && was == header + [count] + (before + gap + behind) + tail
    requires
      var start := HEADER + 1 + |before|;
      && start <= |b| && b[HEADER] == count - 1 && b[start..] == was[start + |gap|..]
      && (forall j :: 0 <= j < start && j != HEADER ==> b[j] == was[j])
    ensures b == header + [count - 1] + (before + behind) + tail
  {
    var start := HEADER + 1 + |before|;
    assert was[start + |gap|..] == behind + tail;
    var r := header + [count - 1] + (before + behind) + tail;
    assert r[start..] == behind + tail;
    assert r[..start] == header + [count - 1] + before == b[..start];
    assert b == b[..start] + b[start..] && r == r[..start] + r[start..];
  }

  lemma {:induction false} ContainerBegins(b: seq<byte>, header: seq<byte>, subs: seq<Sub>, tail: seq<byte>)
    requires IsContainer(b, header, subs, tail) && |b| <= REACH && IsMerged(header)
    ensures BeginsWith(b, subs) && IsMerged(b)
  {
    assert b[HEADER + 1..HEADER + 1 + |EncSubs(subs)|] == EncSubs(subs);
  }

  lemma {:induction false} DeletedNext(subs: seq<Sub>, d: seq<nat>, i: nat)
    requires i < |d|
    ensures AllDeleted(subs, d[..i + 1]) == AllDeleted(Deleted(subs, d[i]), d[..i])
  {
    var front := d[..i + 1];
    assert front[..|front| - 1] == d[..i] && Last(front) == d[i];
  }

  /** The deleting half of sdn_queue_compare_packets. */
  method DeleteRecorded(p: array<byte>, len: nat, table: seq<nat>, ghost header: seq<byte>, ghost olds: seq<Sub>, ghost tail: seq<byte>)
    returns (newLen: nat)
    requires len <= p.Length <= REACH && IsContainer(p[..len], header, olds, tail)
    modifies p
    ensures newLen <= len && IsContainer(p[..newLen], header, AllDeleted(olds, table), tail)
  {
    newLen := len;
    ghost var left := olds;
    var i := |table|;
    assert table[..i] == table;
    while i > 0
      invariant 0 <= i <= |table| && newLen <= len
      invariant IsContainer(p[..newLen], header, left, tail)
      invariant AllDeleted(left, table[..i]) == AllDeleted(olds, table)
    {
      i := i - 1;
      var number := table[i];
      DeletedNext(left, table, i);
      newLen, left := DeleteSubpacket(p, newLen, number, header, left, tail);
    }
  }

  /** sdn_queue_compare_packets */
  method ComparePackets(newB: seq<byte>, p: array<byte>, len: nat, size: nat, ghost news: seq<Sub>, ghost olds: seq<Sub>,
                        ghost tail: seq<byte>)
    returns (action: Action, newLen: nat)
    requires HEADER <= len <= p.Length <= REACH
    requires BeginsWith(newB, news) && Comparable(size, news) && Comparable(size, olds)
    requires if IsMerged(p[..len]) then IsContainer(p[..len], p[..HEADER], olds, tail) else olds == [OwnSub(p[..len])]
    modifies p
    ensures !old(IsMerged(p[..len])) ==> p[..] == old(p[..]) && newLen == len && action == Verdict(size, news, olds[0])
    ensures old(IsMerged(p[..len])) ==>
      && action == Merge && newLen <= len
      && var d := Capped(AllHits(IsMerged(newB), size, news, olds), |olds|);
      IsContainer(p[..newLen], old(p[..HEADER]), AllDeleted(olds, d), tail)
  {
    if IsMerged(p[..len]) {
      ContainerBegins(p[..len], p[..HEADER], olds, tail);
    }
    var table;
    action, table := Scan(newB, p[..len], size, news, olds);
    newLen := len;
    if IsMerged(p[..len]) {
      newLen := DeleteRecorded(p, len, table, p[..HEADER], olds, tail);
    }
  }

  /** The old sub-packets that a new one does not supersede, in their order. */
  function Surviving(size: nat, n: Sub, olds: seq<Sub>): seq<Sub> {
    if olds == [] then []
    else Surviving(size, n, olds[..|olds| - 1]) + if Matches(size, n.payload, Last(olds).payload) then [] else [Last(olds)]
  }

  /** Numbers that increase strictly and lie between 1 and n. */
  predicate Ascending(d: seq<nat>, n: nat) {
    && (forall k :: 0 <= k < |d| ==> 1 <= d[k] <= n)
    && (forall k, l :: 0 <= k < l < |d| ==> d[k] < d[l])
  }

  /** Deleting ascending numbers does not touch what comes after them. */
  lemma {:induction false} DeletedInFront<T>(olds: seq<T>, x: T, d: seq<nat>)
    requires Ascending(d, |olds|)
    ensures AllDeleted(olds + [x], d) == AllDeleted(olds, d) + [x]
    decreases |d|
  {
    if d != [] {
      var number, rest := Last(d), d[..|d| - 1];
      assert Deleted(olds + [x], number) == Deleted(olds, number) + [x];
      assert forall k :: 0 <= k < |rest| ==> rest[k] < number;
      DeletedInFront(Deleted(olds, number), x, rest);
    }
  }

  lemma {:induction false} HitsAscend(bothMerged: bool, size: nat, n: Sub, olds: seq<Sub>)
    ensures Ascending(Hits(bothMerged, size, n, olds), |olds|)
  {
    if olds != [] {
      HitsAscend(bothMerged, size, n, olds[..|olds| - 1]);
    }
  }

  /** Deleting the recorded numbers from last to first is filtering. */
  lemma {:induction false} DeletingIsFiltering(size: nat, n: Sub, olds: seq<Sub>)
    ensures AllDeleted(olds, Hits(false, size, n, olds)) == Surviving(size, n, olds)
  {
    if olds != [] {
      var front, last := olds[..|olds| - 1], Last(olds);
      var d := Hits(false, size, n, front);
      DeletingIsFiltering(size, n, front);
      if Matches(size, n.payload, last.payload) {
        assert Hits(false, size, n, olds) == d + [|olds|];
        DeletedLast(olds, d);
        assert Surviving(size, n, olds) == Surviving(size, n, front);
      } else {
        assert Hits(false, size, n, olds) == d;
        HitsAscend(false, size, n, front);
        assert front + [last] == olds;
        DeletedInFront(front, last, d);
      }
    }
  }

  lemma {:induction false} DeletedLast<T>(olds: seq<T>, d: seq<nat>)
    requires olds != []
    ensures AllDeleted(olds, d + [|olds|]) == AllDeleted(olds[..|olds| - 1], d)
  {
    assert (d + [|olds|])[..|d|] == d;
    assert Deleted(olds, |olds|) == olds[..|olds| - 1];
  }

  /** Main result for an unmerged arrival: what ComparePackets leaves of a container. */
  lemma {:induction false} UnmergedArrivalFilters(size: nat, n: Sub, olds: seq<Sub>)
    ensures AllDeleted(olds, Capped(AllHits(false, size, [n], olds), |olds|)) == Surviving(size, n, olds)
  {
    assert [n][..0] == [];
    assert AllHits(false, size, [n], olds) == Hits(false, size, n, olds);
    DeletingIsFiltering(size, n, olds);
  }

  /** No two sub-packets answer the same request. */
  predicate KeysDistinct(size: nat, subs: seq<Sub>) {
    forall i, j :: 0 <= i < j < |subs| ==> !Matches(size, subs[i].payload, subs[j].payload)
  }

  /** Filtering keeps exactly the sub-packets that do not match, and distinct keys stay distinct. */
  lemma {:induction false} SurvivingIs(size: nat, n: Sub, olds: seq<Sub>)
    ensures forall s :: s in Surviving(size, n, olds) <==> s in olds && !Matches(size, n.payload, s.payload)
    ensures KeysDistinct(size, olds) ==> KeysDistinct(size, Surviving(size, n, olds))
  {
    if olds != [] {
      var front := olds[..|olds| - 1];
      SurvivingIs(size, n, front);
      assert olds == front + [Last(olds)];
    }
  }

  /** A queue entry: one unmerged packet, or a container. */
  datatype Entry = Entry(merged: bool, subs: seq<Sub>)

  /** An unmerged arrival; combining may be refused for lack of room after the deletions were made. */
  datatype Arrival = Arrival(sub: Sub, refused: bool)

  function Arrive(size: nat, e: Entry, a: Arrival): Entry
    requires e.merged || |e.subs| == 1
  {
    if e.merged then
      var left := Surviving(size, a.sub, e.subs);
      Entry(true, if a.refused then left else left + [a.sub])
    else match Verdict(size, [a.sub], e.subs[0])
      case Replace => Entry(false, [a.sub])
      case NoAction => e
      case Merge => if a.refused then e else Entry(true, e.subs + [a.sub])
  }

  /** An entry after a run of arrivals. */
  function Grown(size: nat, first: Sub, arrivals: seq<Arrival>): (e: Entry)
    ensures e.merged || |e.subs| == 1
  {
    if arrivals == [] then Entry(false, [first])
    else Arrive(size, Grown(size, first, arrivals[..|arrivals| - 1]), Last(arrivals))
  }

  /** An arrival leaves different keys in an entry with different keys. */
  lemma {:induction false} ArriveKeepsKeys(size: nat, e: Entry, a: Arrival)
    requires (e.merged || |e.subs| == 1) && KeysDistinct(size, e.subs)
    ensures KeysDistinct(size, Arrive(size, e, a).subs)
  {
    if e.merged {
      SurvivingIs(size, a.sub, e.subs);
      NewKeyDistinct(size, a.sub, Surviving(size, a.sub, e.subs));
    } else {
      NewKeyDistinct(size, a.sub, if Matches(size, a.sub.payload, e.subs[0].payload) then [] else e.subs);
    }
  }

  /** In an entry grown from unmerged arrivals no two sub-packets answer the same request, after any run. */
  lemma {:induction false} KeysStayDistinct(size: nat, first: Sub, arrivals: seq<Arrival>)
    ensures KeysDistinct(size, Grown(size, first, arrivals).subs)
  {
    if arrivals != [] {
      KeysStayDistinct(size, first, arrivals[..|arrivals| - 1]);
      ArriveKeepsKeys(size, Grown(size, first, arrivals[..|arrivals| - 1]), Last(arrivals));
    }
  }

  /** What does not match the arriving sub-packet can stand in front of it. */
  lemma {:induction false} NewKeyDistinct(size: nat, n: Sub, left: seq<Sub>)
    requires KeysDistinct(size, left) && forall s :: s in left ==> !Matches(size, n.payload, s.payload)
    ensures KeysDistinct(size, left + [n])
  {
    var subs := left + [n];
    forall i, j | 0 <= i < j < |subs|
      ensures !Matches(size, subs[i].payload, subs[j].payload)
    {
      if j == |left| {
        assert subs[i] in left;
      } else {
        assert subs[i] == left[i] && subs[j] == left[j];
      }
    }
  }

  /** A sub-packet once merged stays until an arrival with its key comes. */
  lemma {:induction false} StaysUntilSuperseded(size: nat, first: Sub, arrivals: seq<Arrival>, k: nat)
    requires k < |arrivals| && !arrivals[k].refused && Grown(size, first, arrivals[..k + 1]).merged
    requires forall m :: k < m < |arrivals| ==> !Matches(size, arrivals[m].sub.payload, arrivals[k].sub.payload)
    ensures
      var e := Grown(size, first, arrivals);
      e.merged && arrivals[k].sub in e.subs
    decreases |arrivals|
  {
    var front := arrivals[..|arrivals| - 1];
    if k == |front| {
      assert arrivals[..k + 1] == arrivals;
    } else {
      assert front[..k + 1] == arrivals[..k + 1];
      StaysUntilSuperseded(size, first, front, k);
      SurvivingIs(size, Last(arrivals).sub, Grown(size, first, front).subs);
    }
  }

  /**
   * Filtering fails for a merged arrival: its sub-packets may match in another order than the
   * old ones stand in, and then the numbers recorded first are stale by the time they are used.
   * Here C is deleted, which nothing supersedes, and B, which is superseded, stays.
   */
  lemma {:induction false} MergedArrivalDeletesWrongOne(x: Addr, y: Addr)
    requires x != y
    ensures
      var a, b, c := Sub(0, x, [1]), Sub(0, x, [2]), Sub(0, x, [3]);
      var news := [Sub(0, y, [2]), Sub(0, y, [1])];
      && AllDeleted([a, b, c], Capped(AllHits(true, 1, news, [a, b, c]), 3)) == [b]
      && Surviving(1, news[1], Surviving(1, news[0], [a, b, c])) == [c]
  {
    var a, b, c := Sub(0, x, [1]), Sub(0, x, [2]), Sub(0, x, [3]);
    var n0, n1 := Sub(0, y, [2]), Sub(0, y, [1]);
    OneOfThree(n0, a, b, c, 2);
    OneOfThree(n1, a, b, c, 1);
    TwoHits(n0, n1, [a, b, c]);
    StaleDeletion(a, b, c);
    assert [a, c][..1] == [a] && [a][..0] == [];
    assert !Matches(1, n1.payload, c.payload) && Matches(1, n1.payload, a.payload);
    assert Surviving(1, n1, [a]) == [];
  }

  lemma {:induction false} TwoHits(n0: Sub, n1: Sub, olds: seq<Sub>)
    requires Hits(true, 1, n0, olds) == [2] && Hits(true, 1, n1, olds) == [1]
    ensures AllHits(true, 1, [n0, n1], olds) == [2, 1]
  {
    assert [n0, n1][..1] == [n0] && [n0][..0] == [];
    assert AllHits(true, 1, [n0], olds) == [2];
  }

  lemma {:induction false} StaleDeletion(a: Sub, b: Sub, c: Sub)
    ensures AllDeleted([a, b, c], [2, 1]) == [b]
  {
    assert Deleted([a, b, c], 1) == [b, c] && Deleted([b, c], 2) == [b];
    assert [2, 1][..1] == [2] && [2][..0] == [];
    assert AllDeleted([a, b, c], [2, 1]) == AllDeleted([b, c], [2]) == AllDeleted([b], []);
  }

  /** One arrival against three old sub-packets with different one-octet payloads, the first or second of which it matches. */
  lemma {:induction false} OneOfThree(n: Sub, a: Sub, b: Sub, c: Sub, k: nat)
    requires |n.payload| == |a.payload| == |b.payload| == |c.payload| == 1
    requires n.source != a.source && n.source != b.source && n.source != c.source
    requires c.payload[0] != n.payload[0]
    requires if k == 1 then n.payload[0] == a.payload[0] != b.payload[0] else k == 2 && a.payload[0] != n.payload[0] == b.payload[0]
    ensures Hits(true, 1, n, [a, b, c]) == [k]
    ensures Surviving(1, n, [a, b, c]) == if k == 1 then [b, c] else [a, c]
  {
    OneOctet(n.payload, a.payload);
    OneOctet(n.payload, b.payload);
    OneOctet(n.payload, c.payload);
    OneMoreOld(n, [], a);
    OneMoreOld(n, [a], b);
    OneMoreOld(n, [a, b], c);
    assert [] + [a] == [a] && [a] + [b] == [a, b] && [a, b] + [c] == [a, b, c];
  }

  lemma {:induction false} OneMoreOld(n: Sub, olds: seq<Sub>, o: Sub)
    ensures Hits(true, 1, n, olds + [o]) == Hits(true, 1, n, olds) + if Hit(true, 1, n, o) then [|olds| + 1] else []
    ensures Surviving(1, n, olds + [o]) == Surviving(1, n, olds) + if Matches(1, n.payload, o.payload) then [] else [o]
  {
    assert (olds + [o])[..|olds|] == olds;
  }

  lemma {:induction false} OneOctet(p: seq<byte>, q: seq<byte>)
    requires |p| == |q| == 1
    ensures Matches(1, p, q) <==> p[0] == q[0]
  {
    assert p == [p[0]] && q == [q[0]];
  }
}
