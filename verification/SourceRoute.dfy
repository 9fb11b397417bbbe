// Source routes: the controller turns a route into the reversed address list
// of a packet, and every relay takes the next address from its end.
module SourceRoute {
  import opened Common
  import opened PacketBytes

  /** An address list is carried in reverse, the next hop last: so dropping its front is keeping the nearer hops. */
  lemma {:induction false} DropOfReversed(s: seq<Addr>, k: nat)
    requires k <= |s|
    ensures Reversed(s)[k..] == Reversed(s[..|s| - k])
  {
    if k < |s| {
      assert s[..|s| - k][1..] == s[1..][..|s| - 1 - k];
      DropOfReversed(s[1..], k);
    }
  }

  /** The end of a reversed route: the hops nearest its start, which are the ones a truncated list keeps. */
  lemma {:induction false} ListedHops(self: Addr, hops: seq<Addr>, n: nat)
    requires n < |hops|
    ensures
      var route := Reversed([self] + hops);
      && route[|hops| - 1] == hops[0]
      && route[|hops| - 1 - n..|hops| - 1] == Reversed(hops[..n + 1][1..])
  {
    var route, skip := Reversed([self] + hops), |hops| - 1 - n;
    assert ([self] + hops)[1..] == hops;
    assert route == Reversed(hops) + [self];
    assert Reversed(hops) == Reversed(hops[1..]) + [hops[0]];
    DropOfReversed(hops[1..], skip);
    assert hops[1..][..n] == hops[..n + 1][1..];
    assert route[skip..|hops| - 1] == Reversed(hops[1..])[skip..];
  }

  /** How many of `hops` addresses still fit behind a packet of `len` octets. */
  function Fits(len: nat, hops: int): (n: int)
    requires len <= SDN_MAX_PACKET_SIZE
  {
    var max := (SDN_MAX_PACKET_SIZE - len) / 2;
    if hops > max then max else hops
  }

  /** Appends the addresses route[from..until] to the first len octets. */
  method AppendAddrs(buf: array<byte>, len: nat, route: seq<Addr>, from: nat, until: nat)
    requires from <= until <= |route| && len + 2 * (until - from) <= buf.Length
    modifies buf
    ensures buf[..len + 2 * (until - from)] == old(buf[..len]) + EncAddrs(route[from..until])
  {
    for r := from to until
      invariant buf[..len + 2 * (r - from)] == old(buf[..len]) + EncAddrs(route[from..r])
    {
      var n := len + 2 * (r - from);
      ghost var was := buf[..];
      Write(buf, n, EncAddr(route[r]));
      assert buf[..n] == was[..n];
      assert buf[..n + 2] == buf[..n] + EncAddr(route[r]);
      assert route[from..r + 1][..r - from] == route[from..r];
    }
  }

  /** The fixed part of a source-routed packet, filled in. */
  function Filled(fixed: seq<byte>, pathLenAt: nat, realDestAt: Option<nat>, target: Addr, hops: byte, next: Addr): seq<byte>
    requires DESTINATION + 2 <= pathLenAt < |fixed|
    requires realDestAt.Some? ==> realDestAt.value + 2 <= |fixed|
  {
    var b := if realDestAt.Some? then Overwrite(fixed, realDestAt.value, EncAddr(target)) else fixed;
    Overwrite(Overwrite(b, pathLenAt, [hops]), DESTINATION, EncAddr(next))
  }

  /**
   * add_src_rtd_header.  `route` runs from the target back to the controller;
   * the nodes nearest the target are skipped if the list would not fit.
   */
  method AddSrcRtdHeader(buf: array<byte>, len: nat, pathLenAt: nat, realDestAt: Option<nat>,
                         target: Addr, route: seq<Addr>)
    returns (newLen: nat)
    requires buf.Length == SDN_MAX_PACKET_SIZE
    requires DESTINATION + 2 <= pathLenAt < len <= SDN_MAX_PACKET_SIZE
    requires realDestAt.Some? ==> realDestAt.value + 2 <= len
    requires 2 <= |route|
    modifies buf
    ensures
      var hops := Fits(len, |route| - 2);
      && newLen == len + 2 * hops <= SDN_MAX_PACKET_SIZE
      && buf[..newLen] ==
         Filled(old(buf[..len]), pathLenAt, realDestAt, target, hops, route[|route| - 2])
         + EncAddrs(route[|route| - 2 - hops..|route| - 2])
  {
    var r, indexHops := FillCount(buf, len, pathLenAt, realDestAt, target, |route| - 2);
    newLen := AppendRoute(buf, len, route, r, |route| - 2);
  }

  /** The listed addresses behind the first len octets, and the next one as the destination. */
  method AppendRoute(buf: array<byte>, len: nat, route: seq<Addr>, from: nat, last: nat) returns (newLen: nat)
    requires from <= last < |route| && DESTINATION + 2 <= len && len + 2 * (last - from) <= buf.Length
    modifies buf
    ensures newLen == len + 2 * (last - from)
    ensures buf[..newLen] == Overwrite(old(buf[..len]), DESTINATION, EncAddr(route[last])) + EncAddrs(route[from..last])
  {
    newLen := len + 2 * (last - from);
    ghost var fixed, hops := buf[..len], EncAddrs(route[from..last]);
    AppendAddrs(buf, len, route, from, last);
    ghost var listed := buf[..];
    var next := EncAddr(route[last]);
    Write(buf, DESTINATION, next);
    DestinationSet(listed, newLen, fixed, hops, next);
  }

  lemma {:induction false} DestinationSet(b: seq<byte>, n: nat, fixed: seq<byte>, hops: seq<byte>, next: seq<byte>)
    requires n <= |b| && b[..n] == fixed + hops && DESTINATION + |next| <= |fixed|
    ensures Overwrite(b, DESTINATION, next)[..n] == Overwrite(fixed, DESTINATION, next) + hops
  {
    OverwriteInFront(b, n, DESTINATION, next);
    OverwriteBefore(fixed, hops, DESTINATION, next);
  }

  /** The real destination and the number of addresses; returns how many are skipped and how many listed. */
  method FillCount(buf: array<byte>, len: nat, pathLenAt: nat, realDestAt: Option<nat>, target: Addr, hops: nat)
    returns (r: nat, indexHops: nat)
    requires buf.Length == SDN_MAX_PACKET_SIZE && pathLenAt < len <= SDN_MAX_PACKET_SIZE
    requires realDestAt.Some? ==> realDestAt.value + 2 <= len
    modifies buf
    ensures indexHops == Fits(len, hops) && r + indexHops == hops
    ensures
      var fixed := old(buf[..len]);
      var b := if realDestAt.Some? then Overwrite(fixed, realDestAt.value, EncAddr(target)) else fixed;
      buf[..len] == Overwrite(b, pathLenAt, [indexHops])
  {
    ghost var b0 := buf[..];
    if realDestAt.Some? {
      Write(buf, realDestAt.value, EncAddr(target));
      OverwriteInFront(b0, len, realDestAt.value, EncAddr(target));
    }
    var maxHops := (SDN_MAX_PACKET_SIZE - len) / 2;
    r, indexHops := 0, hops;
    while indexHops > maxHops
      invariant r + indexHops == hops && indexHops >= Fits(len, hops)
    {
      r, indexHops := r + 1, indexHops - 1;
    }
    ghost var b1 := buf[..];
    Write(buf, pathLenAt, [indexHops]);
    OverwriteInFront(b1, len, pathLenAt, [indexHops]);
  }
}
