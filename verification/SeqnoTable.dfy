// The table of recent sequence numbers that tells a node which packets it has
// seen: sixteen senders, the most recent first.
module SeqnoTable {
  import opened Common

  const SDN_MAX_SEQNOS: nat := 16

  datatype Seqno = Seqno(sender: Addr, seqno: byte)

  /** The unused entries of the zero-initialised table. */
  const UNUSED: Seqno := Seqno(Addr(0, 0), 0)

  /** The table that holds the front of a list. */
  function Table(s: seq<Seqno>): (t: seq<Seqno>)
    ensures |t| == SDN_MAX_SEQNOS
  {
    (s + seq(SDN_MAX_SEQNOS, _ => UNUSED))[..SDN_MAX_SEQNOS]
  }

  /** The place of a sender's first entry, or the end. */
  function Find(t: seq<Seqno>, sender: Addr): (i: nat)
    ensures i <= |t| && (i < |t| ==> t[i].sender == sender)
    ensures forall k :: 0 <= k < i ==> t[k].sender != sender
  {
    if t == [] then 0 else if t[0].sender == sender then 0 else 1 + Find(t[1..], sender)
  }

  /** A list with an entry moved or added to its front. */
  function ToFront(s: seq<Seqno>, e: Seqno): seq<Seqno> {
    var i := Find(s, e.sender);
    [e] + if i == |s| then s else s[..i] + s[i + 1..]
  }

  /** All senders of a history of registrations, most recent first, each with its latest number. */
  function Recent(h: seq<Seqno>): seq<Seqno> {
    if h == [] then [] else ToFront(Recent(h[..|h| - 1]), Last(h))
  }

  /** One entry to the front; the entry it replaces, or else the last one, goes. */
  function Shifted(t: seq<Seqno>, e: Seqno): seq<Seqno>
    requires |t| == SDN_MAX_SEQNOS
  {
    var i := Find(t, e.sender);
    if i == |t| then [e] + t[..i - 1] else [e] + t[..i] + t[i + 1..]
  }

  type Seen = t: seq<Seqno> | |t| == SDN_MAX_SEQNOS witness Table([])

  /** The answer of the duplicate test at a node with table t. */
  predicate Duplicate(t: Seen, self: Addr, e: Seqno) {
    var i := Find(t, e.sender);
    e.sender == self || (i < SDN_MAX_SEQNOS && t[i].seqno == e.seqno)
  }

  class SeqnoTable {
    const received: array<Seqno>
    const self: Addr

    constructor (node: Addr)
      ensures received.Length == SDN_MAX_SEQNOS && received[..] == Table([]) && self == node && fresh(received)
    {
      received := new Seqno[SDN_MAX_SEQNOS](_ => UNUSED);
      self := node;
    }

    /** sdn_seqno_is_duplicate */
    method IsDuplicate(source: Addr, seqNo: byte) returns (duplicate: bool)
      requires received.Length == SDN_MAX_SEQNOS
      ensures duplicate == Duplicate(received[..], self, Seqno(source, seqNo))
    {
      if source == self {
        return true;
      }
      for i := 0 to SDN_MAX_SEQNOS
        invariant forall k :: 0 <= k < i ==> received[..][k].sender != source
      {
        if received[i].sender == source {
          FirstFound(received[..], source, i);
          return received[i].seqno == seqNo;
        }
      }
      return false;
    }

    /** sdn_seqno_register: entries are shifted in place. */
    method Register(source: Addr, seqNo: byte)
      requires received.Length == SDN_MAX_SEQNOS
      modifies received
      ensures received[..] == Shifted(old(received[..]), Seqno(source, seqNo))
    {
      var i := EndOfShift(source);
      ghost var was := received[..];
      ShiftDown(i);
      ghost var shifted := received[..];
      received[0] := Seqno(source, seqNo);
      assert received[..] == shifted[0 := Seqno(source, seqNo)];
      ShiftedIs(was, shifted, Seqno(source, seqNo), i);
    }

    /** One past the sender's entry, or past the last entry if it has none. */
    method EndOfShift(source: Addr) returns (i: nat)
      requires received.Length == SDN_MAX_SEQNOS
      ensures var found := Find(received[..], source);
              i == if found == SDN_MAX_SEQNOS then found else found + 1
    {
      i := 0;
      while i < SDN_MAX_SEQNOS
        invariant 0 <= i <= SDN_MAX_SEQNOS
        invariant forall k :: 0 <= k < i ==> received[..][k].sender != source
      {
        if received[i].sender == source {
          FirstFound(received[..], source, i);
          return i + 1;
        }
        i := i + 1;
      }
    }

    /** Moves the entries in front of i one place down; the first place keeps its entry. */
    method ShiftDown(i: nat)
      requires received.Length == SDN_MAX_SEQNOS && 0 < i <= SDN_MAX_SEQNOS
      modifies received
      ensures forall k :: 0 < k < SDN_MAX_SEQNOS ==> received[k] == old(received[..])[if k < i then k - 1 else k]
    {
      ghost var was := received[..];
      var j := i - 1;
      while j > 0
        invariant 0 <= j < i
        invariant forall k :: 0 <= k <= j ==> received[k] == was[k]
        invariant forall k :: j < k < i ==> received[k] == was[k - 1]
        invariant forall k :: i <= k < SDN_MAX_SEQNOS ==> received[k] == was[k]
      {
        received[j] := received[j - 1];
        j := j - 1;
      }
    }
  }

  lemma {:induction false} ShiftedIs(was: seq<Seqno>, shifted: seq<Seqno>, e: Seqno, i: nat)
    requires |was| == |shifted| == SDN_MAX_SEQNOS
    requires i == if Find(was, e.sender) == SDN_MAX_SEQNOS then SDN_MAX_SEQNOS else Find(was, e.sender) + 1
    requires forall k :: 0 < k < SDN_MAX_SEQNOS ==> shifted[k] == was[if k < i then k - 1 else k]
    ensures shifted[0 := e] == Shifted(was, e)
  {
    var r := Shifted(was, e);
    assert |r| == SDN_MAX_SEQNOS && r[0] == e;
    forall k | 0 < k < SDN_MAX_SEQNOS
      ensures r[k] == shifted[k]
    {
      ShiftedAt(was, e, i, k);
    }
  }

  lemma {:induction false} ShiftedAt(was: seq<Seqno>, e: Seqno, i: nat, k: nat)
    requires |was| == SDN_MAX_SEQNOS && 0 < k < SDN_MAX_SEQNOS
    requires i == if Find(was, e.sender) == SDN_MAX_SEQNOS then SDN_MAX_SEQNOS else Find(was, e.sender) + 1
    ensures |Shifted(was, e)| == SDN_MAX_SEQNOS && Shifted(was, e)[k] == was[if k < i then k - 1 else k]
  {
  }

  /** A packet that is registered is a duplicate from then on; another number of its sender is a new packet. */
  lemma {:induction false} RegisteredIsDuplicate(t: Seen, self: Addr, e: Seqno)
    ensures Duplicate(Shifted(t, e), self, e)
    ensures forall n: byte :: n != e.seqno && e.sender != self ==> !Duplicate(Shifted(t, e), self, Seqno(e.sender, n))
  {
    FirstFound(Shifted(t, e), e.sender, 0);
  }

  lemma {:induction false} FirstFound(t: seq<Seqno>, sender: Addr, i: nat)
    requires i < |t| && t[i].sender == sender && forall k :: 0 <= k < i ==> t[k].sender != sender
    ensures Find(t, sender) == i
  {
  }

  // ---- What the table holds after a history of registrations.

  /** The table after each registration in turn. */
  function After(h: seq<Seqno>): (t: seq<Seqno>)
    ensures |t| == SDN_MAX_SEQNOS
  {
    if h == [] then Table([]) else
      var t := After(h[..|h| - 1]);
      FindBound(t, Last(h).sender);
      Shifted(t, Last(h))
  }

  lemma {:induction false} FindBound(t: seq<Seqno>, sender: Addr)
    ensures Find(t, sender) <= |t|
  {
  }

  predicate Distinct(s: seq<Seqno>) {
    forall i, j :: 0 <= i < j < |s| ==> s[i].sender != s[j].sender
  }

  /** Where each entry of the moved list was before. */
  lemma {:induction false} ToFrontAt(s: seq<Seqno>, e: Seqno, k: nat)
    requires 1 <= k < |ToFront(s, e)|
    ensures ToFront(s, e)[k] == if k <= Find(s, e.sender) then s[k - 1] else s[k]
  {
  }

  lemma {:induction false} ToFrontDistinct(s: seq<Seqno>, e: Seqno)
    requires Distinct(s)
    ensures Distinct(ToFront(s, e))
  {
    var r, i := ToFront(s, e), Find(s, e.sender);
    forall k, l | 0 <= k < l < |r|
      ensures r[k].sender != r[l].sender
    {
      ToFrontAt(s, e, l);
      if k > 0 {
        ToFrontAt(s, e, k);
      } else if l > i {
        assert s[i].sender != s[l].sender;
      }
    }
  }

  /** Shifting the table is moving to the front of the whole list, cut at sixteen. */
  lemma {:induction false} ShiftIsMoveToFront(s: seq<Seqno>, e: Seqno)
    requires Distinct(s)
    ensures Shifted(Table(s), e) == Table(ToFront(s, e))
  {
    var t, i := Table(s), Find(s, e.sender);
    assert forall k :: 0 <= k < SDN_MAX_SEQNOS ==> t[k] == if k < |s| then s[k] else UNUSED;
    if i < |s| && i < SDN_MAX_SEQNOS {
      FirstFound(t, e.sender, i);
    } else if |s| < SDN_MAX_SEQNOS && e.sender == UNUSED.sender {
      FirstFound(t, e.sender, |s|);
    } else {
      assert Find(t, e.sender) == SDN_MAX_SEQNOS;
    }
    var front, moved := Shifted(t, e), Table(ToFront(s, e));
    var j := Find(t, e.sender);
    forall k | 0 <= k < SDN_MAX_SEQNOS
      ensures front[k] == moved[k]
    {
      assert k > 0 ==> front[k] == if k <= j then t[k - 1] else t[k];
      if 0 < k < |ToFront(s, e)| {
        ToFrontAt(s, e, k);
      }
    }
  }

  lemma {:induction false} RecentDistinct(h: seq<Seqno>)
    ensures Distinct(Recent(h))
  {
    if h != [] {
      RecentDistinct(h[..|h| - 1]);
      ToFrontDistinct(Recent(h[..|h| - 1]), Last(h));
    }
  }

  /** Main result: after any history the table is the front of the list of all senders, most recent first. */
  lemma {:induction false} TableHoldsRecent(h: seq<Seqno>)
    ensures After(h) == Table(Recent(h))
  {
    if h != [] {
      TableHoldsRecent(h[..|h| - 1]);
      RecentDistinct(h[..|h| - 1]);
      ShiftIsMoveToFront(Recent(h[..|h| - 1]), Last(h));
    }
  }

  /** The place in a history of a sender's last registration, or none. */
  function LastAt(h: seq<Seqno>, sender: Addr): (i: Option<nat>)
    ensures i.Some? ==> i.value < |h| && h[i.value].sender == sender && forall j :: i.value < j < |h| ==> h[j].sender != sender
    ensures i.None? ==> forall j :: 0 <= j < |h| ==> h[j].sender != sender
  {
    if h == [] then None else if Last(h).sender == sender then Some(|h| - 1) else LastAt(h[..|h| - 1], sender)
  }

  /** Each entry is its sender's last registration. */
  lemma {:induction false} RecentNumbers(h: seq<Seqno>, k: nat)
    requires k < |Recent(h)|
    ensures
      var e := Recent(h)[k];
      LastAt(h, e.sender).Some? && h[LastAt(h, e.sender).value] == e
    decreases |h|
  {
    var h', e := h[..|h| - 1], Last(h);
    var i := Find(Recent(h'), e.sender);
    if k > 0 {
      ToFrontAt(Recent(h'), e, k);
      RecentNumbers(h', if k <= i then k - 1 else k);
      OtherSender(h, k);
    }
  }

  /** Behind the front stand other senders. */
  lemma {:induction false} OtherSender(h: seq<Seqno>, k: nat)
    requires 0 < k < |Recent(h)|
    ensures Recent(h)[k].sender != Last(h).sender
  {
    RecentDistinct(h);
    assert Recent(h)[0] == Last(h);
  }

  /** Entries stand in the order of those registrations, the latest first. */
  lemma {:induction false} RecentOrder(h: seq<Seqno>, k: nat, l: nat)
    requires k < l < |Recent(h)|
    ensures
      var a, b := LastAt(h, Recent(h)[k].sender), LastAt(h, Recent(h)[l].sender);
      a.Some? && b.Some? && a.value > b.value
    decreases |h|
  {
    var h', e := h[..|h| - 1], Last(h);
    var i := Find(Recent(h'), e.sender);
    RecentNumbers(h, k);
    RecentNumbers(h, l);
    OtherSender(h, l);
    if k > 0 {
      OtherSender(h, k);
      ToFrontAt(Recent(h'), e, k);
      ToFrontAt(Recent(h'), e, l);
      RecentOrder(h', if k <= i then k - 1 else k, if l <= i then l - 1 else l);
    }
  }

  /** Where an entry of another sender stands after a registration. */
  lemma {:induction false} MovedTo(s: seq<Seqno>, e: Seqno, j: nat) returns (k: nat)
    requires j < |s| && s[j].sender != e.sender
    ensures 0 < k < |ToFront(s, e)| && ToFront(s, e)[k] == s[j]
  {
    k := if j < Find(s, e.sender) then j + 1 else j;
    if k > 0 {
      ToFrontAt(s, e, k);
    }
  }

  /** Every registered sender is in the list. */
  lemma {:induction false} RecentComplete(h: seq<Seqno>, sender: Addr) returns (k: nat)
    requires LastAt(h, sender).Some?
    ensures k < |Recent(h)| && Recent(h)[k].sender == sender
    decreases |h|
  {
    var h', e := h[..|h| - 1], Last(h);
    if e.sender == sender {
      k := 0;
    } else {
      var j := RecentComplete(h', sender);
      k := MovedTo(Recent(h'), e, j);
    }
  }

  /**
   * The answer of IsDuplicate after any history of registrations: yes for one's own packets; for a sender
   * among the sixteen most recent if its last registration had this number; for any other sender only if
   * there are unused entries left, and the packet looks like one.
   */
  lemma {:induction false} DuplicateIff(h: seq<Seqno>, self: Addr, source: Addr, seqNo: byte)
    ensures
      var r := Recent(h);
      var retained := exists k :: 0 <= k < |r| && k < SDN_MAX_SEQNOS && r[k].sender == source;
      Duplicate(After(h), self, Seqno(source, seqNo)) <==>
      || source == self
      || (retained && exists i :: 0 <= i < |h| && h[i] == Seqno(source, seqNo)
                                  && forall j :: i < j < |h| ==> h[j].sender != source)
      || (!retained && |r| < SDN_MAX_SEQNOS && source == Addr(0, 0) && seqNo == 0)
  {
    TableHoldsRecent(h);
    var t, r := After(h), Recent(h);
    assert forall k :: 0 <= k < SDN_MAX_SEQNOS ==> t[k] == if k < |r| then r[k] else UNUSED;
    if k :| 0 <= k < |r| && k < SDN_MAX_SEQNOS && r[k].sender == source {
      RecentDistinct(h);
      RecentNumbers(h, k);
      FirstFound(t, source, k);
      LastIs(h, source, seqNo);
    } else if |r| < SDN_MAX_SEQNOS && source == UNUSED.sender {
      FirstFound(t, source, |r|);
    }
  }

  /** The last registration of a sender has this number. */
  lemma {:induction false} LastIs(h: seq<Seqno>, source: Addr, seqNo: byte)
    requires LastAt(h, source).Some?
    ensures h[LastAt(h, source).value].seqno == seqNo <==>
            exists i :: 0 <= i < |h| && h[i] == Seqno(source, seqNo) && forall j :: i < j < |h| ==> h[j].sender != source
  {
    var at := LastAt(h, source).value;
    if i :| 0 <= i < |h| && h[i] == Seqno(source, seqNo) && forall j :: i < j < |h| ==> h[j].sender != source {
      assert i == at;
    }
  }
}
