// Octet stuffing on the serial line between the controller and its attached
// node, after section 4.2 of RFC 1662: flag and escape octets only.
module SerialFraming {
  import opened Common

  const FRAME_BOUNDARY_OCTET: byte := 0x7E
  const CONTROL_ESCAPE_OCTET: byte := 0x7D
  const HEADER_SIZE: nat := 6
  const PACKET_SIZE: nat := HEADER_SIZE + SDN_MAX_PACKET_SIZE

  /** A message of the serial protocol: a header and up to one packet. */
  type Message = m: seq<byte> | HEADER_SIZE <= |m| <= PACKET_SIZE witness [0, 0, 0, 0, 0, 0]

  /** Bit 5 inverted. */
  function Invert(x: byte): (y: byte)
    ensures y / 64 == x / 64 && y % 32 == x % 32 && y / 32 % 2 != x / 32 % 2
  {
    if x / 32 % 2 == 1 then x - 32 else x + 32
  }

  function StuffOne(x: byte): seq<byte> {
    if x == CONTROL_ESCAPE_OCTET || x == FRAME_BOUNDARY_OCTET then [CONTROL_ESCAPE_OCTET, Invert(x)] else [x]
  }

  function Stuff(m: seq<byte>): seq<byte> {
    if m == [] then [] else Stuff(m[..|m| - 1]) + StuffOne(Last(m))
  }

  function Encode(m: seq<byte>): seq<byte> {
    [FRAME_BOUNDARY_OCTET] + Stuff(m) + [FRAME_BOUNDARY_OCTET]
  }

  /** frameDecode, which despite its name encodes; the node and the PC have the same loop. */
  method FrameEncode(buffer: seq<byte>, frameLength: byte) returns (sent: seq<byte>)
    requires frameLength <= |buffer|
    ensures sent == Encode(buffer[..frameLength])
  {
    sent := [FRAME_BOUNDARY_OCTET];
    var left: nat, at := frameLength, 0;
    while left > 0
      invariant 0 <= at && at + left == frameLength
      invariant sent == [FRAME_BOUNDARY_OCTET] + Stuff(buffer[..at])
    {
      var data := buffer[at];
      assert buffer[..at + 1][..at] == buffer[..at];
      at := at + 1;
      if data == CONTROL_ESCAPE_OCTET || data == FRAME_BOUNDARY_OCTET {
        sent := sent + [CONTROL_ESCAPE_OCTET];
        data := Invert(data);
      }
      sent := sent + [data];
      left := left - 1;
    }
    sent := sent + [FRAME_BOUNDARY_OCTET];
  }

  // ---- The decoders, as step functions.

  /** The two decoders differ in their limits and in what a flag after an escape does. */
  datatype Side = Node | Pc

  datatype Decoder = Decoder(escaped: bool, overflow: bool, frame: seq<byte>)

  const CLEAN: Decoder := Decoder(false, false, [])

  function Limit(side: Side): nat {
    if side == Node then PACKET_SIZE + 2 else PACKET_SIZE
  }

  /** Holds from the start on: the PC's overflow flag is never set. */
  predicate Valid(side: Side, d: Decoder) {
    |d.frame| <= Limit(side) && (d.overflow ==> side == Node && |d.frame| == Limit(side))
  }

  function Store(side: Side, d: Decoder, x: byte): Decoder {
    if |d.frame| < Limit(side) && (side == Pc ==> !d.overflow) then d.(frame := d.frame + [x])
    else if side == Node then d.(overflow := true)
    else d
  }

  /** A decoder together with all it has handed on. */
  datatype Line = Line(d: Decoder, out: seq<seq<byte>>)

  /** What a decoder hands on when it meets a flag outside an escape. */
  function Flushed(d: Decoder): seq<seq<byte>> {
    if !d.overflow && |d.frame| >= HEADER_SIZE then [d.frame] else []
  }

  function Step(side: Side, l: Line, x: byte): Line {
    var d := l.d;
    if x == FRAME_BOUNDARY_OCTET && d.escaped then
      Line(if side == Node then d.(escaped := false) else Store(side, d.(escaped := false), x), l.out)
    else if x == FRAME_BOUNDARY_OCTET && side == Pc && d.overflow then Line(Store(side, CLEAN, x), l.out)
    else if x == FRAME_BOUNDARY_OCTET then Line(CLEAN, l.out + Flushed(d))
    else if d.escaped then Line(Store(side, d.(escaped := false), Invert(x)), l.out)
    else if x == CONTROL_ESCAPE_OCTET then Line(d.(escaped := true), l.out)
    else Line(Store(side, d, x), l.out)
  }

  function Feed(side: Side, l: Line, s: seq<byte>): Line {
    if s == [] then l else Step(side, Feed(side, l, s[..|s| - 1]), Last(s))
  }

  lemma {:induction false} FeedJoin(side: Side, l: Line, s: seq<byte>, t: seq<byte>)
    ensures Feed(side, l, s + t) == Feed(side, Feed(side, l, s), t)
  {
    if t == [] {
      assert s + t == s;
    } else {
      FeedJoin(side, l, s, t[..|t| - 1]);
      assert (s + t)[..|s + t| - 1] == s + t[..|t| - 1];
    }
  }

  lemma {:induction false} FeedOne(side: Side, l: Line, x: byte)
    ensures Feed(side, l, [x]) == Step(side, l, x)
  {
    assert [x][..0] == [];
  }

  function Cut(f: seq<byte>, n: nat): seq<byte> {
    if |f| <= n then f else f[..n]
  }

  lemma {:induction false} StuffOneRead(side: Side, l: Line, x: byte)
    requires !l.d.escaped
    ensures Feed(side, l, StuffOne(x)) == Line(Store(side, l.d, x), l.out)
  {
    if x == CONTROL_ESCAPE_OCTET || x == FRAME_BOUNDARY_OCTET {
      var escape, inverted := [CONTROL_ESCAPE_OCTET], [Invert(x)];
      assert StuffOne(x) == escape + inverted;
      FeedJoin(side, l, escape, inverted);
      FeedOne(side, l, CONTROL_ESCAPE_OCTET);
      FeedOne(side, Step(side, l, CONTROL_ESCAPE_OCTET), Invert(x));
    } else {
      FeedOne(side, l, x);
    }
  }

  /** Stuffed content arrives as it was, as far as there is room. */
  lemma {:induction false} ContentRead(side: Side, l: Line, m: seq<byte>)
    requires Valid(side, l.d) && !l.d.escaped
    ensures Feed(side, l, Stuff(m)) == Line(Filled(side, l.d, m), l.out)
  {
    if m == [] {
      assert l.d.frame + m == l.d.frame;
    } else {
      var front := m[..|m| - 1];
      ContentRead(side, l, front);
      FeedJoin(side, l, Stuff(front), StuffOne(Last(m)));
      StuffOneRead(side, Feed(side, l, Stuff(front)), Last(m));
      FilledMore(side, l.d, front, Last(m));
      assert front + [Last(m)] == m;
    }
  }

  /** A decoder with more content in it. */
  function Filled(side: Side, d: Decoder, m: seq<byte>): Decoder {
    var whole := d.frame + m;
    Decoder(false, d.overflow || (side == Node && |whole| > Limit(side)), Cut(whole, Limit(side)))
  }

  lemma {:induction false} FilledMore(side: Side, d: Decoder, m: seq<byte>, x: byte)
    requires Valid(side, d)
    ensures Filled(side, d, m + [x]) == Store(side, Filled(side, d, m), x)
  {
    assert d.frame + (m + [x]) == d.frame + m + [x];
  }

  lemma {:induction false} FeedStaysValid(side: Side, l: Line, s: seq<byte>)
    requires Valid(side, l.d)
    ensures Valid(side, Feed(side, l, s).d)
  {
    if s != [] {
      FeedStaysValid(side, l, s[..|s| - 1]);
    }
  }

  /** What a decoder with an escape pending keeps when the opening flag comes. */
  function Carried(side: Side, d: Decoder): seq<byte> {
    if side == Node then d.frame else Cut(d.frame + [FRAME_BOUNDARY_OCTET], Limit(side))
  }

  /** What one encoded message makes a decoder hand on. */
  function HandedOn(side: Side, d: Decoder, m: seq<byte>): seq<seq<byte>> {
    var lump := Carried(side, d) + m;
    if !d.escaped then Flushed(d) + [m]
    else if side == Pc then [Cut(lump, Limit(side))]
    else if d.overflow || |lump| > Limit(side) then []
    else [lump]
  }

  /**
   * One encoded message from any state, exactly: the decoder is clean afterwards, and the message
   * is handed on unless an escape was pending, in which case it is lumped together with what was
   * there before it and handed on only if that fits.
   */
  lemma {:induction false} FrameFromAnyState(side: Side, l: Line, m: Message)
    requires Valid(side, l.d)
    ensures Feed(side, l, Encode(m)) == Line(CLEAN, l.out + HandedOn(side, l.d, m))
  {
    var flag, content := [FRAME_BOUNDARY_OCTET], Stuff(m);
    var start := Step(side, l, FRAME_BOUNDARY_OCTET);
    FeedOne(side, l, FRAME_BOUNDARY_OCTET);
    FeedJoin(side, l, flag, content);
    FeedJoin(side, l, flag + content, flag);
    ContentRead(side, start, m);
    FeedOne(side, Line(Filled(side, start.d, m), start.out), FRAME_BOUNDARY_OCTET);
    ClosedBy(side, l, m);
  }

  /** The two flags around content, without the content's encoding. */
  lemma {:induction false} ClosedBy(side: Side, l: Line, m: Message)
    requires Valid(side, l.d)
    ensures
      var start := Step(side, l, FRAME_BOUNDARY_OCTET);
      Step(side, Line(Filled(side, start.d, m), start.out), FRAME_BOUNDARY_OCTET) == Line(CLEAN, l.out + HandedOn(side, l.d, m))
  {
    if !l.d.escaped {
      assert [] + m == m;
      assert l.out + Flushed(l.d) + [m] == l.out + (Flushed(l.d) + [m]);
    }
  }

  /** Exactly when the first message after garbage comes through at the node. */
  lemma {:induction false} FirstAtNodeSurvivesIff(d: Decoder, m: Message)
    requires Valid(Node, d)
    ensures HandedOn(Node, d, m) == Flushed(d) + [m] <==> !d.escaped || (d.frame == [] && !d.overflow)
  {
    if d.escaped && |d.frame| > 0 {
      assert |d.frame + m| != |m|;
      assert Last(Flushed(d) + [m]) == m;
    } else if d.escaped {
      assert d.frame + m == m;
    }
  }

  /**
   * And at the PC: exactly if no escape was pending, or less than a header had been collected
   * and the message, of full length, starts with that and a flag over and over again.
   */
  lemma {:induction false} FirstAtPcSurvivesIff(d: Decoder, m: Message)
    requires Valid(Pc, d)
    ensures HandedOn(Pc, d, m) == Flushed(d) + [m] <==>
            || !d.escaped
            || (|d.frame| < HEADER_SIZE && |m| == PACKET_SIZE
                && m == (d.frame + [FRAME_BOUNDARY_OCTET] + m)[..PACKET_SIZE])
  {
    if d.escaped {
      var whole := d.frame + [FRAME_BOUNDARY_OCTET];
      var lump := Carried(Pc, d) + m;
      assert HandedOn(Pc, d, m) == [Cut(lump, PACKET_SIZE)];
      if |d.frame| < HEADER_SIZE {
        assert Carried(Pc, d) == whole && Flushed(d) + [m] == [m];
        assert [Cut(lump, PACKET_SIZE)] == [m] <==> Cut(lump, PACKET_SIZE) == m;
      } else {
        assert |Flushed(d) + [m]| == 2;
      }
    }
  }

  // ---- Streams.

  /** What may stand in front of a frame: a few octets that are neither flag nor escape, such as a newline. */
  type Gap = g: seq<byte> | |g| < HEADER_SIZE && FRAME_BOUNDARY_OCTET !in g && CONTROL_ESCAPE_OCTET !in g

  datatype Item = Item(gap: Gap, message: Message)

  function Stream(items: seq<Item>): seq<byte> {
    if items == [] then [] else Stream(items[..|items| - 1]) + (Last(items).gap + Encode(Last(items).message))
  }

  function Messages(items: seq<Item>): (ms: seq<seq<byte>>)
    ensures |ms| == |items|
  {
    if items == [] then [] else Messages(items[..|items| - 1]) + [Last(items).message]
  }

  /** Plain octets are stuffed as themselves. */
  lemma {:induction false} PlainStuff(g: seq<byte>)
    requires FRAME_BOUNDARY_OCTET !in g && CONTROL_ESCAPE_OCTET !in g
    ensures Stuff(g) == g
  {
    if g != [] {
      PlainStuff(g[..|g| - 1]);
    }
  }

  lemma {:induction false} ItemRead(side: Side, out: seq<seq<byte>>, i: Item)
    ensures Feed(side, Line(CLEAN, out), i.gap + Encode(i.message)) == Line(CLEAN, out + [i.message])
  {
    var l := Line(CLEAN, out);
    PlainStuff(i.gap);
    ContentRead(side, l, i.gap);
    FeedJoin(side, l, i.gap, Encode(i.message));
    FrameFromAnyState(side, Feed(side, l, i.gap), i.message);
    assert [] + [i.message] == [i.message];
  }

  /** Main result: a clean decoder reads a stream of any number of encoded messages, with gaps, as those messages. */
  lemma {:induction false} StreamRead(side: Side, out: seq<seq<byte>>, items: seq<Item>)
    ensures Feed(side, Line(CLEAN, out), Stream(items)) == Line(CLEAN, out + Messages(items))
  {
    if items == [] {
      assert out + [] == out;
    } else {
      var front := items[..|items| - 1];
      StreamRead(side, out, front);
      FeedJoin(side, Line(CLEAN, out), Stream(front), Last(items).gap + Encode(Last(items).message));
      ItemRead(side, out + Messages(front), Last(items));
      assert out + Messages(front) + [Last(items).message] == out + Messages(items);
    }
  }

  /** Main result: whatever was received before, every message from the second on is handed on, in order and intact. */
  lemma {:induction false} Resynchronises(side: Side, garbage: seq<byte>, first: Message, items: seq<Item>)
    ensures
      var before := Feed(side, Line(CLEAN, []), garbage);
      Feed(side, Line(CLEAN, []), garbage + Encode(first) + Stream(items))
      == Line(CLEAN, before.out + HandedOn(side, before.d, first) + Messages(items))
  {
    var l := Line(CLEAN, []);
    var before := Feed(side, l, garbage);
    FeedStaysValid(side, l, garbage);
    FeedJoin(side, l, garbage, Encode(first));
    FeedJoin(side, l, garbage + Encode(first), Stream(items));
    FrameFromAnyState(side, before, first);
    StreamRead(side, before.out + HandedOn(side, before.d, first), items);
  }

  // ---- The decoders themselves.

  /** The node's decoder fills one of two packets while the other is being processed. */
  class NodeDecoder {
    const p1: array<byte>
    const p2: array<byte>
    var current: array<byte>
    var frameLength: uint16
    var escapeCharacter: bool
    var overflow: bool

    ghost predicate Ready()
      reads this, current
    {
      && p1 != p2 && p1.Length == p2.Length == Limit(Node)
      && (current == p1 || current == p2)
      && frameLength <= Limit(Node) && Valid(Node, State())
    }

    ghost function State(): Decoder
      requires frameLength <= current.Length
      reads this, current
    {
      Decoder(escapeCharacter, overflow, current[..frameLength])
    }

    constructor ()
      ensures Ready() && State() == CLEAN && fresh(p1) && fresh(p2)
    {
      var a, b := new byte[Limit(Node)](_ => 0), new byte[Limit(Node)](_ => 0);
      p1, p2, current, frameLength, escapeCharacter, overflow := a, b, a, 0, false, false;
    }

    /** byteReceived: a finished frame is handed on in place, and the other packet is filled from then on. */
    method ByteReceived(data: byte) returns (posted: Option<array<byte>>)
      requires Ready()
      modifies this`current, this`frameLength, this`escapeCharacter, this`overflow, current
      ensures Ready() && State() == Step(Node, Line(old(State()), []), data).d
      ensures
        var out := Step(Node, Line(old(State()), []), data).out;
        if out == [] then posted == None && current == old(current)
        else && posted == Some(old(current)) && current != old(current)
             && |out[0]| == old(frameLength) && posted.value[..] == old(current[..]) && posted.value[..|out[0]|] == out[0]
    {
      posted := None;
      if data == FRAME_BOUNDARY_OCTET {
        if escapeCharacter {
          escapeCharacter := false;
        } else if overflow {
          overflow, frameLength := false, 0;
        } else if frameLength >= HEADER_SIZE {
          frameLength := 0;
          posted := Some(current);
          current := if current == p1 then p2 else p1;
        } else {
          frameLength := 0;
        }
        return;
      }
      var octet := data;
      if escapeCharacter {
        escapeCharacter := false;
        octet := Invert(octet);
      } else if octet == CONTROL_ESCAPE_OCTET {
        escapeCharacter := true;
        return;
      }
      if frameLength < Limit(Node) {
        current[frameLength] := octet;
        frameLength := frameLength + 1;
      } else {
        overflow := true;
      }
    }
  }

  /** The decoder of the controller's PC. */
  class Serializer {
    const packetData: array<byte>
    var frameLength: uint16
    var escapeCharacter: bool
    var overflow: bool

    ghost predicate Ready()
      reads this, packetData
    {
      packetData.Length == PACKET_SIZE && frameLength <= PACKET_SIZE
    }

    ghost function State(): Decoder
      requires frameLength <= packetData.Length
      reads this, packetData
    {
      Decoder(escapeCharacter, overflow, packetData[..frameLength])
    }

    constructor ()
      ensures Ready() && State() == CLEAN && Valid(Pc, State()) && fresh(packetData)
    {
      packetData := new byte[PACKET_SIZE](_ => 0);
      frameLength, escapeCharacter, overflow := 0, false, false;
    }

    /** processByte: after an escape a flag falls through to the storing code.  A finished frame is handed on as a copy. */
    method ProcessByte(data: byte) returns (emitted: Option<seq<byte>>)
      requires Ready()
      modifies this`frameLength, this`escapeCharacter, this`overflow, packetData
      ensures Ready() && State() == Step(Pc, Line(old(State()), []), data).d
      ensures
        var out := Step(Pc, Line(old(State()), []), data).out;
        if out == [] then emitted == None
        else emitted == Some(old(packetData[..])) && |out[0]| <= PACKET_SIZE && emitted.value[..|out[0]|] == out[0]
    {
      emitted := None;
      if data == FRAME_BOUNDARY_OCTET {
        if escapeCharacter {
          escapeCharacter := false;
        } else if overflow {
          overflow, frameLength := false, 0;
        } else if frameLength >= HEADER_SIZE {
          emitted := Some(packetData[..]);
          frameLength := 0;
          return;
        } else {
          frameLength := 0;
          return;
        }
      }
      var octet := data;
      if escapeCharacter {
        escapeCharacter := false;
        octet := Invert(octet);
      } else if octet == CONTROL_ESCAPE_OCTET {
        escapeCharacter := true;
        return;
      }
      if frameLength < PACKET_SIZE && !overflow {
        packetData[frameLength] := octet;
        frameLength := frameLength + 1;
      }
    }
  }
}
