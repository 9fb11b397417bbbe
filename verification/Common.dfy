// Types and constants shared by the models: octets, two-octet node addresses,
// and the sizes of the default build.
module Common {

  type byte = x: int | 0 <= x < 256

  type uint16 = x: int | 0 <= x < 0x1_0000

  /** A node address (SDNADDR_SIZE is 2). */
  datatype Addr = Addr(u0: byte, u1: byte)

  datatype Option<+T> = None | Some(value: T)

  /** A flow identifier, kept as its two octets in packet order. */
  datatype FlowId = FlowId(f0: byte, f1: byte)

  const SDN_MAX_PACKET_SIZE: nat := 116
  const SDN_HEADER_SIZE: nat := 6
  const SDN_DEFAULT_TTL: nat := 60

  const SDN_ACTION_RECEIVE: byte := 1
  const SDN_ACTION_FORWARD: byte := 2
  const SDN_ACTION_DROP: byte := 4
  const SDN_ACTION_FORWARD_UNIDIR: byte := 8

  function Last<T>(s: seq<T>): T
    requires |s| > 0
  {
    s[|s| - 1]
  }

  function Reversed<T>(s: seq<T>): (r: seq<T>)
    ensures |r| == |s|
  {
    if s == [] then [] else Reversed(s[1..]) + [s[0]]
  }
}
