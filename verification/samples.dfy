/** Small concrete packets and modifiers for the runs that show where a property fails. */
module Samples {
  import opened Base
  import opened Packets
  import opened Modifiers

  /** A captured data packet of one fixed connection. */
  function Captive(id: u32, seqNo: u32, payload: seq<byte>): Packet {
    var here := Address(0, 1);
    Packet(IpHeader(4, 0, 0, 0, 0, 64, IPPROTO_TCP, 0, here, here, []),
           TcpHeader(40000, 443, seqNo, 0, 0, 0, 0, 0, 0, []), payload, Accept, id, false)
  }

  /** The arguments of a modifier that does nothing. */
  const PLAIN := Args([], None, false, None, None, None, None, None)
}
