/** The datagram socket as both network servers see it: a pending datagram
    is read into a fixed 1500-byte receive buffer. */
module Udp {
  import opened Types

  /** Size of the servers' `netRxBuffer`: a longer datagram is cut short. */
  const RX_SIZE: nat := 1500

  /** The bytes `udp.read` leaves at the front of the receive buffer. */
  function Received(dgram: seq<u8>): (d: seq<u8>)
    ensures |d| <= RX_SIZE && |d| <= |dgram| && d == dgram[..|d|]
    ensures |dgram| <= RX_SIZE ==> d == dgram
  {
    if |dgram| <= RX_SIZE then dgram else dgram[..RX_SIZE]
  }

  /** `udp.read(netRxBuffer, sizeof(netRxBuffer))`: at most 1500 bytes are
      copied and their count returned; the bytes past them keep whatever
      earlier datagrams left there. */
  method ReadInto(rx: array<u8>, dgram: seq<u8>) returns (len: nat)
    requires rx.Length == RX_SIZE
    modifies rx
    ensures len == |Received(dgram)| && rx[..len] == Received(dgram) && (len == 0 <==> dgram == [])
    ensures rx[len..] == old(rx[len..])
  {
    len := if |dgram| < rx.Length then |dgram| else rx.Length;
    forall i | 0 <= i < len {
      rx[i] := dgram[i];
    }
  }
}
