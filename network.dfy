/**
 * struct connection of network.h and the three network.c operations that use
 * it: send_packet, recv_packet and disconnectf.  The socket is replaced by
 * data: `sent` logs every frame written, and a receive is given the bytes the
 * peer delivered.
 */
module Network {
  import opened Wrappers
  import opened Codec

  class Connection {
    /** is_disconnected: set once a disconnect frame has been sent, never cleared. */
    var isDisconnected: bool
    /** The frames written to the socket, oldest first. */
    var sent: seq<seq<u8>>

    constructor ()
      ensures !isDisconnected && sent == []
    {
      isDisconnected := false;
      sent := [];
    }

    /** send_packet: write the packet's frame, or nothing for a type it does
        not handle.  It does not consult the disconnect latch. */
    method SendPacket(pkt: Packet)
      requires WellFormed(pkt)
      modifies this`sent
      ensures Encode(pkt).Some? ==> sent == old(sent) + [Encode(pkt).value]
      ensures Encode(pkt).None? ==> sent == old(sent)
    {
      match Encode(pkt)
      case Some(frame) =>
        sent := sent + [frame];
      case None =>
    }

    /** disconnectf: once the latch is set, do nothing; otherwise send exactly
        one disconnect frame carrying the formatted reason (capped at 511
        bytes) and set the latch. */
    method Disconnectf(text: seq<u8>)
      modifies this
      ensures isDisconnected
      ensures old(isDisconnected) ==> sent == old(sent)
      ensures !old(isDisconnected) ==> sent == old(sent) + [Encode(DisconnectPacket(text)).value]
    {
      if isDisconnected {
        return;
      }
      var packet := DisconnectPacket(text);
      SendPacket(packet);
      isDisconnected := true;
    }

    /** recv_packet: read one frame from `input` into the caller's packet.
        Returns 0 and the decoded packet, or -1 with the packet untouched.
        Every rejection except a closed connection sends a disconnect.
        (Receive is evaluated with PeerServer as the held winner; only an end
        game's winner depends on it.) */
    method RecvPacket(input: seq<u8>, pkt: Packet) returns (status: int, received: Packet)
      modifies this
      ensures status == (if Receive(input, PeerServer).Ok? then 0 else -1)
      ensures status == -1 ==> received == pkt
      ensures Receive(input, PeerServer).Ok? && !Receive(input, PeerServer).value.EndGame? ==>
        received == Receive(input, PeerServer).value
      ensures Receive(input, PeerServer).Ok? && Receive(input, PeerServer).value.EndGame? ==>
        received.EndGame? && (pkt.EndGame? ==> received == pkt)
      ensures old(isDisconnected) ==> isDisconnected && sent == old(sent)
      ensures status == 0 || Receive(input, PeerServer) == Err(ConnectionClosed) ==>
        isDisconnected == old(isDisconnected) && sent == old(sent)
      ensures status == -1 && Receive(input, PeerServer) != Err(ConnectionClosed) && !old(isDisconnected) ==>
        isDisconnected &&
        sent == old(sent) + [Encode(DisconnectPacket(Ascii(ReasonText(Receive(input, PeerServer).error)))).value]
    {
      var stale := if pkt.EndGame? then pkt.winner else PeerServer;
      StaleOnlyAffectsEndGame(input, stale, PeerServer);
      match Receive(input, stale)
      case Ok(p) =>
        status, received := 0, p;
      case Err(e) =>
        status, received := -1, pkt;
        if e != ConnectionClosed {
          Disconnectf(Ascii(ReasonText(e)));
        }
    }
  }
}
