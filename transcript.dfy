/**
 * End-to-end properties of a whole `handle_client` session, seen from the
 * other connections of the broker.
 */
module Transcript {

  import opened Framing
  import opened Registry
  import opened Broker

  /**
   * End to end: a peer that sends the frames of `msgs`, the first of them
   * the handshake, makes a registered connection `b` that can receive them
   * all get exactly the bystander's view of the session, with the messages
   * after the handshake and before the first `!DISCONNECT` as its chat, in
   * order, and nothing else.
   */
  lemma SessionBystander(h: Hub, conn: Conn, addr: Address, msgs: seq<string>, end: EndOfStream, b: Conn)
    requires Bystander(h, conn, b)
    requires msgs != [] && AllReceivable(msgs)
    requires AllFit(BystanderView(Names(h.clients), HandshakeName(msgs[0], AddressText(addr)), UntilDisconnect(msgs[1..])))
    ensures Outbox(Session(h, conn, addr, Inbound(Wire(msgs), end)), b) ==
      Outbox(h, b) + BystanderView(Names(h.clients), HandshakeName(msgs[0], AddressText(addr)), UntilDisconnect(msgs[1..]))
  {
    WireFirst(msgs, end);
    SessionOutboxFirstFrame(h, conn, addr, msgs, end, b);
    AfterHandshakeBystander(h, conn, addr, msgs, end, b);
  }
}
