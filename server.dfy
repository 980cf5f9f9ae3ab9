/**
 * The broker as the program runs it: the `clients` dictionary changed in
 * place, the `for client_conn in clients` send loops and the `while connected`
 * loop of `handle_client` (server.py:26-126). Each method is proved to have
 * exactly the effect of the matching transition of `Broker`.
 */
module ChatServer {

  import opened Framing
  import opened Registry
  import opened Broker

  class Server {
    /** The `clients` dictionary, in insertion order. */
    var clients: seq<Entry>
    /** The payloads sent so far on each connection. */
    var outbox: map<Conn, seq<string>>
    /** The connections on which a send raises. */
    var broken: set<Conn>

    function State(): Hub
      reads this
    {
      Hub(clients, outbox, broken)
    }

    /** A dictionary holds each connection at most once. */
    predicate Valid()
      reads this
    {
      Unique(clients)
    }

    constructor ()
      ensures Valid() && State() == Hub([], map[], {})
    {
      clients := [];
      outbox := map[];
      broken := {};
    }

    /** `send_message_to_client(client_conn, message)` (server.py:26-39). */
    method SendMessageToClient(c: Conn, message: string) returns (ok: bool)
      modifies this
      ensures (ok, State()) == Send(old(State()), c, message)
    {
      var r := EncodeFrame(message);
      if c in broken || r.Failure? {
        return false;
      }
      outbox := outbox[c := Outbox(State(), c) + [message]];
      return true;
    }

    /** `broadcast_user_list()` (server.py:47-55): the roster, to every registered connection. */
    method BroadcastUserList()
      requires Valid()
      modifies this
      ensures Valid() && State() == Broker.BroadcastUserList(old(State()))
    {
      SendToAll(UserListPayload(Names(clients)));
    }

    /** The `for client_conn in clients` loop (server.py:54-55). */
    method SendToAll(payload: string)
      requires Valid()
      modifies this
      ensures Valid() && State() == Deliver(old(State()), Everyone(old(clients)), payload)
    {
      ghost var h := State();
      DeliverNone(h, payload);
      var i := 0;
      while i < |clients|
        invariant 0 <= i <= |clients|
        invariant clients == h.clients
        invariant State() == Deliver(h, Everyone(clients[..i]), payload)
      {
        EveryoneStep(h, clients, i, payload);
        var _ := SendMessageToClient(clients[i].conn, payload);
        i := i + 1;
      }
      assert clients[..i] == clients;
    }

    /**
     * `broadcast_chat_message(message, sender_conn)` (server.py:57-66): the
     * line with the sender's name, to every registered connection but the sender.
     */
    method BroadcastChatMessage(message: string, sender: Conn)
      requires Valid()
      modifies this
      ensures Valid() && State() == BroadcastChat(old(State()), message, sender)
    {
      var name := UNKNOWN_USER;
      var found := Find(clients, sender);
      if found.Some? {
        name := found.value.username;
      }
      assert name == SenderName(clients, sender);
      SendToOthers(ChatLine(name, message), sender);
    }

    /** The `for client_conn in clients: if client_conn != sender_conn` loop (server.py:64-66). */
    method SendToOthers(line: string, sender: Conn)
      requires Valid()
      modifies this
      ensures Valid() && State() == Deliver(old(State()), Others(old(clients), sender), line)
    {
      ghost var h := State();
      DeliverNone(h, line);
      var i := 0;
      while i < |clients|
        invariant 0 <= i <= |clients|
        invariant clients == h.clients
        invariant State() == Deliver(h, Others(clients[..i], sender), line)
      {
        OthersStep(h, clients, sender, i, line);
        if clients[i].conn != sender {
          var _ := SendMessageToClient(clients[i].conn, line);
        }
        i := i + 1;
      }
      assert clients[..i] == clients;
    }

    /** `clients[conn] = client_info` (server.py:91-92). */
    method Register(conn: Conn, info: PeerInfo)
      requires Valid()
      modifies this
      ensures Valid() && State() == Broker.Register(old(State()), conn, info)
    {
      PutFind(clients, conn, info);
      clients := Put(clients, conn, info);
    }

    /** `if conn in clients: del clients[conn]` (server.py:121-123). */
    method Deregister(conn: Conn)
      requires Valid()
      modifies this
      ensures Valid() && State() == Broker.Deregister(old(State()), conn)
    {
      RemoveUnique(clients, conn);
      clients := Remove(clients, conn);
    }

    /** `conn.close()` (server.py:87, 126). */
    method Close(conn: Conn)
      requires Valid()
      modifies this
      ensures Valid() && State() == Broker.Close(old(State()), conn)
    {
      broken := broken + {conn};
    }

    /**
     * `handle_client(conn, addr)` (server.py:68-126) on a peer that sends
     * `inb`: the handshake, the join, the `while connected` loop and the
     * teardown, with the loop also ending at the end of a closed stream.
     */
    method HandleClient(conn: Conn, addr: Address, inb: Inbound)
      requires Valid()
      modifies this
      ensures Valid() && State() == Session(old(State()), conn, addr, inb)
    {
      ghost var h0 := State();
      var info := PeerInfo(addr, AddressText(addr));
      var cur := inb;
      var first := ReadFrame(inb);
      if first.Raised? {
        Close(conn);
        return;
      }
      if first.Got? {
        info := info.(username := HandshakeName(first.message, info.username));
        cur := first.next;
      }
      assert Session(h0, conn, addr, inb) == Attend(h0, conn, info, cur);

      Register(conn, info);
      BroadcastChatMessage(JoinNotice(info.username), conn);
      BroadcastUserList();
      ghost var joined := State();
      ghost var start := cur;

      var connected := true;
      while connected
        invariant Valid()
        invariant connected ==> ChatLoop(State(), conn, cur) == ChatLoop(joined, conn, start)
        invariant !connected ==> State() == ChatLoop(joined, conn, start)
        decreases |cur.bytes|, connected
      {
        var r := ReadFrame(cur);
        if r.Got? && r.message != DISCONNECT_MESSAGE {
          ChatLoopStep(State(), conn, cur, r.message, r.next);
          BroadcastChatMessage(r.message, conn);
          cur := r.next;
        } else {
          connected := false;
        }
      }

      BroadcastChatMessage(LeaveNotice(info.username), conn);
      Deregister(conn);
      BroadcastUserList();
      Close(conn);
    }
  }

  /** Sending to one more entry of the registry reaches one more connection. */
  lemma EveryonePrefix(cs: seq<Entry>, i: nat)
    requires i < |cs|
    ensures Everyone(cs[..i + 1]) == Everyone(cs[..i]) + {cs[i].conn}
  {
    assert cs[..i + 1] == cs[..i] + [cs[i]];
  }

  lemma OthersPrefix(cs: seq<Entry>, sender: Conn, i: nat)
    requires i < |cs|
    ensures Others(cs[..i + 1], sender) == Others(cs[..i], sender) + (if cs[i].conn != sender then {cs[i].conn} else {})
  {
    assert cs[..i + 1] == cs[..i] + [cs[i]];
  }

  /** One turn of the roster fan-out: a send to the next entry. */
  lemma EveryoneStep(h: Hub, cs: seq<Entry>, i: nat, payload: string)
    requires Unique(cs) && i < |cs|
    ensures Deliver(h, Everyone(cs[..i + 1]), payload) == Send(Deliver(h, Everyone(cs[..i]), payload), cs[i].conn, payload).1
  {
    EveryonePrefix(cs, i);
    FreshKey(cs, i);
    DeliverStep(h, Everyone(cs[..i]), cs[i].conn, payload);
  }

  /** One turn of the chat fan-out: a send to the next entry unless it is the sender. */
  lemma OthersStep(h: Hub, cs: seq<Entry>, sender: Conn, i: nat, line: string)
    requires Unique(cs) && i < |cs|
    ensures Deliver(h, Others(cs[..i + 1], sender), line) ==
      if cs[i].conn != sender then Send(Deliver(h, Others(cs[..i], sender), line), cs[i].conn, line).1
      else Deliver(h, Others(cs[..i], sender), line)
  {
    OthersPrefix(cs, sender, i);
    if cs[i].conn != sender {
      FreshKey(cs, i);
      DeliverStep(h, Others(cs[..i], sender), cs[i].conn, line);
    }
  }

  /** A connection is only met once while walking a registry. */
  lemma FreshKey(cs: seq<Entry>, i: nat)
    requires Unique(cs) && i < |cs|
    ensures cs[i].conn !in Everyone(cs[..i])
  {
  }
}
