/**
 * The broker's shared state and every step of `handle_client` as a
 * transition on it (server.py:26-126). Each `with clients_lock:` block is one
 * atomic step. A send is only modelled by its effect: the payload joins the
 * recipient's outbox, the sequence of payloads framed onto that connection.
 */
module Broker {

  import opened Wrappers
  import opened Text
  import opened Framing
  import opened Json
  import opened Registry

  const DISCONNECT_MESSAGE: string := "!DISCONNECT"
  const USER_LIST_MESSAGE: string := "!USERLIST:"
  const USERNAME_PREFIX: string := "USERNAME:"
  const UNKNOWN_USER: string := "Unknown User"

  /**
   * The registry, what has been sent on each connection, and the connections
   * on which a send raises (closed by the server or broken).
   */
  datatype Hub = Hub(clients: seq<Entry>, outbox: map<Conn, seq<string>>, broken: set<Conn>)

  /** The payloads sent so far on connection `c`. */
  function Outbox(h: Hub, c: Conn): seq<string>
  {
    if c in h.outbox then h.outbox[c] else []
  }

  /** A send succeeds when the connection is usable and the payload can be framed. */
  predicate CanSend(h: Hub, c: Conn, message: string)
  {
    c !in h.broken && Fits(message)
  }

  /**
   * `send_message_to_client(c, message)`: `True` and the payload framed onto
   * `c`, or `False` and nothing changed when the send raises.
   */
  function Send(h: Hub, c: Conn, message: string): (r: (bool, Hub))
    ensures r.0 <==> CanSend(h, c, message)
    ensures r.1.clients == h.clients && r.1.broken == h.broken
    ensures Outbox(r.1, c) == Outbox(h, c) + (if r.0 then [message] else [])
    ensures forall d :: d != c ==> Outbox(r.1, d) == Outbox(h, d)
  {
    if CanSend(h, c, message) then (true, h.(outbox := h.outbox[c := Outbox(h, c) + [message]]))
    else (false, h)
  }

  /** The connections of `to` that a send of `message` succeeds on. */
  function Reached(h: Hub, to: set<Conn>, message: string): set<Conn>
  {
    set c | c in to && CanSend(h, c, message)
  }

  /**
   * The effect of sending `message` to every connection of `to`, one after
   * the other, ignoring the results: each one that can receive it gets it once.
   */
  function Deliver(h: Hub, to: set<Conn>, message: string): (r: Hub)
    ensures r.clients == h.clients && r.broken == h.broken
  {
    h.(outbox := map c | c in h.outbox.Keys + Reached(h, to, message) ::
      Outbox(h, c) + (if c in to && CanSend(h, c, message) then [message] else []))
  }

  /**
   * Fan-out: every connection of `to` whose send succeeds gets the payload
   * exactly once, a failing one gets nothing, and no other outbox changes.
   */
  lemma DeliverOutbox(h: Hub, to: set<Conn>, message: string, c: Conn)
    ensures Outbox(Deliver(h, to, message), c) == Outbox(h, c) + (if c in to && CanSend(h, c, message) then [message] else [])
  {
  }

  /** Delivering to one more connection is one more `send_message_to_client`. */
  lemma DeliverStep(h: Hub, to: set<Conn>, c: Conn, message: string)
    requires c !in to
    ensures Deliver(h, to + {c}, message) == Send(Deliver(h, to, message), c, message).1
  {
    var before := Deliver(h, to, message);
    var lhs := Deliver(h, to + {c}, message);
    var rhs := Send(before, c, message).1;
    DeliverKeys(h, to, c, message);
    forall d ensures Outbox(lhs, d) == Outbox(rhs, d) {
      DeliverOutbox(h, to + {c}, message, d);
      DeliverOutbox(h, to, message, d);
    }
    SameHub(lhs, rhs);
  }

  /** Two hubs that agree on the registry, the closed connections and every outbox are equal. */
  lemma SameHub(a: Hub, b: Hub)
    requires a.clients == b.clients && a.broken == b.broken && a.outbox.Keys == b.outbox.Keys
    requires forall d :: Outbox(a, d) == Outbox(b, d)
    ensures a == b
  {
    forall d | d in a.outbox ensures a.outbox[d] == b.outbox[d] {
      assert Outbox(a, d) == Outbox(b, d);
    }
  }

  lemma DeliverKeys(h: Hub, to: set<Conn>, c: Conn, message: string)
    ensures Deliver(h, to + {c}, message).outbox.Keys ==
      Deliver(h, to, message).outbox.Keys + (if CanSend(h, c, message) then {c} else {})
  {
    assert Reached(h, to + {c}, message) == Reached(h, to, message) + (if CanSend(h, c, message) then {c} else {});
  }

  /** Delivering to nobody changes nothing. */
  lemma DeliverNone(h: Hub, message: string)
    ensures Deliver(h, {}, message) == h
  {
    var r := Deliver(h, {}, message);
    assert r.outbox.Keys == h.outbox.Keys;
    forall d | d in h.outbox ensures r.outbox[d] == h.outbox[d] {
    }
  }

  /** The registered connections of `cs`. */
  function Everyone(cs: seq<Entry>): (r: set<Conn>)
    ensures forall c :: c in r <==> c in Keys(cs)
  {
    set i | 0 <= i < |cs| :: cs[i].conn
  }

  /** The registered connections of `cs` other than `sender`. */
  function Others(cs: seq<Entry>, sender: Conn): (r: set<Conn>)
    ensures forall c :: c in r <==> c in Keys(cs) && c != sender
  {
    set i | 0 <= i < |cs| && cs[i].conn != sender :: cs[i].conn
  }

  /** The name `broadcast_chat_message` puts in front of a message: the sender's, or `'Unknown User'`. */
  function SenderName(cs: seq<Entry>, sender: Conn): string
  {
    match Find(cs, sender)
    case None => UNKNOWN_USER
    case Some(info) => info.username
  }

  /** `f"[{name}] {message}"`. */
  function ChatLine(name: string, message: string): (r: string)
    ensures |r| == |name| + |message| + 3 && r[0] == '[' && r[|name| + 1..|name| + 3] == "] "
    ensures r[1..|name| + 1] == name && r[|name| + 3..] == message
  {
    "[" + name + "] " + message
  }

  /** `broadcast_chat_message(message, sender)`. */
  function BroadcastChat(h: Hub, message: string, sender: Conn): Hub
  {
    Deliver(h, Others(h.clients, sender), ChatLine(SenderName(h.clients, sender), message))
  }

  /** `USER_LIST_MESSAGE + json.dumps(names)`. */
  function UserListPayload(names: seq<string>): string
  {
    USER_LIST_MESSAGE + Dumps(names)
  }

  /** `broadcast_user_list()`: the roster of the registry, to every registered connection. */
  function BroadcastUserList(h: Hub): Hub
  {
    Deliver(h, Everyone(h.clients), UserListPayload(Names(h.clients)))
  }

  /** `clients[conn] = info`. */
  function Register(h: Hub, conn: Conn, info: PeerInfo): Hub
  {
    h.(clients := Put(h.clients, conn, info))
  }

  /** `if conn in clients: del clients[conn]`. */
  function Deregister(h: Hub, conn: Conn): Hub
  {
    h.(clients := Remove(h.clients, conn))
  }

  /** `conn.close()`: from now on every send on `conn` raises. */
  function Close(h: Hub, conn: Conn): Hub
  {
    h.(broken := h.broken + {conn})
  }

  /**
   * Chat exclusion: the chat line goes to every registered connection but the
   * sender, once, when the send succeeds; the registry does not change.
   */
  lemma ChatExclusion(h: Hub, message: string, sender: Conn, c: Conn)
    requires Unique(h.clients)
    ensures var line := ChatLine(SenderName(h.clients, sender), message);
      && BroadcastChat(h, message, sender).clients == h.clients
      && Outbox(BroadcastChat(h, message, sender), c) ==
         Outbox(h, c) + (if c in Keys(h.clients) && c != sender && CanSend(h, c, line) then [line] else [])
  {
    DeliverOutbox(h, Others(h.clients, sender), ChatLine(SenderName(h.clients, sender), message), c);
  }

  /** The chat line names the registered sender, or `'Unknown User'` for a connection not registered. */
  lemma SenderNameOf(cs: seq<Entry>, sender: Conn)
    requires Unique(cs)
    ensures sender !in Keys(cs) ==> SenderName(cs, sender) == UNKNOWN_USER
    ensures forall i :: 0 <= i < |cs| && cs[i].conn == sender ==> SenderName(cs, sender) == cs[i].info.username
  {
    forall i | 0 <= i < |cs| && cs[i].conn == sender ensures SenderName(cs, sender) == cs[i].info.username {
      FindUnique(cs, i);
    }
  }

  /**
   * Roster push: every registered connection, the one that caused the push
   * included, gets the same roster payload once when its send succeeds.
   */
  lemma RosterPush(h: Hub, c: Conn)
    requires Unique(h.clients)
    ensures var roster := UserListPayload(Names(h.clients));
      && BroadcastUserList(h).clients == h.clients
      && Outbox(BroadcastUserList(h), c) ==
         Outbox(h, c) + (if c in Keys(h.clients) && CanSend(h, c, roster) then [roster] else [])
  {
    DeliverOutbox(h, Everyone(h.clients), UserListPayload(Names(h.clients)), c);
  }

  /** The roster payload is the prefix, then JSON that reads back as the names, in registry order. */
  lemma RosterReadable(names: seq<string>)
    ensures var p := UserListPayload(names);
      StartsWith(p, USER_LIST_MESSAGE) && Loads(p[|USER_LIST_MESSAGE|..]) == Some(names)
  {
    var p := UserListPayload(names);
    assert p[|USER_LIST_MESSAGE|..] == Dumps(names);
    LoadsDumps(names);
  }

  // ---- the handshake ----

  /**
   * The display name from the first payload: `msg.split(":")[1].strip()` when
   * `msg` starts with `USERNAME:` and that is not empty, the default otherwise.
   */
  function HandshakeName(msg: string, default: string): string
  {
    if StartsWith(msg, USERNAME_PREFIX) then
      var pieces := Split(msg, ':');
      assert msg == "USERNAME" + [':'] + msg[|USERNAME_PREFIX|..];
      SplitAfterSeparator("USERNAME", ':', msg[|USERNAME_PREFIX|..]);
      var username := Strip(pieces[1]);
      if username != [] then username else default
    else default
  }

  /**
   * The name is the text between the first and the second `:` of a
   * `USERNAME:` payload, without surrounding whitespace, unless that is empty.
   */
  lemma HandshakeNameSpec(msg: string, default: string)
    ensures var between := if StartsWith(msg, USERNAME_PREFIX) then TakeUntil(msg[|USERNAME_PREFIX|..], ':') else [];
      HandshakeName(msg, default) == if StartsWith(msg, USERNAME_PREFIX) && Strip(between) != [] then Strip(between) else default
  {
    if StartsWith(msg, USERNAME_PREFIX) {
      var rest := msg[|USERNAME_PREFIX|..];
      assert msg == "USERNAME" + [':'] + rest;
      SplitAfterSeparator("USERNAME", ':', rest);
      SplitFirst(rest, ':');
    }
  }

  /**
   * The first frame read: it fails exactly when the read raises; an empty
   * header keeps the default name and the stream; a frame gives the name
   * parsed from its payload and the rest of the stream.
   */
  function Handshake(inb: Inbound, default: string): (r: Option<(string, Inbound)>)
    ensures r.None? <==> ReadFrame(inb).Raised?
    ensures ReadFrame(inb).NoData? ==> r == Some((default, inb))
    ensures ReadFrame(inb).Got? ==> r == Some((HandshakeName(ReadFrame(inb).message, default), ReadFrame(inb).next))
    ensures r.Some? ==> |r.value.1.bytes| <= |inb.bytes|
  {
    match ReadFrame(inb)
    case Raised => None
    case NoData => Some((default, inb))
    case Got(msg, next) => Some((HandshakeName(msg, default), next))
  }

  function JoinNotice(name: string): string { "User " + name + " joined the chat." }

  function LeaveNotice(name: string): string { "User " + name + " left the chat." }

  // ---- the main loop ----

  /**
   * The main loop from the stream `inb` on: every payload but `!DISCONNECT`
   * is broadcast as chat; `!DISCONNECT`, an exception, or the end of a closed
   * stream ends it.
   */
  function ChatLoop(h: Hub, conn: Conn, inb: Inbound): Hub
    decreases |inb.bytes|
  {
    match ReadFrame(inb)
    case Got(msg, next) =>
      if msg == DISCONNECT_MESSAGE then h else ChatLoop(BroadcastChat(h, msg, conn), conn, next)
    case _ => h
  }

  /**
   * One turn of the loop exactly as written: an empty header read changes
   * nothing and leaves `connected` true. Gives the new state, the rest of the
   * stream and `connected`.
   */
  function LoopStepAsWritten(h: Hub, conn: Conn, inb: Inbound): (Hub, Inbound, bool)
  {
    match ReadFrame(inb)
    case Raised => (h, inb, false)
    case NoData => (h, inb, true)
    case Got(msg, next) =>
      if msg == DISCONNECT_MESSAGE then (h, next, false) else (BroadcastChat(h, msg, conn), next, true)
  }

  /**
   * As written, once the peer has closed its side the loop turn changes
   * nothing and stays connected: the loop never ends, so the connection is
   * never deregistered and nobody hears that the user left.
   */
  lemma SpinAsWritten(h: Hub, conn: Conn)
    ensures LoopStepAsWritten(h, conn, Inbound([], Closed)) == (h, Inbound([], Closed), true)
  {
    ReadAtEnd(Closed);
  }

  /** The loop ends on a closed stream and otherwise makes the turns the code as written makes. */
  lemma ChatLoopCorrected(h: Hub, conn: Conn, inb: Inbound)
    ensures inb == Inbound([], Closed) ==> ChatLoop(h, conn, inb) == h
    ensures ReadFrame(inb) != NoData ==>
      var (h', inb', connected) := LoopStepAsWritten(h, conn, inb);
      ChatLoop(h, conn, inb) == if connected then ChatLoop(h', conn, inb') else h'
  {
    ReadAtEnd(Closed);
  }

  /** Chat from `conn` for each message of `msgs`, in order. */
  function ChatAll(h: Hub, conn: Conn, msgs: seq<string>): Hub
    decreases |msgs|
  {
    if msgs == [] then h else ChatAll(BroadcastChat(h, msgs[0], conn), conn, msgs[1..])
  }

  /** The messages before the first `!DISCONNECT`. */
  function UntilDisconnect(msgs: seq<string>): (r: seq<string>)
    ensures r <= msgs && DISCONNECT_MESSAGE !in r
    ensures |r| < |msgs| ==> msgs[|r|] == DISCONNECT_MESSAGE
  {
    if msgs == [] || msgs[0] == DISCONNECT_MESSAGE then [] else [msgs[0]] + UntilDisconnect(msgs[1..])
  }

  /**
   * On a stream carrying the frames of `msgs`, the loop broadcasts exactly
   * the messages before the first `!DISCONNECT`, in order, and never the
   * `!DISCONNECT` itself.
   */
  lemma ChatLoopWire(h: Hub, conn: Conn, msgs: seq<string>, end: EndOfStream)
    requires AllReceivable(msgs)
    ensures ChatLoop(h, conn, Inbound(Wire(msgs), end)) == ChatAll(h, conn, UntilDisconnect(msgs))
  {
    ReadAllWire(msgs, end);
    ChatLoopReads(h, conn, Inbound(Wire(msgs), end));
  }

  /** The loop broadcasts the frames of the stream up to the first `!DISCONNECT`. */
  lemma {:induction false} ChatLoopReads(h: Hub, conn: Conn, inb: Inbound)
    ensures ChatLoop(h, conn, inb) == ChatAll(h, conn, UntilDisconnect(ReadAll(inb).0))
    decreases |inb.bytes|
  {
    match ReadFrame(inb)
    case Got(msg, next) =>
      ChatLoopStep(h, conn, inb, msg, next);
      ReadAllStep(inb, msg, next);
      var rest := ReadAll(next).0;
      if msg != DISCONNECT_MESSAGE {
        ChatLoopReads(BroadcastChat(h, msg, conn), conn, next);
        assert UntilDisconnect([msg] + rest) == [msg] + UntilDisconnect(rest);
      } else {
        assert UntilDisconnect([msg] + rest) == [];
      }
    case other =>
      ChatLoopEnd(h, conn, inb);
  }

  lemma ChatLoopEnd(h: Hub, conn: Conn, inb: Inbound)
    requires !ReadFrame(inb).Got?
    ensures ChatLoop(h, conn, inb) == h && ReadAll(inb).0 == []
  {
  }

  /** One turn of the loop on a frame that reads as `msg`. */
  lemma ChatLoopStep(h: Hub, conn: Conn, inb: Inbound, msg: string, next: Inbound)
    requires ReadFrame(inb) == Got(msg, next)
    ensures ChatLoop(h, conn, inb) == if msg == DISCONNECT_MESSAGE then h else ChatLoop(BroadcastChat(h, msg, conn), conn, next)
  {
  }

  /** The loop leaves the registry and the closed connections alone, and never writes to `conn`. */
  lemma {:induction false} ChatLoopFrame(h: Hub, conn: Conn, inb: Inbound)
    requires Unique(h.clients)
    ensures ChatLoop(h, conn, inb).clients == h.clients && ChatLoop(h, conn, inb).broken == h.broken
    ensures Outbox(ChatLoop(h, conn, inb), conn) == Outbox(h, conn)
    decreases |inb.bytes|
  {
    match ReadFrame(inb)
    case Got(msg, next) =>
      if msg != DISCONNECT_MESSAGE {
        ChatExclusion(h, msg, conn, conn);
        ChatLoopFrame(BroadcastChat(h, msg, conn), conn, next);
      }
    case _ =>
  }

  // ---- the session ----

  /** Registering, announcing the join and pushing the roster (server.py:91-97). */
  function Joined(h: Hub, conn: Conn, info: PeerInfo): Hub
  {
    BroadcastUserList(BroadcastChat(Register(h, conn, info), JoinNotice(info.username), conn))
  }

  /** Announcing the departure, deregistering, pushing the roster and closing (server.py:117-126). */
  function Leave(h: Hub, conn: Conn, name: string): Hub
  {
    Close(BroadcastUserList(Deregister(BroadcastChat(h, LeaveNotice(name), conn), conn)), conn)
  }

  /**
   * `handle_client(conn, addr)` on a peer that sends `inb`, with the main loop
   * ending at the end of a closed stream.
   */
  function Session(h: Hub, conn: Conn, addr: Address, inb: Inbound): Hub
  {
    match Handshake(inb, AddressText(addr))
    case None => Close(h, conn)
    case Some((name, next)) => Attend(h, conn, PeerInfo(addr, name), next)
  }

  /** Everything after a successful handshake: join, the main loop, teardown. */
  function Attend(h: Hub, conn: Conn, info: PeerInfo, next: Inbound): Hub
  {
    Leave(ChatLoop(Joined(h, conn, info), conn, next), conn, info.username)
  }

  /** Names of a registry with one more entry at the end. */
  lemma NamesAppend(cs: seq<Entry>, e: Entry)
    ensures Names(cs + [e]) == Names(cs) + [e.info.username]
  {
    assert Init(cs + [e]) == cs;
  }

  /**
   * The join step: the registry gains the new entry at the end; a connection
   * other than the joiner gets the join notice and then the roster, the
   * joiner only the roster.
   */
  lemma JoinedOutbox(h: Hub, conn: Conn, info: PeerInfo, c: Conn)
    requires Unique(h.clients) && conn !in Keys(h.clients)
    ensures var name := info.username;
      var line := ChatLine(name, JoinNotice(name));
      var roster := UserListPayload(Names(h.clients) + [name]);
      && Joined(h, conn, info).clients == h.clients + [Entry(conn, info)]
      && Joined(h, conn, info).broken == h.broken
      && Outbox(Joined(h, conn, info), c) == Outbox(h, c)
           + (if c in Keys(h.clients) && CanSend(h, c, line) then [line] else [])
           + (if (c in Keys(h.clients) || c == conn) && CanSend(h, c, roster) then [roster] else [])
  {
    var h1 := Register(h, conn, info);
    PutFind(h.clients, conn, info);
    assert Keys(h1.clients) == Keys(h.clients) + [conn];
    ChatExclusion(h1, JoinNotice(info.username), conn, c);
    var h2 := BroadcastChat(h1, JoinNotice(info.username), conn);
    RosterPush(h2, c);
    NamesAppend(h.clients, Entry(conn, info));
  }

  /** The chat from `conn` for `msgs`, as seen from another registered connection. */
  function ChatLines(name: string, msgs: seq<string>): (r: seq<string>)
    ensures |r| == |msgs| && forall i :: 0 <= i < |msgs| ==> r[i] == ChatLine(name, msgs[i])
  {
    if msgs == [] then [] else [ChatLine(name, msgs[0])] + ChatLines(name, msgs[1..])
  }

  /**
   * `b` watches a session of the new connection `conn`: it is registered,
   * a different connection, and still open, in a registry without duplicates.
   */
  predicate Bystander(h: Hub, conn: Conn, b: Conn)
  {
    Unique(h.clients) && conn !in Keys(h.clients) && b in Keys(h.clients) && b != conn && b !in h.broken
  }

  /** Every payload of `ps` can be framed. */
  predicate AllFit(ps: seq<string>)
  {
    forall i :: 0 <= i < |ps| ==> Fits(ps[i])
  }

  /** A chat line reaches a registered connection other than the sender that can receive it. */
  lemma ChatToOther(h: Hub, message: string, sender: Conn, c: Conn)
    requires Unique(h.clients) && c in Keys(h.clients) && c != sender
    requires CanSend(h, c, ChatLine(SenderName(h.clients, sender), message))
    ensures BroadcastChat(h, message, sender).clients == h.clients
    ensures BroadcastChat(h, message, sender).broken == h.broken
    ensures Outbox(BroadcastChat(h, message, sender), c) == Outbox(h, c) + [ChatLine(SenderName(h.clients, sender), message)]
  {
    ChatExclusion(h, message, sender, c);
  }

  lemma ChatLinesCons(name: string, msgs: seq<string>)
    requires msgs != []
    ensures ChatLines(name, msgs) == [ChatLine(name, msgs[0])] + ChatLines(name, msgs[1..])
    ensures AllFit(ChatLines(name, msgs)) ==> Fits(ChatLine(name, msgs[0])) && AllFit(ChatLines(name, msgs[1..]))
  {
    var r := ChatLines(name, msgs);
    if AllFit(r) {
      assert Fits(r[0]);
      forall i | 0 <= i < |msgs| - 1 ensures Fits(ChatLines(name, msgs[1..])[i]) {
        assert r[i + 1] == ChatLines(name, msgs[1..])[i];
      }
    }
  }

  /**
   * A registered connection other than the sender, able to receive every
   * line, gets the chat lines of `msgs` in order; the registry does not change.
   */
  lemma {:induction false} ChatAllOutbox(h: Hub, conn: Conn, msgs: seq<string>, c: Conn)
    requires Unique(h.clients) && c in Keys(h.clients) && c != conn && c !in h.broken
    requires AllFit(ChatLines(SenderName(h.clients, conn), msgs))
    ensures ChatAll(h, conn, msgs).clients == h.clients && ChatAll(h, conn, msgs).broken == h.broken
    ensures Outbox(ChatAll(h, conn, msgs), c) == Outbox(h, c) + ChatLines(SenderName(h.clients, conn), msgs)
    decreases |msgs|
  {
    if msgs != [] {
      var name := SenderName(h.clients, conn);
      ChatLinesCons(name, msgs);
      ChatToOther(h, msgs[0], conn, c);
      var h1 := BroadcastChat(h, msgs[0], conn);
      assert SenderName(h1.clients, conn) == name;
      ChatAllOutbox(h1, conn, msgs[1..], c);
      assert ChatAll(h, conn, msgs) == ChatAll(h1, conn, msgs[1..]);
      AppendAssoc(Outbox(h, c), [ChatLine(name, msgs[0])], ChatLines(name, msgs[1..]));
    }
  }

  /**
   * The leave step: the registry loses `conn`; another connection gets the
   * leave notice and then the roster without the leaver; the leaver gets
   * nothing; afterwards sends to `conn` fail.
   */
  lemma LeaveOutbox(h: Hub, conn: Conn, name: string, c: Conn)
    requires Unique(h.clients) && SenderName(h.clients, conn) == name
    ensures var line := ChatLine(name, LeaveNotice(name));
      var roster := UserListPayload(Names(Remove(h.clients, conn)));
      && Leave(h, conn, name).clients == Remove(h.clients, conn)
      && Leave(h, conn, name).broken == h.broken + {conn}
      && Outbox(Leave(h, conn, name), c) == Outbox(h, c)
           + (if c in Keys(h.clients) && c != conn && CanSend(h, c, line) then [line] else [])
           + (if c in Keys(h.clients) && c != conn && CanSend(h, c, roster) then [roster] else [])
  {
    ChatExclusion(h, LeaveNotice(name), conn, c);
    var h5 := BroadcastChat(h, LeaveNotice(name), conn);
    var h6 := Deregister(h5, conn);
    RemoveUnique(h.clients, conn);
    RosterPush(h6, c);
    RemoveKeys(h.clients, conn, c);
  }

  /** Removing `conn` keeps every other key. */
  lemma RemoveKeys(cs: seq<Entry>, conn: Conn, c: Conn)
    ensures c in Keys(Remove(cs, conn)) <==> c in Keys(cs) && c != conn
  {
    if c != conn {
      RemoveFind(cs, conn, c);
    }
  }

  /**
   * Teardown: after the session of a new connection the registry is exactly
   * what it was before, entries and order, and `conn` is closed, whatever the
   * peer sent.
   */
  lemma SessionRegistry(h: Hub, conn: Conn, addr: Address, inb: Inbound)
    requires Unique(h.clients) && conn !in Keys(h.clients)
    ensures Session(h, conn, addr, inb).clients == h.clients
    ensures Session(h, conn, addr, inb).broken == h.broken + {conn}
  {
    match Handshake(inb, AddressText(addr))
    case None =>
    case Some((name, next)) =>
      var info := PeerInfo(addr, name);
      var h1 := Register(h, conn, info);
      PutFind(h.clients, conn, info);
      var h3 := Joined(h, conn, info);
      assert h3.clients == h1.clients;
      ChatLoopFrame(h3, conn, next);
      var h4 := ChatLoop(h3, conn, next);
      SenderNameRegistered(h1.clients, conn, info);
      LeaveOutbox(h4, conn, name, conn);
      RemovePut(h.clients, conn, info);
  }

  lemma SenderNameRegistered(cs: seq<Entry>, conn: Conn, info: PeerInfo)
    requires Unique(cs) && Find(cs, conn) == Some(info)
    ensures SenderName(cs, conn) == info.username
  {
  }

  /** A handshake that raises only closes the connection: nothing is registered or sent. */
  lemma SessionHandshakeFails(h: Hub, conn: Conn, addr: Address, inb: Inbound)
    requires Handshake(inb, AddressText(addr)).None?
    ensures Session(h, conn, addr, inb) == h.(broken := h.broken + {conn})
  {
  }

  /**
   * The leaver hears neither its own join notice, nor its own chat, nor its
   * leave notice, nor the final roster: the only payload a session sends to
   * its own connection is the roster pushed after it joins.
   */
  lemma SessionLeaverOutbox(h: Hub, conn: Conn, addr: Address, inb: Inbound)
    requires Unique(h.clients) && conn !in Keys(h.clients)
    ensures Outbox(Session(h, conn, addr, inb), conn) == Outbox(h, conn) +
      match Handshake(inb, AddressText(addr))
      case None => []
      case Some((name, _)) =>
        var roster := UserListPayload(Names(h.clients) + [name]);
        if CanSend(h, conn, roster) then [roster] else []
  {
    match Handshake(inb, AddressText(addr))
    case None =>
      assert Outbox(h, conn) + [] == Outbox(h, conn);
    case Some((name, next)) =>
      AttendLeaverOutbox(h, conn, PeerInfo(addr, name), next);
  }

  lemma AttendLeaverOutbox(h: Hub, conn: Conn, info: PeerInfo, next: Inbound)
    requires Unique(h.clients) && conn !in Keys(h.clients)
    ensures var roster := UserListPayload(Names(h.clients) + [info.username]);
      Outbox(Attend(h, conn, info, next), conn) == Outbox(h, conn) + (if CanSend(h, conn, roster) then [roster] else [])
  {
    JoinerOutbox(h, conn, info);
    var h3 := Joined(h, conn, info);
    ChatLoopFrame(h3, conn, next);
    var h4 := ChatLoop(h3, conn, next);
    LeaverOutbox(h4, conn, info.username);
  }

  /** The joiner's outbox after the join step: only the roster. */
  lemma JoinerOutbox(h: Hub, conn: Conn, info: PeerInfo)
    requires Unique(h.clients) && conn !in Keys(h.clients)
    ensures var roster := UserListPayload(Names(h.clients) + [info.username]);
      && Unique(Joined(h, conn, info).clients)
      && Outbox(Joined(h, conn, info), conn) == Outbox(h, conn) + (if CanSend(h, conn, roster) then [roster] else [])
  {
    JoinedOutbox(h, conn, info, conn);
    PutFind(h.clients, conn, info);
    assert Outbox(h, conn) + [] == Outbox(h, conn);
  }

  /** The leaver's outbox does not change in the leave step. */
  lemma LeaverOutbox(h: Hub, conn: Conn, name: string)
    requires Unique(h.clients)
    ensures Outbox(Leave(h, conn, name), conn) == Outbox(h, conn)
  {
    ChatExclusion(h, LeaveNotice(name), conn, conn);
    var h5 := BroadcastChat(h, LeaveNotice(name), conn);
    var h6 := Deregister(h5, conn);
    RemoveUnique(h.clients, conn);
    RosterPush(h6, conn);
    assert Outbox(h, conn) + [] == Outbox(h, conn);
  }

  /**
   * What another connection sees of a session whose peer says `said`: the
   * join notice, the roster with the newcomer last, each line of chat, the
   * leave notice and the roster as it was before.
   */
  function BystanderView(names: seq<string>, name: string, said: seq<string>): seq<string>
  {
    [ChatLine(name, JoinNotice(name)), UserListPayload(names + [name])] + ChatLines(name, said)
      + [ChatLine(name, LeaveNotice(name)), UserListPayload(names)]
  }

  lemma SessionOutboxFirstFrame(h: Hub, conn: Conn, addr: Address, msgs: seq<string>, end: EndOfStream, b: Conn)
    requires msgs != [] && AllReceivable(msgs)
    ensures Outbox(Session(h, conn, addr, Inbound(Wire(msgs), end)), b) ==
      Outbox(Attend(h, conn, PeerInfo(addr, HandshakeName(msgs[0], AddressText(addr))), Inbound(Wire(msgs[1..]), end)), b)
  {
    SessionFirstFrame(h, conn, addr, msgs, end);
  }

  lemma AfterHandshakeBystander(h: Hub, conn: Conn, addr: Address, msgs: seq<string>, end: EndOfStream, b: Conn)
    requires Bystander(h, conn, b)
    requires msgs != [] && AllReceivable(msgs)
    requires AllFit(BystanderView(Names(h.clients), HandshakeName(msgs[0], AddressText(addr)), UntilDisconnect(msgs[1..])))
    ensures Outbox(Attend(h, conn, PeerInfo(addr, HandshakeName(msgs[0], AddressText(addr))), Inbound(Wire(msgs[1..]), end)), b) ==
      Outbox(h, b) + BystanderView(Names(h.clients), HandshakeName(msgs[0], AddressText(addr)), UntilDisconnect(msgs[1..]))
  {
    AttendBystander(h, conn, PeerInfo(addr, HandshakeName(msgs[0], AddressText(addr))), msgs[1..], end, b);
  }

  /** The first frame is the handshake; the rest of the stream is the chat. */
  lemma SessionFirstFrame(h: Hub, conn: Conn, addr: Address, msgs: seq<string>, end: EndOfStream)
    requires msgs != [] && AllReceivable(msgs)
    ensures Session(h, conn, addr, Inbound(Wire(msgs), end)) ==
      Attend(h, conn, PeerInfo(addr, HandshakeName(msgs[0], AddressText(addr))), Inbound(Wire(msgs[1..]), end))
  {
    WireFirst(msgs, end);
    SessionAfterFrame(h, conn, addr, Inbound(Wire(msgs), end), msgs[0], Inbound(Wire(msgs[1..]), end));
  }

  lemma SessionAfterFrame(h: Hub, conn: Conn, addr: Address, inb: Inbound, first: string, next: Inbound)
    requires ReadFrame(inb) == Got(first, next)
    ensures Session(h, conn, addr, inb) == Attend(h, conn, PeerInfo(addr, HandshakeName(first, AddressText(addr))), next)
  {
  }

  lemma AttendBystander(h: Hub, conn: Conn, info: PeerInfo, msgs: seq<string>, end: EndOfStream, b: Conn)
    requires Bystander(h, conn, b)
    requires AllReceivable(msgs)
    requires AllFit(BystanderView(Names(h.clients), info.username, UntilDisconnect(msgs)))
    ensures Outbox(Attend(h, conn, info, Inbound(Wire(msgs), end)), b) ==
      Outbox(h, b) + BystanderView(Names(h.clients), info.username, UntilDisconnect(msgs))
  {
    var name := info.username;
    var names := Names(h.clients);
    var said := UntilDisconnect(msgs);
    var join, roster1 := ChatLine(name, JoinNotice(name)), UserListPayload(names + [name]);
    var leave, roster0 := ChatLine(name, LeaveNotice(name)), UserListPayload(names);
    ViewFits(names, name, said);
    var h3 := Joined(h, conn, info);
    JoinedBystander(h, conn, info, b);
    ChatLoopWire(h3, conn, msgs, end);
    var h4 := ChatAll(h3, conn, said);
    PutFind(h.clients, conn, info);
    SenderNameRegistered(h3.clients, conn, info);
    ChatAllOutbox(h3, conn, said, b);
    LeaveBystander(h4, conn, info, h.clients, b);
    ViewConcat(Outbox(h, b), join, roster1, ChatLines(name, said), leave, roster0);
  }

  lemma ViewFits(names: seq<string>, name: string, said: seq<string>)
    requires AllFit(BystanderView(names, name, said))
    ensures Fits(ChatLine(name, JoinNotice(name))) && Fits(UserListPayload(names + [name]))
    ensures AllFit(ChatLines(name, said))
    ensures Fits(ChatLine(name, LeaveNotice(name))) && Fits(UserListPayload(names))
  {
    var front := [ChatLine(name, JoinNotice(name)), UserListPayload(names + [name])];
    var back := [ChatLine(name, LeaveNotice(name)), UserListPayload(names)];
    AllFitParts(front, ChatLines(name, said), back);
    assert front[0] == ChatLine(name, JoinNotice(name)) && front[1] == UserListPayload(names + [name]);
    assert back[0] == ChatLine(name, LeaveNotice(name)) && back[1] == UserListPayload(names);
  }

  lemma AllFitParts(a: seq<string>, b: seq<string>, c: seq<string>)
    requires AllFit(a + b + c)
    ensures AllFit(a) && AllFit(b) && AllFit(c)
  {
    var v := a + b + c;
    forall i | 0 <= i < |a| ensures Fits(a[i]) { assert v[i] == a[i]; }
    forall i | 0 <= i < |b| ensures Fits(b[i]) { assert v[|a| + i] == b[i]; }
    forall i | 0 <= i < |c| ensures Fits(c[i]) { assert v[|a| + |b| + i] == c[i]; }
  }

  lemma ViewConcat(o: seq<string>, join: string, roster1: string, lines: seq<string>, leave: string, roster0: string)
    ensures o + [join] + [roster1] + lines + [leave] + [roster0] == o + ([join, roster1] + lines + [leave, roster0])
  {
  }

  /** The join step seen from a registered connection other than the joiner. */
  lemma JoinedBystander(h: Hub, conn: Conn, info: PeerInfo, b: Conn)
    requires Unique(h.clients) && conn !in Keys(h.clients)
    requires b in Keys(h.clients) && b != conn && b !in h.broken
    requires Fits(ChatLine(info.username, JoinNotice(info.username)))
    requires Fits(UserListPayload(Names(h.clients) + [info.username]))
    ensures var j := Joined(h, conn, info);
      && j.clients == h.clients + [Entry(conn, info)] && j.broken == h.broken
      && Outbox(j, b) == Outbox(h, b) + [ChatLine(info.username, JoinNotice(info.username))]
           + [UserListPayload(Names(h.clients) + [info.username])]
  {
    JoinedOutbox(h, conn, info, b);
  }

  /** The leave step seen from a connection registered before the leaver joined. */
  lemma LeaveBystander(h: Hub, conn: Conn, info: PeerInfo, before: seq<Entry>, b: Conn)
    requires h.clients == before + [Entry(conn, info)] && Unique(h.clients) && conn !in Keys(before)
    requires b in Keys(before) && b != conn && b !in h.broken
    requires Fits(ChatLine(info.username, LeaveNotice(info.username))) && Fits(UserListPayload(Names(before)))
    ensures Outbox(Leave(h, conn, info.username), b) ==
      Outbox(h, b) + [ChatLine(info.username, LeaveNotice(info.username))] + [UserListPayload(Names(before))]
  {
    assert Init(h.clients) == before;
    assert Remove(h.clients, conn) == before;
    assert Keys(h.clients) == Keys(before) + [conn];
    FindUnique(h.clients, |before|);
    LeaveOutbox(h, conn, info.username, b);
  }
}
