/**
 * The `clients` dictionary of the broker (server.py:22-23): an
 * insertion-ordered map from a connection to the information about its peer,
 * kept here as a sequence of entries in insertion order.
 */
module Registry {

  import opened Wrappers
  import opened Text

  /** A connection; sockets are told apart by identity only. */
  type Conn = nat

  /** The peer address `addr` that `accept()` returns: an IPv4 host and a port. */
  datatype Address = Address(host: string, port: nat)

  /** The dictionary `{'addr': addr, 'username': ...}` kept for a client. */
  datatype PeerInfo = PeerInfo(addr: Address, username: string)

  datatype Entry = Entry(conn: Conn, info: PeerInfo)

  /** `str(addr)` for an address tuple: `('host', port)`. */
  function AddressText(addr: Address): (r: string)
    ensures |r| > |addr.host| + 5 && r[..2] == "('" && r[|r| - 1] == ')'
  {
    "('" + addr.host + "', " + Decimal(addr.port) + ")"
  }

  /** The keys of the dictionary, in insertion order. */
  function Keys(cs: seq<Entry>): (r: seq<Conn>)
    ensures |r| == |cs| && forall i :: 0 <= i < |cs| ==> r[i] == cs[i].conn
  {
    if cs == [] then [] else Keys(cs[..|cs| - 1]) + [cs[|cs| - 1].conn]
  }

  /** No connection appears twice, as in any dictionary. */
  predicate Unique(cs: seq<Entry>)
  {
    forall i, j :: 0 <= i < j < |cs| ==> cs[i].conn != cs[j].conn
  }

  /** All entries of a non-empty sequence but the last. */
  function Init(cs: seq<Entry>): seq<Entry>
    requires cs != []
  {
    cs[..|cs| - 1]
  }

  /** `clients.get(c)`: the information stored for `c`, if any. */
  function Find(cs: seq<Entry>, c: Conn): (r: Option<PeerInfo>)
    ensures r.None? <==> c !in Keys(cs)
    ensures r.Some? ==> exists i :: 0 <= i < |cs| && cs[i] == Entry(c, r.value)
  {
    if cs == [] then None
    else if cs[|cs| - 1].conn == c then Some(cs[|cs| - 1].info)
    else
      var r := Find(Init(cs), c);
      assert r.Some? ==> exists i :: 0 <= i < |Init(cs)| && Init(cs)[i] == Entry(c, r.value);
      r
  }

  /** In a dictionary the entry for `c` is the one `Find` gives. */
  lemma {:induction false} FindUnique(cs: seq<Entry>, i: nat)
    requires Unique(cs) && i < |cs|
    ensures Find(cs, cs[i].conn) == Some(cs[i].info)
  {
    if i < |cs| - 1 {
      assert Init(cs)[i] == cs[i];
      FindUnique(Init(cs), i);
    }
  }

  /**
   * `clients[c] = info`: an existing key keeps its place and gets the new
   * value; a new key goes last.
   */
  function Put(cs: seq<Entry>, c: Conn, info: PeerInfo): (r: seq<Entry>)
    ensures c in Keys(cs) ==> Keys(r) == Keys(cs)
    ensures c in Keys(cs) ==> forall i :: 0 <= i < |r| ==> r[i] == if cs[i].conn == c then Entry(c, info) else cs[i]
    ensures c !in Keys(cs) ==> r == cs + [Entry(c, info)]
  {
    if c in Keys(cs) then seq(|cs|, i requires 0 <= i < |cs| => if cs[i].conn == c then Entry(c, info) else cs[i])
    else cs + [Entry(c, info)]
  }

  /** `del clients[c]` when `c in clients`, nothing otherwise. */
  function Remove(cs: seq<Entry>, c: Conn): (r: seq<Entry>)
    ensures c !in Keys(r)
    ensures c !in Keys(cs) ==> r == cs
    ensures |r| <= |cs|
  {
    if cs == [] then []
    else
      var rest := Remove(Init(cs), c);
      assert Keys(cs) == Keys(Init(cs)) + [cs[|cs| - 1].conn];
      if cs[|cs| - 1].conn == c then rest else rest + [cs[|cs| - 1]]
  }

  /** `[data['username'] for data in clients.values()]`. */
  function Names(cs: seq<Entry>): (r: seq<string>)
    ensures |r| == |cs| && forall i :: 0 <= i < |cs| ==> r[i] == cs[i].info.username
  {
    if cs == [] then [] else Names(Init(cs)) + [cs[|cs| - 1].info.username]
  }

  /** Storing keeps the keys unique, maps `c` to `info`, and leaves every other key's value alone. */
  lemma PutFind(cs: seq<Entry>, c: Conn, info: PeerInfo)
    requires Unique(cs)
    ensures Unique(Put(cs, c, info))
    ensures Find(Put(cs, c, info), c) == Some(info)
    ensures forall d :: d != c ==> Find(Put(cs, c, info), d) == Find(cs, d)
  {
    var r := Put(cs, c, info);
    assert Unique(r) by {
      forall i, j | 0 <= i < j < |r| ensures r[i].conn != r[j].conn {
        if c in Keys(cs) {
          assert r[i].conn == cs[i].conn && r[j].conn == cs[j].conn;
        } else if j == |cs| {
          assert cs[i].conn == Keys(cs)[i];
        } else {
          assert r[i] == cs[i] && r[j] == cs[j];
        }
      }
    }
    forall d | d != c ensures Find(r, d) == Find(cs, d) {
      if d in Keys(cs) {
        var k :| 0 <= k < |cs| && Keys(cs)[k] == d;
        FindUnique(cs, k);
        assert r[k] == cs[k];
        FindUnique(r, k);
      } else {
        assert d !in Keys(r) by {
          if c in Keys(cs) {
            assert Keys(r) == Keys(cs);
          } else {
            assert Keys(r) == Keys(cs) + [c];
          }
        }
      }
    }
    if c in Keys(cs) {
      var k :| 0 <= k < |cs| && Keys(cs)[k] == c;
      FindUnique(r, k);
    } else {
      FindUnique(r, |cs|);
    }
  }

  /** Removing keeps the rest of the dictionary in order: it deletes exactly the entry for `c`. */
  lemma RemoveOrder(cs: seq<Entry>, i: nat)
    requires Unique(cs) && i < |cs|
    ensures Remove(cs, cs[i].conn) == cs[..i] + cs[i + 1..]
  {
    RemoveOnly(cs, i);
  }

  lemma {:induction false} RemoveOnly(cs: seq<Entry>, i: nat)
    requires i < |cs| && forall j :: 0 <= j < |cs| && j != i ==> cs[j].conn != cs[i].conn
    ensures Remove(cs, cs[i].conn) == cs[..i] + cs[i + 1..]
  {
    var c := cs[i].conn;
    var last := |cs| - 1;
    var init := Init(cs);
    if i == last {
      assert c !in Keys(init) by {
        forall j | 0 <= j < last ensures Keys(init)[j] != c {
          assert init[j] == cs[j];
        }
      }
      assert cs[..i] + cs[i + 1..] == init;
    } else {
      assert init[i] == cs[i];
      assert forall j :: 0 <= j < |init| && j != i ==> init[j].conn != c;
      RemoveOnly(init, i);
      RemoveKeep(cs, c);
      AppendSlices(cs, i);
    }
  }

  lemma RemoveKeep(cs: seq<Entry>, c: Conn)
    requires cs != [] && cs[|cs| - 1].conn != c
    ensures Remove(cs, c) == Remove(Init(cs), c) + [cs[|cs| - 1]]
  {
  }

  lemma AppendSlices(cs: seq<Entry>, i: nat)
    requires i < |cs| - 1
    ensures Init(cs)[..i] + Init(cs)[i + 1..] + [cs[|cs| - 1]] == cs[..i] + cs[i + 1..]
  {
    assert Init(cs)[i + 1..] + [cs[|cs| - 1]] == cs[i + 1..];
  }

  /** Deregistering leaves every other connection's information as it was. */
  lemma {:induction false} RemoveFind(cs: seq<Entry>, c: Conn, d: Conn)
    requires d != c
    ensures Find(Remove(cs, c), d) == Find(cs, d)
  {
    if cs != [] {
      RemoveFind(Init(cs), c, d);
      var rest := Remove(Init(cs), c);
      if cs[|cs| - 1].conn != c {
        assert Init(rest + [cs[|cs| - 1]]) == rest;
      }
    }
  }

  /** Deregistering twice is deregistering once. */
  lemma RemoveIdempotent(cs: seq<Entry>, c: Conn)
    ensures Remove(Remove(cs, c), c) == Remove(cs, c)
  {
  }

  /** Registering and then deregistering a connection leaves the dictionary as removing it would. */
  lemma RemovePut(cs: seq<Entry>, c: Conn, info: PeerInfo)
    ensures Remove(Put(cs, c, info), c) == Remove(cs, c)
  {
    var r := Put(cs, c, info);
    if c in Keys(cs) {
      RemoveAgree(r, cs, c);
    } else {
      assert Init(r) == cs;
    }
  }

  /** Sequences that differ only in the values stored for `c` lose the same entries to `Remove`. */
  lemma {:induction false} RemoveAgree(a: seq<Entry>, b: seq<Entry>, c: Conn)
    requires |a| == |b|
    requires forall i :: 0 <= i < |a| ==> a[i].conn == b[i].conn && (a[i].conn != c ==> a[i] == b[i])
    ensures Remove(a, c) == Remove(b, c)
  {
    if a != [] {
      RemoveAgree(Init(a), Init(b), c);
    }
  }

  /** Removing keeps the keys unique. */
  lemma RemoveUnique(cs: seq<Entry>, c: Conn)
    requires Unique(cs)
    ensures Unique(Remove(cs, c))
  {
    if c in Keys(cs) {
      var i :| 0 <= i < |cs| && Keys(cs)[i] == c;
      RemoveOrder(cs, i);
      CutUnique(cs, i);
    }
  }

  /** Leaving one entry out keeps the connections distinct. */
  lemma CutUnique(cs: seq<Entry>, i: nat)
    requires Unique(cs) && i < |cs|
    ensures Unique(cs[..i] + cs[i + 1..])
  {
    var r := cs[..i] + cs[i + 1..];
    forall a, b | 0 <= a < b < |r| ensures r[a].conn != r[b].conn {
      var a' := if a < i then a else a + 1;
      var b' := if b < i then b else b + 1;
      assert r[a] == cs[a'] && r[b] == cs[b'];
    }
  }
}
