/** The server: its two client lists, new connections, client data, publishing and
    shutdown, on the heap, each proved to follow the steps of module Session. */
module Server {
  import opened Bytes
  import opened Patterns
  import opened Index
  import opened Search
  import opened Protocol
  import opened Decoder
  import opened Requests
  import opened Session
  import opened Runs
  import opened TopicTrie
  import opened Clients
  import opened Packet
  import opened Rounds

  class Broker {
    const trie: Trie
    var clients: seq<Client>
    var inactive: seq<Client>
    var clientCount: int

    // ----------------------------------------------------------------
    // The session value that the heap state stands for

    static ghost predicate ClientOk(c: Client, i: Info, active: bool)
      reads c, c.readBuf
    {
      c.id == i.id && c.fd == i.fd && BufferOk(c) && (active ==> Pending(c) == i.pending)
    }

    static ghost function Buffers(s: Session<Client>): set<object> {
      set c | c in s.info :: c.readBuf
    }

    /** No two clients share a buffer. */
    static ghost predicate Separate(s: Session<Client>) {
      forall c, d | c in s.info && d in s.info && c != d :: c.readBuf != d.readBuf
    }

    ghost predicate ListsAre(s: Session<Client>)
      reads this
    {
      clients == s.active && inactive == s.inactive && clientCount == s.count
    }

    /** The clients' fields are those of `s`, except that nothing is said about the bytes
        that `x` has pending. */
    static ghost predicate ClientsAre(s: Session<Client>, x: Client?)
      reads s.info.Keys, Buffers(s)
    {
      forall c | c in s.info :: ClientOk(c, s.info[c], c in s.active && c != x)
    }

    /** The heap is laid out as `s` describes it. */
    ghost predicate LaidOut(s: Session<Client>)
      reads this, trie, trie.nodes, trie.store.refs.Keys`subscriptions, s.info.Keys, Buffers(s)
    {
      trie.Valid() && s.store == trie.store && ListsAre(s) && ClientsAre(s, null) && Separate(s)
    }

    /** The broker is in the state `s`, and `s` is a proper session state. */
    ghost predicate Is(s: Session<Client>)
      reads this, trie, trie.nodes, trie.store.refs.Keys`subscriptions, s.info.Keys, Buffers(s)
    {
      SessionOk(s) && LaidOut(s)
    }

    /** What happens outside its objects does not disturb the broker. */
    twostate lemma Undisturbed(s: Session<Client>)
      requires old(LaidOut(s)) && s.store.refs.Keys == s.info.Keys
      requires unchanged(this) && unchanged(trie) && unchanged(trie.nodes)
      requires unchanged(s.info.Keys) && unchanged(Buffers(s))
      ensures LaidOut(s)
    {
    }

    constructor ()
      ensures Is(Start()) && fresh(Footprint(Start()))
    {
      trie := new Trie();
      clients, inactive, clientCount := [], [], 0;
      assert Buffers(Start()) == {};
    }

    // ----------------------------------------------------------------
    // Client lists

    /** The scan of a client list by `strcmp`: the place of the first match, or the end. */
    static method FindClient(cs: seq<Client>, id: bytes) returns (i: nat)
      ensures i <= |cs| && (forall j | 0 <= j < i :: cs[j].id != id) && (i < |cs| ==> cs[i].id == id)
    {
      i := 0;
      while i < |cs| && cs[i].id != id
        invariant i <= |cs| && forall j | 0 <= j < i :: cs[j].id != id
      {
        i := i + 1;
      }
    }

    static lemma {:induction false} ScanIsFind(cs: seq<Client>, info: map<Client, Info>, id: bytes, i: nat)
      requires forall c | c in cs :: c in info && c.id == info[c].id
      requires i <= |cs| && (forall j | 0 <= j < i :: cs[j].id != id) && (i < |cs| ==> cs[i].id == id)
      ensures FindById(cs, info, id) == if i < |cs| then Some(cs[i]) else None
    {
      if cs != [] && i > 0 {
        assert forall j | 0 <= j < i - 1 :: cs[1..][j] == cs[j + 1];
        ScanIsFind(cs[1..], info, id, i - 1);
      }
    }

    /** Unlinking the client at place `i` of a list. */
    static method Unlink(cs: seq<Client>, i: nat) returns (rest: seq<Client>)
      requires NoDuplicates(cs) && i < |cs|
      ensures rest == RemoveFirst(cs, cs[i])
    {
      assert cs[i] !in cs[..i];
      RemoveFirstAt(cs, cs[i], i);
      rest := cs[..i] + cs[i + 1..];
    }

    // ----------------------------------------------------------------
    // Client data

    static twostate lemma MirrorAfterDrop(s: Session<Client>, new c: Client)
      requires c in s.info && old(ClientsAre(s, c)) && NoDuplicates(s.active)
      requires c.fd == -1 && c.readBufLen == old(c.readBufLen) && unchanged(c.readBuf)
      requires forall d | d in s.info && d != c :: unchanged(d) && unchanged(d.readBuf)
      ensures ClientsAre(Drop(s, c), null)
    {
      RemoveFirstDistinct(s.active, c);
      forall d | d in s.info
        ensures ClientOk(d, Drop(s, c).info[d], d in Drop(s, c).active)
      {
        assert old(ClientOk(d, s.info[d], d in s.active && d != c));
      }
    }

    /** Moving a failed client to the inactive list; its subscriptions are kept. */
    method Disconnect(c: Client, i: nat, ghost s: Session<Client>)
      requires trie.Valid() && ListsAre(s) && ClientsAre(s, c) && c in s.info
      requires i < |clients| && clients[i] == c && NoDuplicates(clients)
      modifies this, c`fd
      ensures trie.Valid() && ListsAre(Drop(s, c)) && ClientsAre(Drop(s, c), null)
    {
      var rest := Unlink(clients, i);
      clients, clientCount, inactive, c.fd := rest, clientCount - 1, [c] + inactive, -1;
      trie.Undisturbed();
      MirrorAfterDrop(s, c);
    }

    static twostate lemma MirrorAfterTalk(s: Session<Client>, new c: Client, new chunk: bytes, new h: Outcome<Client>)
      requires old(ClientsAre(s, null)) && c in s.active && c in s.info
      requires BufferOk(c) && c.fd == old(c.fd)
      requires h.ok ==> Pending(c) == ParseBuffer(s.info[c].pending + chunk).rest
      requires forall d | d in s.info && d != c ::
        d.fd == old(d.fd) && d.readBufLen == old(d.readBufLen) && unchanged(d.readBuf)
      ensures ClientsAre(Handled(s, c, chunk, h), if h.ok then null else c)
    {
      forall d | d in s.info
        ensures ClientOk(d, Handled(s, c, chunk, h).info[d], d in s.active && (h.ok || d != c))
      {
        assert old(ClientOk(d, s.info[d], d in s.active));
      }
    }

    /** The call of `client_handle_data` for an active client. */
    method Receive(c: Client, chunk: bytes, budget: nat, ghost s: Session<Client>)
      returns (ok: bool, sends: seq<Sending>, ghost h: Outcome<Client>)
      requires trie.Valid() && s.store == trie.store && c in s.store.refs && ClientsAre(s, null) && Separate(s)
      requires c in s.active && c in s.info && |s.info[c].pending| + |chunk| <= READ_BUF_SIZE
      modifies trie`at, trie`nodes, trie`store, trie.nodes, c`subscriptions, c`readBufLen, c.readBuf
      ensures trie.Valid() && h == HandleRecv(s.store, c, s.info[c].pending, chunk, budget)
      ensures trie.store == h.store && ok == h.ok && sends == SendAllOn(s.info[c].fd, h.acks) && trie.AddsNodes()
      ensures ClientsAre(Handled(s, c, chunk, h), if ok then null else c)
    {
      assert ClientOk(c, s.info[c], true);
      h := HandleRecv(trie.store, c, s.info[c].pending, chunk, budget);
      ok, sends := HandleData(trie, c, chunk, budget);
      MirrorAfterTalk(s, c, chunk, h);
    }

    /** `client_handle_data`, and the move to the inactive list when it failed. */
    method Attend(i: nat, chunk: bytes, budget: nat, ghost s: Session<Client>)
      returns (ok: bool, sends: seq<Sending>, ghost h: Outcome<Client>, ghost t: Session<Client>)
      requires LaidOut(s) && NoDuplicates(clients) && i < |clients|
      requires clients[i] in s.info && clients[i] in s.store.refs
      requires |s.info[clients[i]].pending| + |chunk| <= READ_BUF_SIZE
      modifies this, trie`at, trie`nodes, trie`store, trie.nodes, clients[i], clients[i].readBuf
      ensures var c := old(clients)[i];
        && h == HandleRecv(s.store, c, s.info[c].pending, chunk, budget)
        && t == (if h.ok then Handled(s, c, chunk, h) else Drop(Handled(s, c, chunk, h), c))
        && ok == h.ok && sends == SendAllOn(s.info[c].fd, h.acks)
      ensures trie.Valid() && trie.store == h.store && ListsAre(t) && ClientsAre(t, null) && trie.AddsNodes()
    {
      var c := clients[i];
      ok, sends, h := Receive(c, chunk, budget, s);
      t := Handled(s, c, chunk, h);
      if !ok {
        Disconnect(c, i, t);
        t := Drop(t, c);
      }
    }

    /** One active client with something to read, or gone; `ok` says that it stays. */
    method DataReady(i: nat, chunk: bytes, budget: nat, ghost s: Session<Client>)
      returns (ok: bool, sends: seq<Sending>, ghost t: Session<Client>)
      requires Is(s) && i < |clients| && Enabled(s, Data(clients[i], chunk, budget))
      modifies this, trie`at, trie`nodes, trie`store, trie.nodes, clients[i], clients[i].readBuf
      ensures var e := Data(old(clients)[i], chunk, budget);
        t == Step(s, e) && sends == AcksOf(s, e) && (ok <==> e.client in t.active)
      ensures Is(t) && trie.AddsNodes()
    {
      ghost var e := Data(clients[i], chunk, budget);
      ghost var h;
      ok, sends, h, t := Attend(i, chunk, budget, s);
      assert t == Step(s, e);
      SameBuffers(s, t);
      if !h.ok {
        RemoveFirstDistinct(s.active, e.client);
      }
    }

    static lemma SameBuffers(s: Session<Client>, t: Session<Client>)
      requires Separate(s) && t.info.Keys == s.info.Keys
      ensures Separate(t)
    {
    }

    // ----------------------------------------------------------------
    // Connections

    static twostate lemma MirrorAfterRevival(s: Session<Client>, new c: Client, new fd: int)
      requires c in s.info && c in s.inactive && old(ClientsAre(s, null)) && ListsOk(s)
      requires c.fd == fd && c.readBufLen == 0
      requires forall d | d in s.info && d != c :: unchanged(d)
      requires forall d | d in s.info :: unchanged(d.readBuf)
      ensures ClientsAre(Revived(s, c, fd), null)
    {
      forall d | d in s.info
        ensures ClientOk(d, Revived(s, c, fd).info[d], d in Revived(s, c, fd).active)
      {
        assert old(ClientOk(d, s.info[d], d in s.active));
      }
    }

    /** Reconnecting client `c`, which is at place `j` of the inactive list. */
    method Revive(c: Client, j: nat, newfd: int, ghost s: Session<Client>)
      requires trie.Valid() && ListsAre(s) && ClientsAre(s, null) && ListsOk(s)
      requires j < |inactive| && inactive[j] == c && c in s.info
      modifies this, c`fd, c`readBufLen
      ensures trie.Valid() && trie.store == old(trie.store)
      ensures ListsAre(Revived(s, c, newfd)) && ClientsAre(Revived(s, c, newfd), null)
    {
      var rest := Unlink(inactive, j);
      inactive, clients, clientCount, c.fd, c.readBufLen := rest, [c] + clients, clientCount + 1, newfd, 0;
      trie.Undisturbed();
      MirrorAfterRevival(s, c, newfd);
    }

    static twostate lemma MirrorAfterAdding(s: Session<Client>, new c: Client, new fd: int, new id: bytes)
      requires old(ClientsAre(s, null)) && c !in s.info
      requires c.id == id && c.fd == fd && c.readBufLen == 0 && BufferOk(c)
      requires forall d | d in s.info :: unchanged(d) && unchanged(d.readBuf)
      ensures ClientsAre(Added(s, c, fd, id), null)
    {
      forall d | d in Added(s, c, fd, id).info
        ensures ClientOk(d, Added(s, c, fd, id).info[d], d in Added(s, c, fd, id).active)
      {
        if d != c {
          assert old(ClientOk(d, s.info[d], d in s.active));
        }
      }
    }

    /** Linking a client fresh from `client_create`. */
    method Adopt(c: Client, ghost s: Session<Client>)
      requires trie.Valid() && ListsAre(s) && ClientsAre(s, null) && c !in s.info
      requires BufferOk(c) && c.readBufLen == 0
      modifies this
      ensures trie.Valid() && trie.store == old(trie.store)
      ensures ListsAre(Added(s, c, c.fd, c.id)) && ClientsAre(Added(s, c, c.fd, c.id), null)
    {
      clients, clientCount := [c] + clients, clientCount + 1;
      trie.Undisturbed();
      MirrorAfterAdding(s, c, c.fd, c.id);
    }

    /** A new client has no subscriptions in the trie. */
    ghost method Enroll(c: Client, t: Session<Client>)
      requires trie.Valid() && ListsAre(t) && ClientsAre(t, null) && c !in trie.store.refs && c.subscriptions == []
      modifies trie`store
      ensures trie.Valid() && ListsAre(t) && ClientsAre(t, null)
      ensures trie.store == Store(old(trie.store).view, old(trie.store).refs[c := []])
    {
      trie.Register(c);
    }

    static lemma SeparateAdded(s: Session<Client>, c: Client, fd: int, id: bytes)
      requires Separate(s) && forall d | d in s.info :: d.readBuf != c.readBuf
      ensures Separate(Added(s, c, fd, id))
    {
    }

    /** The branch for a brand-new client. */
    method Create(newfd: int, id: bytes, ghost s: Session<Client>) returns (c: Client)
      requires LaidOut(s) && s.store.refs.Keys == s.info.Keys
      modifies this, trie`store
      ensures fresh(c) && fresh(c.readBuf) && c !in s.info && trie.nodes == old(trie.nodes)
      ensures var t := Added(s, c, newfd, id);
        trie.Valid() && trie.store == t.store && ListsAre(t) && ClientsAre(t, null) && Separate(t)
    {
      c := new Client(newfd, id);
      SeparateAdded(s, c, newfd, id);
      Adopt(c, s);
      Enroll(c, Added(s, c, newfd, id));
    }

    /** The search for the client's ID in both lists. */
    method Search(id: bytes, ghost s: Session<Client>) returns (i: nat, j: nat)
      requires LaidOut(s) && ListsOk(s) && s.store.refs.Keys == s.info.Keys
      ensures LaidOut(s) && i <= |clients| && j <= |inactive|
      ensures FindById(s.active, s.info, id) == if i < |clients| then Some(clients[i]) else None
      ensures FindById(s.inactive, s.info, id) == if j < |inactive| then Some(inactive[j]) else None
    {
      i := FindClient(clients, id);
      j := FindClient(inactive, id);
      assert forall c | c in s.info :: ClientOk(c, s.info[c], c in s.active);
      ScanIsFind(clients, s.info, id, i);
      ScanIsFind(inactive, s.info, id, j);
      Undisturbed(s);
    }

    /** The branch for the client at place `j` of the inactive list. */
    method Reconnect(j: nat, newfd: int, ghost s: Session<Client>)
      requires LaidOut(s) && ListsOk(s) && j < |inactive|
      modifies this, inactive
      ensures old(inactive)[j] in s.info && trie.nodes == old(trie.nodes)
      ensures var t := Revived(s, old(inactive)[j], newfd);
        trie.Valid() && trie.store == t.store && ListsAre(t) && ClientsAre(t, null) && Separate(t)
    {
      var c := inactive[j];
      assert c in s.info;
      SameBuffers(s, Revived(s, c, newfd));
      Revive(c, j, newfd, s);
    }

    /** The state a connection is admitted to, `id` having been looked up in both lists: at
        place `i` of the active one, or `j` of the inactive one, or past their ends. */
    method Link(i: nat, j: nat, newfd: int, id: bytes, created: bool, ghost s: Session<Client>)
      returns (ghost token: Option<Client>, ghost t: Session<Client>)
      requires LaidOut(s) && ListsOk(s) && s.store.refs.Keys == s.info.Keys && i <= |clients| && j <= |inactive|
      modifies this, trie`store, inactive
      ensures token.Some? ==> fresh(token.value) && fresh(token.value.readBuf) && token.value !in s.info
      ensures token.Some? <==> i == |s.active| && j == |s.inactive| && created
      ensures j < |s.inactive| ==> s.inactive[j] in s.info
      ensures t == if i < |s.active| then s
                   else if j < |s.inactive| then Revived(s, s.inactive[j], newfd)
                   else if token.Some? then Added(s, token.value, newfd, id) else s
      ensures trie.Valid() && trie.store == t.store && ListsAre(t) && ClientsAre(t, null) && Separate(t)
      ensures trie.nodes == old(trie.nodes)
    {
      token, t := None, s;
      assert j < |inactive| ==> inactive[j] in s.info;
      if i == |clients| {
        if j < |inactive| {
          t := Revived(s, inactive[j], newfd);
          Reconnect(j, newfd, s);
        } else if created {
          var c := Create(newfd, id, s);
          token, t := Some(c), Added(s, c, newfd, id);
        }
      }
    }

    /** `handle_new_tcp_connection` after `accept`, in terms of the parts of the state. */
    method Admit(newfd: int, raw: bytes, created: bool, ghost s: Session<Client>)
      returns (ghost token: Option<Client>, ghost t: Session<Client>)
      requires LaidOut(s) && ListsOk(s) && s.store.refs.Keys == s.info.Keys
      modifies this, trie`store, inactive
      ensures token.Some? ==> fresh(token.value) && fresh(token.value.readBuf)
      ensures token.Some? <==> created && IsNew(s, raw, IdOf(raw))
      ensures t == StepConnect(s, token, newfd, raw) && trie.nodes == old(trie.nodes)
      ensures trie.Valid() && trie.store == t.store && ListsAre(t) && ClientsAre(t, null) && Separate(t)
    {
      token, t := None, s;
      if raw == [] {
        return;
      }
      var id := IdOf(raw);
      var i, j := Search(id, s);
      assert i < |clients| ==> clients[i] in s.info && s.info[clients[i]].id == id;
      assert j < |inactive| ==> inactive[j] in s.info && s.info[inactive[j]].id == id;
      token, t := Link(i, j, newfd, id, created, s);
    }

    /** `handle_new_tcp_connection` after `accept`: `raw` is what the first `recv` gave,
        nothing when it failed; `created` says whether `client_create` would succeed. */
    method NewConnection(newfd: int, raw: bytes, created: bool, ghost s: Session<Client>)
      returns (ghost token: Option<Client>)
      requires Is(s) && newfd >= 0 && |raw| <= MAX_ID
      modifies this, trie`store, inactive
      ensures token.Some? ==> fresh(token.value) && fresh(token.value.readBuf)
      ensures token.Some? <==> created && IsNew(s, raw, IdOf(raw))
      ensures Enabled(s, Connect(token, newfd, raw)) && Is(Step(s, Connect(token, newfd, raw)))
      ensures trie.nodes == old(trie.nodes)
    {
      ghost var t;
      token, t := Admit(newfd, raw, created, s);
      assert t == Step(s, Connect(token, newfd, raw));
    }

    // ----------------------------------------------------------------
    // Publishing

    /** Topic and packet of a datagram; the buffer is nobody's read buffer. */
    method MakePacket(buf: array<byte>, n: nat, ip: Addr, port: nat, ghost s: Session<Client>)
      returns (topic: bytes, packet: bytes)
      requires Is(s) && buf !in Buffers(s) && buf.Length == MAX_UDP_PAYLOAD
      requires port < 0x1_0000 && |HeaderText(ip, port)| + n <= buf.Length
      modifies buf
      ensures Is(s)
      ensures topic == CString(old(buf[..MAX_TOPIC_LEN])) && packet == HeaderText(ip, port) + old(buf[..n])
    {
      HeaderFits(ip, port);
      topic := ExtractTopic(buf);
      var len := BuildPacket(buf, n, ip, port);
      packet := buf[..len];
      Undisturbed(s);
    }

    /** `trie_publish`, with the sockets that the session has on record. */
    method Announce(topic: bytes, packet: bytes, ghost s: Session<Client>)
      returns (seen: seq<Client>, sends: seq<Sending>)
      requires Is(s)
      ensures Is(s) && seen == Audience(s.store.view, Trie.TopicOf(topic)) && |sends| == |seen|
      ensures forall i | 0 <= i < |seen| :: seen[i] in s.info
      ensures forall i | 0 <= i < |seen| :: sends[i] == Sending(s.info[seen[i]].fd, Msg(MSG_PUBLISH, packet))
    {
      seen, sends := trie.Publish(topic, packet);
      forall i | 0 <= i < |seen|
        ensures seen[i] in s.info && seen[i].fd == s.info[seen[i]].fd
      {
        assert seen[i] in Receivers(trie.store, Trie.TopicOf(topic));
        assert ClientOk(seen[i], s.info[seen[i]], seen[i] in s.active);
      }
      Undisturbed(s);
    }

    /** A datagram of `n` bytes from `ip` and `port`: everybody in its audience is sent the
        datagram with the header in front, once, on the socket it has; an inactive client
        on -1, where the send fails. */
    method Datagram(buf: array<byte>, n: nat, ip: Addr, port: nat, ghost s: Session<Client>)
      returns (seen: seq<Client>, sends: seq<Sending>)
      requires Is(s) && buf !in Buffers(s) && DgramOk(Dgram(buf[..], n, ip, port))
      modifies buf
      ensures Is(s)
      ensures var d := Dgram(old(buf[..]), n, ip, port); seen == DgramAudience(s, d) && sends == DgramSends(s, d)
    {
      if n == 0 {
        return [], [];
      }
      ghost var d := Dgram(buf[..], n, ip, port);
      assert d.buf[..n] == buf[..n] && d.buf[..MAX_TOPIC_LEN] == buf[..MAX_TOPIC_LEN];
      TopicsAreShort(d.buf[..MAX_TOPIC_LEN]);
      var topic, packet := MakePacket(buf, n, ip, port, s);
      seen, sends := Announce(topic, packet, s);
      SendsOf(s, d, seen, sends);
    }

    static lemma SendsOf(s: Session<Client>, d: Dgram, seen: seq<Client>, sends: seq<Sending>)
      requires SessionOk(s) && DgramOk(d) && seen == DgramAudience(s, d) && |sends| == |seen|
      requires forall i | 0 <= i < |seen| ::
        sends[i] == Sending(s.info[seen[i]].fd, Msg(MSG_PUBLISH, HeaderText(d.ip, d.port) + d.buf[..d.n]))
      ensures sends == DgramSends(s, d)
    {
    }

    // ----------------------------------------------------------------
    // Shutdown

    /** `client_destroy` for each client of a list; the socket and the memory are gone
        with the call. */
    method DestroyList(cs: seq<Client>)
      requires trie.Valid() && forall c | c in cs :: c in trie.store.refs
      modifies trie`at, trie`store, trie.nodes, cs
      ensures trie.Valid() && trie.store == DestroyAll(old(trie.store), cs) && trie.nodes == old(trie.nodes)
    {
      ghost var st := trie.store;
      var i := 0;
      Whole(cs);
      while i < |cs|
        invariant i <= |cs| && trie.Valid() && trie.store.refs.Keys == st.refs.Keys
        invariant DestroyAll(trie.store, cs[i..]) == DestroyAll(st, cs)
      {
        SliceStep(cs, i);
        CleanupKeeps(trie.store, cs[i]);
        trie.CleanupClientSubscriptions(cs[i]);
        i := i + 1;
      }
    }

    /** The final cleanup of `run_server`: of the trie only a bare root is left. */
    method Shutdown(ghost s: Session<Client>)
      requires Is(s)
      modifies trie`at, trie`store, trie.nodes, clients, inactive
      ensures trie.Valid() && trie.store.view == map[Root := Entry([], [])]
      ensures trie.root.IsEmpty() && trie.at == map[Root := trie.root]
    {
      var first, second := clients, inactive;
      assert forall c | c in first :: c in trie.store.refs;
      assert forall c | c in second :: c in trie.store.refs;
      ShutdownDrains(s);
      DestroyList(first);
      DestroyList(second);
      BareRoot();
    }

    /** The same, within `foot`. */
    method Stop(ghost s: Session<Client>, ghost foot: set<object>)
      requires Is(s) && Footprint(s) <= foot
      modifies foot
      ensures trie.Valid() && trie.root.IsEmpty() && trie.at == map[Root := trie.root]
    {
      Shutdown(s);
    }

    lemma BareRoot()
      requires trie.Valid() && trie.store.view == map[Root := Entry([], [])]
      ensures trie.root.IsEmpty() && trie.at == map[Root := trie.root]
    {
      assert Trie.NodeOk(trie.at, Root, trie.store.view[Root], trie.root);
      assert trie.at.Keys == {Root};
    }

    // ----------------------------------------------------------------
    // The main loop

    ghost function Footprint(s: Session<Client>): set<object>
      reads this, trie
    {
      {this, trie} + trie.nodes + s.info.Keys + Buffers(s)
    }

    /** The clients of `t` are those of `s` and new ones. */
    static twostate predicate AddsClients(s: Session<Client>, new t: Session<Client>) {
      s.info.Keys <= t.info.Keys && forall c | c in t.info && c !in s.info :: fresh(c) && fresh(c.readBuf)
    }

    /** What joins the footprint is new. */
    twostate lemma FootprintGrows(s: Session<Client>, new t: Session<Client>)
      requires trie.AddsNodes() && AddsClients(s, t)
      ensures fresh(Footprint(t) - old(Footprint(s)))
    {
      forall o | o in Footprint(t) && o !in old(Footprint(s))
        ensures fresh(o)
      {
        if o in Buffers(t) {
          var c :| c in t.info && c.readBuf == o;
          assert c in s.info ==> o in Buffers(s);
        }
      }
    }

    /** `recv` on the client at place `i`. */
    method Take(i: nat, o: Offer, ghost s: Session<Client>) returns (chunk: bytes)
      requires Is(s) && i < |clients|
      ensures Data(clients[i], chunk, o.budget) == Rounds.Read(s, i, o)
    {
      var c := clients[i];
      assert c in s.info && ClientOk(c, s.info[c], true);
      PendingFits(s.info[c].pending);
      chunk := Fitting(READ_BUF_SIZE - c.readBufLen, o.data);
      ReadIs(s, i, o, READ_BUF_SIZE - c.readBufLen);
    }

    /** A client that `poll` reports, and what comes of it. */
    method ReadFrom(i: nat, o: Offer, ghost s: Session<Client>)
      returns (ok: bool, sends: seq<Sending>, ghost t: Session<Client>)
      requires Is(s) && i < |clients|
      modifies this, trie`at, trie`nodes, trie`store, trie.nodes, clients[i], clients[i].readBuf
      ensures var e := Rounds.Read(s, i, o);
        t == Step(s, e) && sends == AcksOf(s, e) && (ok <==> e.client in t.active)
      ensures Is(t) && trie.AddsNodes()
    {
      var chunk := Take(i, o, s);
      ok, sends, t := DataReady(i, chunk, o.budget, s);
    }

    lemma Belongs(s: Session<Client>, i: nat)
      requires ListsAre(s) && ListsOk(s) && i < |clients|
      ensures clients[i] in s.info.Keys && clients[i].readBuf in Buffers(s)
    {
    }

    /** One place of the scan; a client that fails leaves its place to the next. */
    method ScanPlace(i: nat, r: Option<Offer>, ghost s: Session<Client>)
      returns (next: nat, sends: seq<Sending>, ghost e: seq<Event<Client>>, ghost t: Session<Client>)
      requires Is(s) && i < |clients|
      modifies this, trie`at, trie`nodes, trie`store, trie.nodes, clients[i], clients[i].readBuf
      ensures PlaceIs(s, i, r, e, t, next, sends) && Is(t) && trie.AddsNodes()
    {
      if r.None? {
        PlaceSkipped(s, i);
        return i + 1, [], [], s;
      }
      e := [Rounds.Read(s, i, r.value)];
      var ok;
      ok, sends, t := ReadFrom(i, r.value, s);
      PlaceRead(s, i, r.value, ok);
      next := if ok then i + 1 else i;
    }

    /** The scan over the clients. */
    method Scan(ready: seq<Option<Offer>>, ghost s0: Session<Client>)
      returns (sends: seq<Sending>, ghost evs: seq<Event<Client>>)
      requires Is(s0)
      modifies Footprint(s0)
      ensures evs == ScanEvents(s0, 0, ready) && Possible(s0, evs) && sends == AcksOfAll(s0, evs)
      ensures Is(Run(s0, evs)) && Run(s0, evs).info.Keys == s0.info.Keys && trie.AddsNodes()
    {
      ghost var s := s0;
      var i: nat, k: nat := 0, 0;
      sends, evs := [], [];
      ScanStart(s0, ready);
      while i < |clients| && k < |ready|
        invariant Is(s) && ScanAt(s0, ready, s, i, k, evs, sends) && trie.AddsNodes()
        decreases |ready| - k
      {
        var next, more;
        ghost var e, t;
        Belongs(s, i);
        next, more, e, t := ScanPlace(i, ready[k], s);
        ScanMove(s0, ready, s, i, k, evs, sends, e, t, next, more);
        i, k, sends, evs, s := next, k + 1, sends + more, evs + e, t;
      }
      ScanEnd(s0, ready, s, i, k, evs, sends);
    }

    /** The datagram part of a round. */
    method PublishPart(p: Poll, ghost s: Session<Client>) returns (sends: seq<Sending>)
      requires Is(s) && PollOk(p)
      ensures Is(s) && sends == PublishSends(s, p) && trie.nodes == old(trie.nodes)
    {
      sends := [];
      if p.udp.Some? {
        var d := p.udp.value;
        var buf := new byte[MAX_UDP_PAYLOAD](i requires 0 <= i < MAX_UDP_PAYLOAD => d.buf[i]);
        assert buf[..] == d.buf;
        Undisturbed(s);
        var seen;
        seen, sends := Datagram(buf, d.n, d.ip, d.port, s);
      }
    }

    /** The connection part of a round. */
    method AcceptPart(tcp: Option<Arrival>, ghost s: Session<Client>)
      returns (ghost evs: seq<Event<Client>>, ghost t: Session<Client>)
      requires Is(s) && (tcp.Some? ==> tcp.value.fd >= 0 && |tcp.value.raw| <= 15)
      modifies this, trie`store, inactive
      ensures AcceptIs(s, tcp, evs, t) && Is(t) && AddsClients(s, t) && trie.nodes == old(trie.nodes)
    {
      evs, t := [], s;
      if tcp.Some? {
        var a := tcp.value;
        ghost var token := NewConnection(a.fd, a.raw, a.created, s);
        evs, t := [Connect(token, a.fd, a.raw)], Step(s, Connect(token, a.fd, a.raw));
        OnlyTheNewClient(s, token, a.fd, a.raw);
      }
    }

    /** The connection and the scan of a round. */
    method ClientsPart(p: Poll, ghost s: Session<Client>)
      returns (acks: seq<Sending>, ghost evs: seq<Event<Client>>, ghost t: Session<Client>)
      requires Is(s) && PollOk(p)
      modifies Footprint(s)
      ensures RoundIs(s, p, evs) && Possible(s, evs) && t == Run(s, evs) && acks == AcksOfAll(s, evs)
      ensures Is(t) && trie.AddsNodes() && AddsClients(s, t)
    {
      ghost var a, mid, b;
      a, mid := AcceptPart(p.tcp, s);
      FootprintGrows(s, mid);
      acks, b := Scan(p.ready, mid);
      RoundParts(s, p, a, mid, b);
      evs, t := a + b, Run(mid, b);
    }

    /** One round of the main loop: datagram, connection, scan. */
    method Round(p: Poll, ghost s: Session<Client>)
      returns (sends: seq<Sending>, ghost evs: seq<Event<Client>>, ghost t: Session<Client>)
      requires Is(s) && PollOk(p)
      modifies Footprint(s)
      ensures RoundIs(s, p, evs) && Possible(s, evs) && sends == PublishSends(s, p) + AcksOfAll(s, evs)
      ensures t == Run(s, evs) && Is(t) && trie.AddsNodes() && AddsClients(s, t)
    {
      sends := PublishPart(p, s);
      var acks;
      acks, evs, t := ClientsPart(p, s);
      sends := sends + acks;
    }

    static twostate lemma BothFresh(new a: set<object>, new b: set<object>)
      requires fresh(a) && fresh(b)
      ensures fresh(a + b)
    {
    }

    static lemma WithinAll(foot: set<object>, a: set<object>, b: set<object>)
      ensures foot + a + b == foot + (a + b)
    {
    }

    /** The same, with the objects it may change, `foot`, and those it adds. */
    method RoundWithin(p: Poll, ghost s: Session<Client>, ghost foot: set<object>)
      returns (sends: seq<Sending>, ghost evs: seq<Event<Client>>, ghost t: Session<Client>, ghost added: set<object>)
      requires Is(s) && PollOk(p) && Footprint(s) <= foot
      modifies foot
      ensures RoundIs(s, p, evs) && Possible(s, evs) && sends == PublishSends(s, p) + AcksOfAll(s, evs)
      ensures t == Run(s, evs) && Is(t) && fresh(added) && Footprint(t) <= foot + added
    {
      sends, evs, t := Round(p, s);
      FootprintGrows(s, t);
      added := Footprint(t) - old(Footprint(s));
    }

    /** The main loop, until "exit" was read in the last round. */
    method MainLoop(polls: seq<Poll>)
      returns (sends: seq<Sending>, ghost rounds: seq<seq<Event<Client>>>,
               ghost s: Session<Client>, ghost added: set<object>)
      requires Is(Start()) && AllOk(polls)
      modifies Footprint(Start())
      ensures RunAt(polls, |polls|, rounds, s, sends)
      ensures Is(s) && fresh(added) && Footprint(s) <= old(Footprint(Start())) + added
    {
      ghost var foot := Footprint(Start());
      sends, rounds, s, added := [], [], Start(), {};
      var k := 0;
      RunStart<Client>(polls);
      while k < |polls|
        invariant 0 <= k <= |polls| && RunAt(polls, k, rounds, s, sends)
        invariant Is(s) && fresh(added) && Footprint(s) <= foot + added
      {
        var more;
        ghost var evs, t, extra;
        more, evs, t, extra := RoundWithin(polls[k], s, foot + added);
        RunMore(polls, k, rounds, s, sends, evs, more);
        BothFresh(added, extra);
        WithinAll(foot, added, extra);
        k, sends, rounds, s, added := k + 1, sends + more, rounds + [evs], t, added + extra;
      }
    }
  }

  /** `run_server`: a server that gets `polls` from its polls, the last one being that in
      which "exit" was read, sends what the run of the state machine sends, and ends with a
      bare root. */
  method RunServer(polls: seq<Poll>)
    returns (b: Broker, sends: seq<Sending>, ghost rounds: seq<seq<Event<Client>>>)
    requires AllOk(polls)
    ensures Tells(polls, rounds) && Possible(Start<Client>(), Concat(rounds)) && sends == Output(polls, rounds)
    ensures b.trie.Valid() && b.trie.root.IsEmpty() && b.trie.at == map[Root := b.trie.root]
  {
    b := new Broker();
    ghost var s, added;
    ghost var foot := b.Footprint(Start());
    sends, rounds, s, added := b.MainLoop(polls);
    RunEnd(polls, rounds, s, sends);
    ToldIsPossible(polls, rounds);
    Broker.BothFresh(foot, added);
    b.Stop(s, foot + added);
  }
}
