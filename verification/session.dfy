/** The server's session state as a value, its steps, and what holds over whole runs.
    Clients are tokens of any type `C`; in the server they are object references. */
module Session {
  import opened Bytes
  import opened Patterns
  import opened Index
  import opened Protocol
  import opened Decoder
  import opened Requests

  /** The fields of a `client_t`: its name, its socket (-1 for none), and the bytes in
      its read buffer. */
  datatype Info = Info(id: bytes, fd: int, pending: bytes)

  /** `active` and `inactive` are the two client lists, newest first. */
  datatype Session<C> = Session(
    active: seq<C>, inactive: seq<C>, count: int, info: map<C, Info>, store: Store<C>)

  const MAX_ID: nat := 15
  const CR: byte := 13
  const LF: byte := 10

  /** The client's name: what it sent up to the first NUL, CR or LF. */
  function IdOf(raw: bytes): (id: bytes)
    ensures id <= raw && 0 !in id && 10 !in id && 13 !in id
    ensures |id| < |raw| ==> raw[|id|] == 0 || raw[|id|] == 10 || raw[|id|] == 13
  {
    if raw == [] || raw[0] == NUL || raw[0] == CR || raw[0] == LF then [] else [raw[0]] + IdOf(raw[1..])
  }

  /** A name ends at the first byte 0, 10 or 13, or where the bytes end. */
  lemma {:induction false} IdIs(id: bytes, rest: bytes)
    requires 0 !in id && 10 !in id && 13 !in id
    requires rest == [] || rest[0] == 0 || rest[0] == 10 || rest[0] == 13
    ensures IdOf(id + rest) == id
  {
    if id == [] {
      AppendNothing(rest);
    } else {
      AppendTail(id, rest);
      IdIs(id[1..], rest);
      HeadTail(id);
    }
  }

  /** The first client of a list that goes by `id`. */
  function FindById<C(==)>(cs: seq<C>, info: map<C, Info>, id: bytes): (r: Option<C>)
    requires forall c | c in cs :: c in info
    ensures r.Some? ==> r.value in cs && info[r.value].id == id
    ensures r.None? ==> forall c | c in cs :: info[c].id != id
  {
    if cs == [] then None
    else if info[cs[0]].id == id then Some(cs[0])
    else FindById(cs[1..], info, id)
  }

  /** What can happen to the server. `Connect` is an accepted connection on `fd` whose
      first `recv` gave `raw`, nothing when it failed; `token` is the fresh client that
      `client_create` yields, if it is called and succeeds. `Data` is one `recv` on a
      client, `chunk` empty when it failed or found the peer gone; the client's socket
      takes `budget` more sends. */
  datatype Event<C> =
    | Connect(token: Option<C>, fd: int, raw: bytes)
    | Data(client: C, chunk: bytes, budget: nat)

  ghost predicate Enabled<C>(s: Session<C>, e: Event<C>) {
    match e
    case Connect(token, fd, raw) => (token.Some? ==> token.value !in s.info) && fd >= 0 && |raw| <= MAX_ID
    case Data(c, chunk, _) => c in s.active && c in s.info && |s.info[c].pending| + |chunk| <= READ_BUF_SIZE
  }

  /** Every known client is on exactly one of the two lists, once. */
  ghost predicate ListsOk<C>(s: Session<C>) {
    && NoDuplicates(s.active) && NoDuplicates(s.inactive)
    && (forall c | c in s.active :: c in s.info && c !in s.inactive)
    && (forall c | c in s.inactive :: c in s.info)
    && (forall c | c in s.info :: c in s.active || c in s.inactive)
  }

  /** Exactly the active clients have a socket, and every read buffer holds an
      incomplete frame. */
  ghost predicate InfoOk<C>(s: Session<C>) {
    && (forall c | c in s.active && c in s.info :: s.info[c].fd >= 0)
    && (forall c | c in s.inactive && c in s.info :: s.info[c].fd == -1)
    && (forall c | c in s.info :: !Complete(s.info[c].pending) && !Bogus(s.info[c].pending))
  }

  /** No ID is in use twice, over both lists together. */
  ghost predicate IdsUnique<C>(info: map<C, Info>) {
    forall c, d | c in info && d in info && info[c].id == info[d].id :: c == d
  }

  /** What holds of the clients, whatever they are subscribed to. */
  ghost predicate RosterOk<C>(s: Session<C>) {
    ListsOk(s) && InfoOk(s) && IdsUnique(s.info) && s.count == |s.active|
  }

  ghost predicate SessionOk<C>(s: Session<C>) {
    Good(s.store) && s.store.refs.Keys == s.info.Keys && RosterOk(s)
  }

  // ------------------------------------------------------------------
  // Steps

  /** A known client is given a new socket and an empty buffer. */
  ghost function Revived<C>(s: Session<C>, c: C, fd: int): Session<C>
    requires c in s.info
  {
    Session([c] + s.active, RemoveFirst(s.inactive, c), s.count + 1, s.info[c := Info(s.info[c].id, fd, [])], s.store)
  }

  ghost function Added<C>(s: Session<C>, c: C, fd: int, id: bytes): Session<C> {
    Session([c] + s.active, s.inactive, s.count + 1, s.info[c := Info(id, fd, [])],
            Store(s.store.view, s.store.refs[c := []]))
  }

  /** The lookup by ID in `handle_new_tcp_connection`, then reviving or creating. */
  ghost function StepConnect<C>(s: Session<C>, token: Option<C>, fd: int, raw: bytes): Session<C>
    requires ListsOk(s)
  {
    var id := IdOf(raw);
    var known := FindById(s.inactive, s.info, id);
    if raw == [] || FindById(s.active, s.info, id).Some? then s
    else if known.Some? then Revived(s, known.value, fd)
    else if token.None? then s
    else Added(s, token.value, fd, id)
  }

  /** A failed client goes to the front of the inactive list; its subscriptions stay. */
  ghost function Drop<C>(s: Session<C>, c: C): Session<C>
    requires c in s.info
  {
    Session(RemoveFirst(s.active, c), [c] + s.inactive, s.count - 1, s.info[c := Info(s.info[c].id, -1, [])], s.store)
  }

  /** After client `c` was handled and before it is dropped, if it has to be. */
  ghost function Handled<C>(s: Session<C>, c: C, chunk: bytes, h: Outcome<C>): Session<C>
    requires c in s.info
  {
    s.(store := h.store,
       info := if h.ok then s.info[c := s.info[c].(pending := ParseBuffer(s.info[c].pending + chunk).rest)] else s.info)
  }

  ghost function StepData<C>(s: Session<C>, c: C, chunk: bytes, budget: nat): Session<C>
    requires Good(s.store) && c in s.info && c in s.store.refs
  {
    var h := HandleRecv(s.store, c, s.info[c].pending, chunk, budget);
    if h.ok then Handled(s, c, chunk, h) else Drop(Handled(s, c, chunk, h), c)
  }

  // ------------------------------------------------------------------
  // The session invariant

  /** Moving a client to the front of the other list. */
  lemma MoveKeepsLists<T>(from: seq<T>, to: seq<T>, c: T)
    requires NoDuplicates(from) && NoDuplicates(to) && c in from && c !in to
    ensures NoDuplicates(RemoveFirst(from, c)) && NoDuplicates([c] + to)
    ensures forall d :: d in RemoveFirst(from, c) <==> d in from && d != c
  {
    RemoveFirstDistinct(from, c);
  }

  lemma ReviveRoster<C>(s: Session<C>, c: C, fd: int)
    requires RosterOk(s) && c in s.inactive && fd >= 0
    ensures RosterOk(Revived(s, c, fd))
  {
    MoveKeepsLists(s.inactive, s.active, c);
    var t := Revived(s, c, fd);
    assert ListsOk(t);
    assert InfoOk(t);
    assert IdsUnique(t.info);
  }

  lemma AddRoster<C>(s: Session<C>, c: C, fd: int, id: bytes)
    requires RosterOk(s) && c !in s.info && fd >= 0 && forall d | d in s.info :: s.info[d].id != id
    ensures RosterOk(Added(s, c, fd, id))
  {
    var t := Added(s, c, fd, id);
    assert ListsOk(t);
    assert InfoOk(t);
    assert IdsUnique(t.info);
  }

  lemma DropRoster<C>(s: Session<C>, c: C)
    requires RosterOk(s) && c in s.active
    ensures RosterOk(Drop(s, c))
  {
    MoveKeepsLists(s.active, s.inactive, c);
    RemoveFirstLength(s.active, c);
    var t := Drop(s, c);
    assert ListsOk(t);
    assert InfoOk(t);
    assert IdsUnique(t.info);
  }

  lemma HandledRoster<C>(s: Session<C>, c: C, chunk: bytes, h: Outcome<C>)
    requires RosterOk(s) && c in s.active
    requires h.ok ==> !ParseBuffer(s.info[c].pending + chunk).bogus
    ensures RosterOk(Handled(s, c, chunk, h))
  {
    LeftoverFits(s.info[c].pending + chunk);
    var t := Handled(s, c, chunk, h);
    assert ListsOk(t);
    assert InfoOk(t);
    assert IdsUnique(t.info);
  }

  lemma ReviveKeeps<C>(s: Session<C>, c: C, fd: int)
    requires SessionOk(s) && c in s.inactive && fd >= 0
    ensures SessionOk(Revived(s, c, fd))
  {
    ReviveRoster(s, c, fd);
  }

  lemma AddKeeps<C>(s: Session<C>, c: C, fd: int, id: bytes)
    requires SessionOk(s) && c !in s.info && fd >= 0 && forall d | d in s.info :: s.info[d].id != id
    ensures SessionOk(Added(s, c, fd, id))
  {
    NewClientKeepsStore(s.store, c);
    AddRoster(s, c, fd, id);
  }

  /** A connection is refused, revives the client with its ID, or adds a client. */
  lemma ConnectionCases<C>(s: Session<C>, token: Option<C>, fd: int, raw: bytes)
    requires ListsOk(s) && IdsUnique(s.info)
    ensures var id, t := IdOf(raw), StepConnect(s, token, fd, raw);
      && (raw == [] || (exists c | c in s.active :: s.info[c].id == id) ==> t == s)
      && (raw != [] ==> forall c | c in s.inactive && s.info[c].id == id :: t == Revived(s, c, fd))
      && (raw != [] && (forall c | c in s.info :: s.info[c].id != id) ==>
            t == if token.Some? then Added(s, token.value, fd, id) else s)
  {
    if raw != [] {
      forall c | c in s.inactive && s.info[c].id == IdOf(raw)
        ensures StepConnect(s, token, fd, raw) == Revived(s, c, fd)
      {
        assert FindById(s.active, s.info, IdOf(raw)).None?;
      }
    }
  }

  lemma ConnectKeeps<C>(s: Session<C>, token: Option<C>, fd: int, raw: bytes)
    requires SessionOk(s) && Enabled(s, Connect(token, fd, raw))
    ensures SessionOk(StepConnect(s, token, fd, raw))
  {
    var id := IdOf(raw);
    if raw != [] && FindById(s.active, s.info, id).None? {
      var known := FindById(s.inactive, s.info, id);
      if known.Some? {
        ReviveKeeps(s, known.value, fd);
      } else if token.Some? {
        AddKeeps(s, token.value, fd, id);
      }
    }
  }

  lemma DisconnectKeeps<C>(s: Session<C>, c: C)
    requires SessionOk(s) && c in s.active
    ensures SessionOk(Drop(s, c))
  {
    DropRoster(s, c);
  }

  lemma HandledKeeps<C>(s: Session<C>, c: C, chunk: bytes, budget: nat)
    requires SessionOk(s) && c in s.active
    ensures SessionOk(Handled(s, c, chunk, HandleRecv(s.store, c, s.info[c].pending, chunk, budget)))
  {
    HandledRoster(s, c, chunk, HandleRecv(s.store, c, s.info[c].pending, chunk, budget));
  }

  lemma DataKeeps<C>(s: Session<C>, c: C, chunk: bytes, budget: nat)
    requires SessionOk(s) && c in s.active
    ensures SessionOk(StepData(s, c, chunk, budget))
  {
    var h := HandleRecv(s.store, c, s.info[c].pending, chunk, budget);
    HandledKeeps(s, c, chunk, budget);
    if !h.ok {
      DisconnectKeeps(Handled(s, c, chunk, h), c);
    }
  }

  ghost function Step<C>(s: Session<C>, e: Event<C>): (t: Session<C>)
    requires SessionOk(s) && Enabled(s, e)
    ensures SessionOk(t)
  {
    match e
    case Connect(token, fd, raw) =>
      ConnectKeeps(s, token, fd, raw);
      StepConnect(s, token, fd, raw)
    case Data(c, chunk, budget) =>
      DataKeeps(s, c, chunk, budget);
      StepData(s, c, chunk, budget)
  }

  /** The server before its first event: a bare root and no clients. */
  ghost function Start<C>(): (s: Session<C>)
    ensures SessionOk(s)
  {
    var v: View<C> := map[Root := Entry([], [])];
    assert Named(v);
    Session([], [], 0, map[], Store(v, map[]))
  }
}
