/** Whole runs of the server: what every reachable state satisfies, what a client's
    subscriptions are in terms of its own requests, and what shutdown leaves. */
module Runs {
  import opened Bytes
  import opened Topics
  import opened Patterns
  import opened Index
  import opened Search
  import opened Protocol
  import opened Decoder
  import opened Requests
  import opened Session

  /** Every event of the run was possible when it happened. */
  ghost predicate Possible<C>(s: Session<C>, evs: seq<Event<C>>)
    requires SessionOk(s)
    decreases |evs|
  {
    evs == [] ||
    (Enabled(s, evs[0]) && Possible(Step(s, evs[0]), evs[1..]))
  }

  ghost function Run<C>(s: Session<C>, evs: seq<Event<C>>): (t: Session<C>)
    requires SessionOk(s) && Possible(s, evs)
    ensures SessionOk(t)
    decreases |evs|
  {
    if evs == [] then s else Run(Step(s, evs[0]), evs[1..])
  }

  /** The session invariant holds, and the trie is canonical, in every reachable state:
      IDs unique over both lists, the count right, inactive clients without a socket,
      the nodes exactly the prefixes of live patterns. */
  lemma ReachableStates<C>(evs: seq<Event<C>>)
    requires Possible(Start<C>(), evs)
    ensures var s := Run(Start<C>(), evs);
      && SessionOk(s)
      && (forall c, d | c in s.info && d in s.info && s.info[c].id == s.info[d].id :: c == d)
      && (forall c | c in s.info :: (c in s.active) != (c in s.inactive) && (c in s.inactive <==> s.info[c].fd == -1))
      && NoDuplicates(s.active) && NoDuplicates(s.inactive) && s.count == |s.active|
      && (forall p :: p in s.store.view <==>
            p == Root || exists c, i | c in s.store.refs && 0 <= i < |s.store.refs[c]| :: Above(p, s.store.refs[c][i]))
  {
    var s := Run(Start<C>(), evs);
    forall p
      ensures p in s.store.view <==>
              p == Root || exists c, i | c in s.store.refs && 0 <= i < |s.store.refs[c]| :: Above(p, s.store.refs[c][i])
    {
      NodesAreLivePrefixes(s.store, p);
    }
  }

  // ------------------------------------------------------------------
  // One client's life

  /** What the client with a given ID has been through, told from its own connections
      and messages alone. `served` lists its requests that took effect. */
  datatype Life<C> =
    | Unseen
    | Seen(token: C, active: bool, pending: bytes, mine: seq<Path>, served: seq<Msg>)

  function LifeStep<C(==)>(id: bytes, v: Life<C>, e: Event<C>): Life<C> {
    match e
    case Connect(token, _, raw) =>
      if raw == [] || IdOf(raw) != id then v
      else if v.Unseen? then (if token.Some? then Seen(token.value, true, [], [], []) else v)
      else if v.active then v
      else v.(active := true, pending := [])
    case Data(c, chunk, budget) =>
      if v.Unseen? || c != v.token then v
      else if chunk == [] then v.(active := false, pending := [])
      else
        var scan := ParseBuffer(v.pending + chunk);
        var r := SoloAll(v.mine, scan.msgs, budget);
        var ok := r.ok && !scan.bogus;
        Seen(c, ok, if ok then scan.rest else [], r.mine, v.served + r.served)
  }

  function LifeRun<C(==)>(id: bytes, v: Life<C>, evs: seq<Event<C>>): Life<C>
    decreases |evs|
  {
    if evs == [] then v else LifeRun(id, LifeStep(id, v, evs[0]), evs[1..])
  }

  /** The requests of client `id` that were served in a run of the server. */
  function ServedIn<C(==)>(id: bytes, evs: seq<Event<C>>): seq<Msg> {
    var v := LifeRun(id, Unseen, evs);
    if v.Seen? then v.served else []
  }

  /** The shared session shows client `id` exactly as its own life has it. */
  ghost predicate Shows<C>(s: Session<C>, id: bytes, v: Life<C>)
    requires s.store.refs.Keys == s.info.Keys
  {
    if v.Unseen? then forall c | c in s.info :: s.info[c].id != id
    else
      && v.token in s.info && s.info[v.token].id == id
      && (v.active <==> v.token in s.active)
      && v.pending == s.info[v.token].pending
      && v.mine == s.store.refs[v.token]
  }

  ghost predicate WellServed<C>(v: Life<C>) {
    v.Seen? ==> Served([], v.served) && v.mine == Replay([], v.served)
  }

  lemma WellServedStep<C>(id: bytes, v: Life<C>, e: Event<C>)
    requires WellServed(v)
    ensures WellServed(LifeStep(id, v, e))
  {
    if e.Data? && v.Seen? && e.client == v.token && e.chunk != [] {
      var ms := ParseBuffer(v.pending + e.chunk).msgs;
      var r := SoloAll(v.mine, ms, e.budget);
      SoloIsReplay(v.mine, ms, e.budget);
      SoloServes(v.mine, ms, e.budget);
      ServedAppend([], v.served, r.served);
      ReplayAppend([], v.served, r.served);
    }
  }

  lemma ConnectShows<C>(s: Session<C>, id: bytes, v: Life<C>, e: Event<C>)
    requires SessionOk(s) && Enabled(s, e) && Shows(s, id, v) && e.Connect?
    ensures Shows(Step(s, e), id, LifeStep(id, v, e))
  {
    ConnectionCases(s, e.token, e.fd, e.raw);
    if e.raw == [] || IdOf(e.raw) != id {
      ConnectOfOthers(s, id, v, e);
    } else if v.Seen? {
      ConnectSeen(s, id, v, e);
    }
  }

  lemma RevivalOfOthers<C>(s: Session<C>, id: bytes, v: Life<C>, c: C, fd: int)
    requires ListsOk(s) && s.store.refs.Keys == s.info.Keys && Shows(s, id, v) && c in s.inactive && s.info[c].id != id
    ensures Shows(Revived(s, c, fd), id, v)
  {
  }

  lemma AddingOfOthers<C>(s: Session<C>, id: bytes, v: Life<C>, c: C, fd: int, other: bytes)
    requires s.store.refs.Keys == s.info.Keys && Shows(s, id, v) && c !in s.info && other != id
    ensures Shows(Added(s, c, fd, other), id, v)
  {
  }

  lemma ConnectOfOthers<C>(s: Session<C>, id: bytes, v: Life<C>, e: Event<C>)
    requires RosterOk(s) && s.store.refs.Keys == s.info.Keys && Enabled(s, e) && Shows(s, id, v) && e.Connect?
    requires e.raw == [] || IdOf(e.raw) != id
    ensures var t := StepConnect(s, e.token, e.fd, e.raw); t.store.refs.Keys == t.info.Keys && Shows(t, id, v)
  {
    var other := IdOf(e.raw);
    var known := FindById(s.inactive, s.info, other);
    if e.raw != [] && FindById(s.active, s.info, other).None? {
      if known.Some? {
        RevivalOfOthers(s, id, v, known.value, e.fd);
      } else if e.token.Some? {
        AddingOfOthers(s, id, v, e.token.value, e.fd, other);
      }
    }
  }

  lemma ConnectSeen<C>(s: Session<C>, id: bytes, v: Life<C>, e: Event<C>)
    requires RosterOk(s) && s.store.refs.Keys == s.info.Keys && Enabled(s, e) && Shows(s, id, v) && e.Connect?
    requires v.Seen? && e.raw != [] && IdOf(e.raw) == id
    ensures var t := StepConnect(s, e.token, e.fd, e.raw);
      t.store.refs.Keys == t.info.Keys && Shows(t, id, LifeStep(id, v, e))
  {
    ConnectionCases(s, e.token, e.fd, e.raw);
    assert v.token in s.active || v.token in s.inactive;
  }

  lemma DropShows<C>(s: Session<C>, id: bytes, v: Life<C>, c: C)
    requires SessionOk(s) && c in s.active && Shows(s, id, v)
    ensures Shows(Drop(s, c), id, if v.Seen? && v.token == c then v.(active := false, pending := []) else v)
  {
    RemoveFirstDistinct(s.active, c);
  }

  /** After a `recv` from `c` was handled, before the lists are touched. */
  lemma HandledShows<C>(s: Session<C>, id: bytes, v: Life<C>, c: C, chunk: bytes, h: Outcome<C>)
    requires s.store.refs.Keys == s.info.Keys == h.store.refs.Keys && c in s.info && Shows(s, id, v)
    requires forall d | d in s.info && d != c :: h.store.refs[d] == s.store.refs[d]
    ensures var rest := if h.ok then ParseBuffer(s.info[c].pending + chunk).rest else s.info[c].pending;
      Shows(Handled(s, c, chunk, h), id,
            if v.Seen? && v.token == c then v.(mine := h.store.refs[c], pending := rest) else v)
  {
  }

  lemma DataShows<C>(s: Session<C>, id: bytes, v: Life<C>, e: Event<C>)
    requires SessionOk(s) && Enabled(s, e) && Shows(s, id, v) && e.Data?
    ensures Shows(Step(s, e), id, LifeStep(id, v, e))
  {
    var c := e.client;
    var h := HandleRecv(s.store, c, s.info[c].pending, e.chunk, e.budget);
    HandledShows(s, id, v, c, e.chunk, h);
    HandledKeeps(s, c, e.chunk, e.budget);
    if e.chunk != [] {
      HandlingIsSolo(s.store, c, ParseBuffer(s.info[c].pending + e.chunk).msgs, e.budget);
    }
    if !h.ok {
      var mid := if v.Seen? && v.token == c then v.(mine := h.store.refs[c]) else v;
      DropShows(Handled(s, c, e.chunk, h), id, mid, c);
    }
  }

  /** Whatever the other clients do, and however connects, disconnects and messages
      interleave, the session shows each client its own life. */
  lemma {:induction false} LivesFollowRun<C>(s: Session<C>, id: bytes, v: Life<C>, evs: seq<Event<C>>)
    requires SessionOk(s) && Possible(s, evs) && Shows(s, id, v) && WellServed(v)
    ensures Shows(Run(s, evs), id, LifeRun(id, v, evs)) && WellServed(LifeRun(id, v, evs))
    decreases |evs|
  {
    if evs != [] {
      var e := evs[0];
      WellServedStep(id, v, e);
      match e {
        case Connect(_, _, _) => ConnectShows(s, id, v, e);
        case Data(_, _, _) => DataShows(s, id, v, e);
      }
      LivesFollowRun(Step(s, e), id, LifeStep(id, v, e), evs[1..]);
    }
  }

  /** In every reachable state a client's reference list is the fold of its own served
      requests, and each pattern is held once per served subscription less once per
      served unsubscription, through any disconnects and reconnects. */
  lemma History<C>(evs: seq<Event<C>>, c: C)
    requires Possible(Start<C>(), evs) && c in Run(Start<C>(), evs).info
    ensures var s := Run(Start<C>(), evs);
      var served := ServedIn(s.info[c].id, evs);
      && s.store.refs[c] == Replay([], served)
      && forall p :: multiset(s.store.refs[c])[p] == Net(served, p)
  {
    var s := Run(Start<C>(), evs);
    var id := s.info[c].id;
    LivesFollowRun(Start<C>(), id, Unseen, evs);
    var v := LifeRun(id, Unseen, evs);
    forall p
      ensures multiset(s.store.refs[c])[p] == Net(v.served, p)
    {
      ReplayCounts([], v.served, p);
    }
  }

  /** Is the event about the client with this ID, as its life stands? */
  predicate Concerns<C(==)>(id: bytes, v: Life<C>, e: Event<C>) {
    match e
    case Connect(_, _, raw) => raw != [] && IdOf(raw) == id
    case Data(c, _, _) => v.Seen? && c == v.token
  }

  function Own<C(==)>(id: bytes, v: Life<C>, evs: seq<Event<C>>): seq<Event<C>>
    decreases |evs|
  {
    if evs == [] then []
    else
      var rest := Own(id, LifeStep(id, v, evs[0]), evs[1..]);
      if Concerns(id, v, evs[0]) then [evs[0]] + rest else rest
  }

  /** Runs that agree on a client's own events end with the same subscriptions for it,
      whatever else happened in them. */
  lemma NonInterference<C>(a: seq<Event<C>>, b: seq<Event<C>>, c: C)
    requires Possible(Start<C>(), a) && Possible(Start<C>(), b)
    requires c in Run(Start<C>(), a).info
    requires var id := Run(Start<C>(), a).info[c].id; Own(id, Unseen, a) == Own(id, Unseen, b)
    ensures c in Run(Start<C>(), b).info
    ensures Run(Start<C>(), a).store.refs[c] == Run(Start<C>(), b).store.refs[c]
  {
    var id := Run(Start<C>(), a).info[c].id;
    LivesFollowRun(Start<C>(), id, Unseen, a);
    LivesFollowRun(Start<C>(), id, Unseen, b);
    OwnEventsTell(id, Unseen, a);
    OwnEventsTell(id, Unseen, b);
  }

  lemma {:induction false} OwnEventsTell<C>(id: bytes, v: Life<C>, evs: seq<Event<C>>)
    ensures LifeRun(id, v, evs) == LifeRun(id, v, Own(id, v, evs))
    decreases |evs|
  {
    if evs != [] {
      var w := LifeStep(id, v, evs[0]);
      OwnEventsTell(id, w, evs[1..]);
      var rest := Own(id, w, evs[1..]);
      if Concerns(id, v, evs[0]) {
        ConsTail(evs[0], rest);
      } else {
        assert w == v;
      }
    }
  }

  /** Who, if anybody, a connection under the name `id` is about: it is refused when nothing
      came or the owner of the name is connected; it revives the client that has the name;
      or the name is new. */
  ghost predicate Refused<C>(s: Session<C>, raw: bytes, id: bytes) {
    raw == [] || exists c | c in s.active && c in s.info :: s.info[c].id == id
  }

  ghost predicate Returns<C>(s: Session<C>, raw: bytes, id: bytes, c: C) {
    raw != [] && c in s.inactive && c in s.info && s.info[c].id == id
  }

  ghost predicate IsNew<C>(s: Session<C>, raw: bytes, id: bytes) {
    raw != [] && forall c | c in s.info :: s.info[c].id != id
  }

  /** What came is the name `id`, ended by a byte 0, 10 or 13 or by itself. */
  predicate Names(raw: bytes, id: bytes, rest: bytes) {
    && raw == id + rest && 0 !in id && 10 !in id && 13 !in id
    && (rest == [] || rest[0] == 0 || rest[0] == 10 || rest[0] == 13)
  }

  /** Exactly one of the three holds of a connection. */
  lemma ConnectionKinds<C>(s: Session<C>, raw: bytes, id: bytes)
    requires RosterOk(s)
    ensures Refused(s, raw, id) || IsNew(s, raw, id) || exists c :: Returns(s, raw, id, c)
    ensures !(Refused(s, raw, id) && IsNew(s, raw, id))
    ensures forall c | Returns(s, raw, id, c) :: !Refused(s, raw, id) && !IsNew(s, raw, id)
  {
    var known := FindById(s.inactive, s.info, id);
    assert known.Some? ==> raw == [] || Returns(s, raw, id, known.value);
  }

  /** What a connection changes: nothing if it is refused, or new while `client_create`
      fails. A returning client, and no other, becomes active with the new socket and an
      empty buffer; a new one is added without subscriptions. Nobody else's subscriptions
      change in any case. */
  lemma ConnectionOutcome<C>(s: Session<C>, e: Event<C>, id: bytes, rest: bytes)
    requires SessionOk(s) && Enabled(s, e) && e.Connect? && Names(e.raw, id, rest)
    ensures var t := Step(s, e);
      && (t == s <==> Refused(s, e.raw, id) || (IsNew(s, e.raw, id) && e.token.None?))
      && (forall c | Returns(s, e.raw, id, c) ::
            && t.info == s.info[c := Info(id, e.fd, [])] && t.count == s.count + 1 && t.store == s.store
            && t.active == [c] + s.active && multiset(t.inactive) == multiset(s.inactive) - multiset{c})
      && (IsNew(s, e.raw, id) && e.token.Some? ==>
            var c := e.token.value;
            && t.info == s.info[c := Info(id, e.fd, [])] && t.count == s.count + 1
            && t.active == [c] + s.active && t.inactive == s.inactive
            && t.store.view == s.store.view && t.store.refs == s.store.refs[c := []])
      && (forall c | c in s.info :: c in t.info && c in t.store.refs && t.store.refs[c] == s.store.refs[c])
  {
    IdIs(id, rest);
    ConnectionKinds(s, e.raw, id);
    ConnectionCases(s, e.token, e.fd, e.raw);
  }

  /** What a `recv` on an active client changes. It failed, brought a bogus length, or
      brought a request that was rejected or could not be answered: then the client, and no
      other, moves to the front of the inactive list, without socket or pending bytes. Otherwise
      only its pending bytes change. The index is that after the messages it brought. */
  lemma DataOutcome<C>(s: Session<C>, c: C, chunk: bytes, budget: nat)
    requires SessionOk(s) && Enabled(s, Data(c, chunk, budget))
    ensures var t := Step(s, Data(c, chunk, budget));
      var scan := ParseBuffer(s.info[c].pending + chunk);
      var h := HandleAll(s.store, c, scan.msgs, budget);
      && t.store == (if chunk == [] then s.store else h.store)
      && if chunk != [] && h.ok && !scan.bogus
         then
           && t.info == s.info[c := s.info[c].(pending := scan.rest)]
           && t.active == s.active && t.inactive == s.inactive && t.count == s.count
         else
           && t.info == s.info[c := Info(s.info[c].id, -1, [])]
           && (forall i | 0 <= i < |s.active| && s.active[i] == c :: t.active == s.active[..i] + s.active[i + 1..])
           && t.inactive == [c] + s.inactive && t.count == s.count - 1
  {
    forall i | 0 <= i < |s.active| && s.active[i] == c
      ensures RemoveFirst(s.active, c) == s.active[..i] + s.active[i + 1..]
    {
      assert c !in s.active[..i];
      RemoveFirstAt(s.active, c, i);
    }
  }

  // ------------------------------------------------------------------
  // Shutdown

  /** `client_destroy` for every client of a list. */
  ghost function DestroyAll<C>(st: Store<C>, cs: seq<C>): (after: Store<C>)
    requires Good(st) && forall c | c in cs :: c in st.refs
    ensures Good(after) && after.refs.Keys == st.refs.Keys
    ensures forall c | c in st.refs :: after.refs[c] == if c in cs then [] else st.refs[c]
    decreases |cs|
  {
    if cs == [] then st
    else
      CleanupKeeps(st, cs[0]);
      DestroyAll(Cleanup(st, cs[0]), cs[1..])
  }

  /** Destroying the active and then the inactive clients of any reachable state leaves
      a bare root. */
  lemma ShutdownDrains<C>(s: Session<C>)
    requires SessionOk(s)
    ensures DestroyAll(DestroyAll(s.store, s.active), s.inactive).view == map[Root := Entry([], [])]
  {
    var mid := DestroyAll(s.store, s.active);
    var end := DestroyAll(mid, s.inactive);
    forall c | c in end.refs
      ensures end.refs[c] == []
    {
      assert c in s.active || c in s.inactive;
    }
    NoRefsNoNodes(end);
  }

  // ------------------------------------------------------------------
  // From requests to deliveries

  /** A list of patterns and the count of them mean the same topics. */
  lemma MeansByCount(mine: seq<Path>, served: seq<Msg>, t: Topic)
    requires forall p :: multiset(mine)[p] == Net(served, p)
    ensures (exists i | 0 <= i < |mine| :: Reaches(Segs(mine[i]), t)) <==>
            exists p :: Net(served, p) > 0 && Means(Normal(Segs(p)), t)
  {
    if i :| 0 <= i < |mine| && Reaches(Segs(mine[i]), t) {
      SearchMeaning(Segs(mine[i]), t);
      assert mine[i] in multiset(mine);
      assert Net(served, mine[i]) > 0;
    }
    if p :| Net(served, p) > 0 && Means(Normal(Segs(p)), t) {
      SearchMeaning(Segs(p), t);
      assert p in multiset(mine);
      assert p in mine;
    }
  }

  /** In every reachable state, the search finds a client for a topic exactly if the
      client's own served requests leave it with a pattern that means the topic. */
  lemma InterestFollowsRequests<C>(evs: seq<Event<C>>, c: C, t: Topic)
    requires Possible(Start<C>(), evs) && c in Run(Start<C>(), evs).info
    ensures var s := Run(Start<C>(), evs);
      var served := ServedIn(s.info[c].id, evs);
      Interested(s.store, c, t) <==> exists p :: Net(served, p) > 0 && Means(Normal(Segs(p)), t)
  {
    History(evs, c);
    var s := Run(Start<C>(), evs);
    MeansByCount(s.store.refs[c], ServedIn(s.info[c].id, evs), t);
  }
}
