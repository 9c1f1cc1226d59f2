/** What one connection's requests do: the dispatch switch of `client_handle_data`
    folded over decoded messages. */
module Requests {
  import opened Bytes
  import opened Topics
  import opened Patterns
  import opened Index
  import opened Protocol
  import opened Decoder

  /** The position a request talks about: its payload is read as a C string. */
  function Target(m: Msg): Path {
    TextPath(Tokens(CString(m.payload)))
  }

  predicate ShortEnough(m: Msg) {
    |Tokens(CString(m.payload))| <= MAX_SEGMENTS
  }

  lemma TargetFits(m: Msg)
    requires ShortEnough(m)
    ensures Fits(Target(m))
  {
    TokensAreClean(CString(m.payload));
    TextPathFits(Tokens(CString(m.payload)));
  }

  /** Whether a client with reference list `mine` gets its request served. Types other
      than the two requests are ignored, which counts as served. */
  predicate Accepts(mine: seq<Path>, m: Msg) {
    if m.typ == MSG_SUBSCRIBE then ShortEnough(m)
    else if m.typ == MSG_UNSUBSCRIBE then ShortEnough(m) && Target(m) in mine
    else true
  }

  /** The effect of a served request on the client's own list. */
  function Apply(mine: seq<Path>, m: Msg): seq<Path> {
    if m.typ == MSG_SUBSCRIBE then [Target(m)] + mine
    else if m.typ == MSG_UNSUBSCRIBE then RemoveFirst(mine, Target(m))
    else mine
  }

  /** The acknowledgement carries the whole payload back. */
  function Ack(m: Msg): seq<Msg> {
    if m.typ == MSG_SUBSCRIBE then [Msg(MSG_SUBSCRIBE_ACK, m.payload)]
    else if m.typ == MSG_UNSUBSCRIBE then [Msg(MSG_UNSUBSCRIBE_ACK, m.payload)]
    else []
  }

  /** The effect of a served request on the whole index. */
  ghost function ApplyTo<C>(st: Store<C>, c: C, m: Msg): (after: Store<C>)
    requires Good(st) && c in st.refs && Accepts(st.refs[c], m)
    ensures Good(after) && after.refs == st.refs[c := Apply(st.refs[c], m)]
  {
    if m.typ == MSG_SUBSCRIBE then
      TargetFits(m);
      SubscribeKeeps(st, c, Target(m));
      Subscribe(st, c, Target(m))
    else if m.typ == MSG_UNSUBSCRIBE then
      ListedBothSides(st, c, Target(m));
      UnsubscribeKeeps(st, c, Target(m));
      Unsubscribe(st, c, Target(m))
    else
      assert st.refs[c := st.refs[c]] == st.refs;
      st
  }

  /** After some requests: the index, the acknowledgements sent, whether the client is
      still connected, and how many more sends its socket will take. */
  datatype Outcome<C> = Outcome(store: Store<C>, acks: seq<Msg>, ok: bool, budget: nat)

  /** One round of the dispatch switch. The socket takes `budget` more sends. */
  ghost function Handle<C>(st: Store<C>, c: C, m: Msg, budget: nat): (r: Outcome<C>)
    requires Good(st) && c in st.refs
    ensures Good(r.store) && r.store.refs.Keys == st.refs.Keys
    ensures forall d | d in st.refs && d != c :: r.store.refs[d] == st.refs[d]
  {
    if !Accepts(st.refs[c], m) then Outcome(st, [], false, budget)
    else
      var after := ApplyTo(st, c, m);
      if Ack(m) == [] then Outcome(after, [], true, budget)
      else if budget == 0 then Outcome(after, [], false, 0)
      else Outcome(after, Ack(m), true, budget - 1)
  }

  ghost function HandleAll<C>(st: Store<C>, c: C, ms: seq<Msg>, budget: nat): (r: Outcome<C>)
    requires Good(st) && c in st.refs
    ensures Good(r.store) && r.store.refs.Keys == st.refs.Keys
    ensures forall d | d in st.refs && d != c :: r.store.refs[d] == st.refs[d]
    decreases |ms|
  {
    if ms == [] then Outcome(st, [], true, budget)
    else
      var h := Handle(st, c, ms[0], budget);
      if !h.ok then h
      else
        Prepend(h.acks, HandleAll(h.store, c, ms[1..], h.budget))
  }

  /** `r`, with `acks` sent before. */
  ghost function Prepend<C>(acks: seq<Msg>, r: Outcome<C>): Outcome<C> {
    r.(acks := acks + r.acks)
  }

  lemma {:induction false} HandleAppend<C>(st: Store<C>, c: C, a: seq<Msg>, b: seq<Msg>, budget: nat)
    requires Good(st) && c in st.refs
    ensures var h := HandleAll(st, c, a, budget);
      HandleAll(st, c, a + b, budget) ==
      if !h.ok then h
      else Prepend(h.acks, HandleAll(h.store, c, b, h.budget))
    decreases |a|
  {
    if a == [] {
      AppendNothing(b);
      var r := HandleAll(st, c, b, budget);
      AppendNothing(r.acks);
    } else {
      AppendTail(a, b);
      var h := Handle(st, c, a[0], budget);
      if h.ok {
        HandleAppend(h.store, c, a[1..], b, h.budget);
        var k := HandleAll(h.store, c, a[1..], h.budget);
        if k.ok {
          var r := HandleAll(k.store, c, b, k.budget);
          AppendAssoc(h.acks, k.acks, r.acks);
        }
      }
    }
  }

  /** What one message does, by its type and the text of its payload. A SUBSCRIBE (1) of up
      to 64 segments puts the text's position at the front of the client's list and is
      answered with the same payload (4); an UNSUBSCRIBE (2) of a position that is held takes
      its first occurrence off the list and is answered likewise (5). If the answer cannot be
      sent, the client goes all the same. Longer texts and positions not held are rejected
      without effect, and all other types are ignored. Nobody else's list changes. */
  lemma OneMessage<C>(st: Store<C>, c: C, typ: nat, payload: bytes, budget: nat)
    requires Good(st) && c in st.refs
    ensures var path, mine, n := TextPath(Tokens(CString(payload))), st.refs[c], |Tokens(CString(payload))|;
      var h := HandleAll(st, c, [Msg(typ, payload)], budget);
      && (typ == 1 && n <= 64 ==>
            && h.store.refs == st.refs[c := [path] + mine]
            && h.ok == (budget > 0) && h.acks == if budget > 0 then [Msg(4, payload)] else [])
      && (typ == 2 && n <= 64 && path in mine ==>
            && h.store.refs.Keys == st.refs.Keys
            && (forall d | d in st.refs && d != c :: h.store.refs[d] == st.refs[d])
            && (forall i | 0 <= i < |mine| && mine[i] == path && path !in mine[..i] ::
                  h.store.refs[c] == mine[..i] + mine[i + 1..])
            && h.ok == (budget > 0) && h.acks == if budget > 0 then [Msg(5, payload)] else [])
      && ((typ == 1 && n > 64) || (typ == 2 && (n > 64 || path !in mine)) ==> h == Outcome(st, [], false, budget))
      && (typ != 1 && typ != 2 ==> h == Outcome(st, [], true, budget))
  {
    var m := Msg(typ, payload);
    JustOne(st, c, m, budget);
    if typ == 2 {
      FirstOccurrences(st.refs[c], Target(m));
    }
  }

  lemma JustOne<C>(st: Store<C>, c: C, m: Msg, budget: nat)
    requires Good(st) && c in st.refs
    ensures HandleAll(st, c, [m], budget) == Handle(st, c, m, budget)
  {
    assert [m][1..] == [];
    var h := Handle(st, c, m, budget);
    AppendNothing(h.acks);
  }

  lemma FirstOccurrences(mine: seq<Path>, p: Path)
    ensures forall i | 0 <= i < |mine| && mine[i] == p && p !in mine[..i] ::
      RemoveFirst(mine, p) == mine[..i] + mine[i + 1..]
  {
    forall i | 0 <= i < |mine| && mine[i] == p && p !in mine[..i]
      ensures RemoveFirst(mine, p) == mine[..i] + mine[i + 1..]
    {
      RemoveFirstAt(mine, p, i);
    }
  }

  // ------------------------------------------------------------------
  // Chunks

  /** One successful `recv` whose bytes end up, behind what was pending, in buffer `b`. */
  ghost function HandleBuffer<C>(st: Store<C>, c: C, b: bytes, budget: nat): (r: Outcome<C>)
    requires Good(st) && c in st.refs
    ensures Good(r.store) && r.store.refs.Keys == st.refs.Keys
    ensures forall d | d in st.refs && d != c :: r.store.refs[d] == st.refs[d]
  {
    var s := ParseBuffer(b);
    var h := HandleAll(st, c, s.msgs, budget);
    h.(ok := h.ok && !s.bogus)
  }

  /** One call of `client_handle_data` with `pending` in the buffer: `chunk` is what
      `recv` returned, empty when it failed or the peer was gone. */
  ghost function HandleRecv<C>(st: Store<C>, c: C, pending: bytes, chunk: bytes, budget: nat): (r: Outcome<C>)
    requires Good(st) && c in st.refs
    ensures Good(r.store) && r.store.refs.Keys == st.refs.Keys
    ensures forall d | d in st.refs && d != c :: r.store.refs[d] == st.refs[d]
  {
    if chunk == [] then Outcome(st, [], false, budget) else HandleBuffer(st, c, pending + chunk, budget)
  }

  /** The decoding loop at a buffer that starts with a whole frame. */
  lemma FrameFirst<C>(st: Store<C>, c: C, b: bytes, budget: nat)
    requires Good(st) && c in st.refs && Complete(b)
    ensures var h, next := Handle(st, c, FirstMsg(b), budget), Smudge(b[FrameSize(b)..]);
      && ParseBuffer(b).rest == ParseBuffer(next).rest
      && HandleBuffer(st, c, b, budget) ==
         if !h.ok then h else Prepend(h.acks, HandleBuffer(h.store, c, next, h.budget))
  {
    var s := ParseBuffer(Smudge(b[FrameSize(b)..]));
    ConsTail(FirstMsg(b), s.msgs);
  }

  /** The decoding loop where it stops. */
  lemma NoFrameFirst<C>(st: Store<C>, c: C, b: bytes, budget: nat)
    requires Good(st) && c in st.refs && !Complete(b)
    ensures HandleBuffer(st, c, b, budget) == Outcome(st, [], !Bogus(b), budget) && ParseBuffer(b).rest == b
  {
  }

  lemma PrependTwice<C>(a: seq<Msg>, b: seq<Msg>, r: Outcome<C>)
    ensures Prepend(a, Prepend(b, r)) == Prepend(a + b, r)
  {
    AppendAssoc(a, b, r.acks);
  }

  /** A connection's chunks one after the other, until the first failure. */
  ghost function HandleChunks<C>(st: Store<C>, c: C, pending: bytes, chunks: seq<bytes>, budget: nat): Outcome<C>
    requires Good(st) && c in st.refs
    decreases |chunks|
  {
    if chunks == [] then Outcome(st, [], true, budget)
    else
      var b := pending + chunks[0];
      var h := HandleBuffer(st, c, b, budget);
      if !h.ok then h
      else
        Prepend(h.acks, HandleChunks(h.store, c, ParseBuffer(b).rest, chunks[1..], h.budget))
  }

  lemma {:induction false} ChunksAsOneScan<C>(st: Store<C>, c: C, pending: bytes, chunks: seq<bytes>, budget: nat)
    requires Good(st) && c in st.refs
    ensures var f := Feed(pending, chunks);
      var h := HandleAll(st, c, f.msgs, budget);
      HandleChunks(st, c, pending, chunks, budget) == h.(ok := h.ok && !f.bogus)
    decreases |chunks|
  {
    if chunks != [] {
      var s := ParseBuffer(pending + chunks[0]);
      var h := HandleAll(st, c, s.msgs, budget);
      if !s.bogus {
        HandleAppend(st, c, s.msgs, Feed(s.rest, chunks[1..]).msgs, budget);
        if h.ok {
          ChunksAsOneScan(h.store, c, s.rest, chunks[1..], h.budget);
        }
      }
    }
  }

  /** The subscriptions a connection ends up with, the acknowledgements it is sent and
      whether it is dropped depend on the bytes of a safe stream only, not on the way
      they were cut. */
  lemma DispatchIsChunkInvariant<C>(st: Store<C>, c: C, chunks: seq<bytes>, others: seq<bytes>, budget: nat)
    requires Good(st) && c in st.refs
    requires Concat(chunks) == Concat(others) && Safe(Concat(chunks))
    requires Admissible([], chunks) && Admissible([], others)
    ensures HandleChunks(st, c, [], chunks, budget) == HandleChunks(st, c, [], others, budget)
  {
    SafeStreamsDecodeRight(chunks);
    SafeStreamsDecodeRight(others);
    ChunksAsOneScan(st, c, [], chunks, budget);
    ChunksAsOneScan(st, c, [], others, budget);
  }

  // ------------------------------------------------------------------
  // One client by itself

  /** The same fold for a client that is alone in the world: only its own list. */
  datatype Solo = Solo(mine: seq<Path>, served: seq<Msg>, ok: bool, budget: nat)

  function SoloHandle(mine: seq<Path>, m: Msg, budget: nat): Solo {
    if !Accepts(mine, m) then Solo(mine, [], false, budget)
    else if Ack(m) == [] then Solo(Apply(mine, m), [m], true, budget)
    else if budget == 0 then Solo(Apply(mine, m), [m], false, 0)
    else Solo(Apply(mine, m), [m], true, budget - 1)
  }

  function SoloAll(mine: seq<Path>, ms: seq<Msg>, budget: nat): Solo
    decreases |ms|
  {
    if ms == [] then Solo(mine, [], true, budget)
    else
      var h := SoloHandle(mine, ms[0], budget);
      if !h.ok then h
      else
        var r := SoloAll(h.mine, ms[1..], h.budget);
        Solo(r.mine, h.served + r.served, r.ok, r.budget)
  }

  lemma HandleIsSolo<C>(st: Store<C>, c: C, m: Msg, budget: nat)
    requires Good(st) && c in st.refs
    ensures var h, s := Handle(st, c, m, budget), SoloHandle(st.refs[c], m, budget);
      h.store.refs[c] == s.mine && h.ok == s.ok && h.budget == s.budget
  {
  }

  /** Whoever else uses the index, a client fares as if it were alone. */
  lemma {:induction false} HandlingIsSolo<C>(st: Store<C>, c: C, ms: seq<Msg>, budget: nat)
    requires Good(st) && c in st.refs
    ensures var h, s := HandleAll(st, c, ms, budget), SoloAll(st.refs[c], ms, budget);
      h.store.refs[c] == s.mine && h.ok == s.ok && h.budget == s.budget
    decreases |ms|
  {
    if ms != [] {
      var h := Handle(st, c, ms[0], budget);
      HandleIsSolo(st, c, ms[0], budget);
      if h.ok {
        HandlingIsSolo(h.store, c, ms[1..], h.budget);
      }
    }
  }

  /** Serving requests one after the other, with nothing rejected. */
  function Replay(mine: seq<Path>, served: seq<Msg>): seq<Path>
    decreases |served|
  {
    if served == [] then mine else Replay(Apply(mine, served[0]), served[1..])
  }

  lemma {:induction false} ReplayAppend(mine: seq<Path>, a: seq<Msg>, b: seq<Msg>)
    ensures Replay(mine, a + b) == Replay(Replay(mine, a), b)
    decreases |a|
  {
    if a == [] {
      AppendNothing(b);
    } else {
      AppendTail(a, b);
      ReplayAppend(Apply(mine, a[0]), a[1..], b);
    }
  }

  /** A client's list is the fold of the requests of its own that were served. */
  lemma {:induction false} SoloIsReplay(mine: seq<Path>, ms: seq<Msg>, budget: nat)
    ensures var s := SoloAll(mine, ms, budget); s.mine == Replay(mine, s.served)
    decreases |ms|
  {
    if ms != [] {
      var h := SoloHandle(mine, ms[0], budget);
      assert Replay(h.mine, []) == h.mine;
      assert h.served != [] ==> h.served[1..] == [];
      if h.ok {
        SoloIsReplay(h.mine, ms[1..], h.budget);
        ReplayAppend(mine, h.served, SoloAll(h.mine, ms[1..], h.budget).served);
      }
    }
  }

  /** How often a pattern is held: once per served subscription, less once per served
      unsubscription. */
  function Net(served: seq<Msg>, p: Path): int {
    if served == [] then 0
    else (if Target(served[0]) != p then 0
          else if served[0].typ == MSG_SUBSCRIBE then 1
          else if served[0].typ == MSG_UNSUBSCRIBE then -1
          else 0)
         + Net(served[1..], p)
  }

  /** Every unsubscription in `served` had something to remove. */
  predicate Served(mine: seq<Path>, served: seq<Msg>)
    decreases |served|
  {
    served == [] || (Accepts(mine, served[0]) && Served(Apply(mine, served[0]), served[1..]))
  }

  lemma ApplyCounts(mine: seq<Path>, m: Msg, p: Path)
    requires Accepts(mine, m)
    ensures multiset(Apply(mine, m))[p] == multiset(mine)[p] + Net([m], p)
  {
    assert Target(m) in mine <==> Target(m) in multiset(mine);
  }

  lemma NetCons(served: seq<Msg>, p: Path)
    requires served != []
    ensures Net(served, p) == Net([served[0]], p) + Net(served[1..], p)
  {
  }

  lemma {:induction false} ReplayCounts(mine: seq<Path>, served: seq<Msg>, p: Path)
    requires Served(mine, served)
    ensures multiset(Replay(mine, served))[p] == multiset(mine)[p] + Net(served, p)
    decreases |served|
  {
    if served != [] {
      ApplyCounts(mine, served[0], p);
      NetCons(served, p);
      ReplayCounts(Apply(mine, served[0]), served[1..], p);
    }
  }

  lemma {:induction false} ServedAppend(mine: seq<Path>, a: seq<Msg>, b: seq<Msg>)
    requires Served(mine, a) && Served(Replay(mine, a), b)
    ensures Served(mine, a + b)
    decreases |a|
  {
    if a == [] {
      AppendNothing(b);
    } else {
      AppendTail(a, b);
      ServedAppend(Apply(mine, a[0]), a[1..], b);
    }
  }

  lemma {:induction false} SoloServes(mine: seq<Path>, ms: seq<Msg>, budget: nat)
    ensures Served(mine, SoloAll(mine, ms, budget).served)
    decreases |ms|
  {
    if ms != [] {
      var h := SoloHandle(mine, ms[0], budget);
      assert h.served != [] ==> h.served == [ms[0]] && h.served[1..] == [];
      assert Replay(mine, h.served) == h.mine;
      if h.ok {
        SoloServes(h.mine, ms[1..], h.budget);
        ServedAppend(mine, h.served, SoloAll(h.mine, ms[1..], h.budget).served);
      }
    }
  }

  // ------------------------------------------------------------------
  // Acknowledgements

  /** The acknowledgements that served requests call for. */
  function Echoes(served: seq<Msg>): seq<Msg> {
    if served == [] then [] else Ack(served[0]) + Echoes(served[1..])
  }

  lemma {:induction false} EchoesAppend(a: seq<Msg>, b: seq<Msg>)
    ensures Echoes(a + b) == Echoes(a) + Echoes(b)
    decreases |a|
  {
    if a == [] {
      AppendNothing(b);
      AppendNothing(Echoes(b));
    } else {
      AppendTail(a, b);
      EchoesAppend(a[1..], b);
      AppendAssoc(Ack(a[0]), Echoes(a[1..]), Echoes(b));
    }
  }

  /** `acks` answers all requests of `served`. */
  predicate AllEchoed(acks: seq<Msg>, served: seq<Msg>) {
    acks == Echoes(served)
  }

  /** `acks` answers all requests of `served` but the last. */
  predicate LastUnechoed(acks: seq<Msg>, served: seq<Msg>) {
    served != [] && Ack(served[|served| - 1]) != [] && acks == Echoes(served[..|served| - 1])
  }

  lemma EchoOne(m: Msg)
    ensures Echoes([m]) == Ack(m) && AllEchoed(Ack(m), [m]) && (Ack(m) != [] ==> LastUnechoed([], [m]))
  {
    assert [m][1..] == [] && [m][..0] == [];
    AppendNothing(Ack(m));
  }

  lemma EchoesCons(m: Msg, acks: seq<Msg>, served: seq<Msg>)
    ensures AllEchoed(acks, served) ==> AllEchoed(Ack(m) + acks, [m] + served)
    ensures LastUnechoed(acks, served) ==> LastUnechoed(Ack(m) + acks, [m] + served)
  {
    ConsTail(m, served);
    if LastUnechoed(acks, served) {
      ConsInit(m, served);
      ConsTail(m, served[..|served| - 1]);
    }
  }

  /** The acknowledgements sent are the echoes of the served requests in order, all of them
      unless sends ran out; then the client is dropped and just the last is missing. */
  lemma {:induction false} AcksAreEchoes<C>(st: Store<C>, c: C, ms: seq<Msg>, budget: nat)
    requires Good(st) && c in st.refs
    ensures var h, s := HandleAll(st, c, ms, budget), SoloAll(st.refs[c], ms, budget);
      && (AllEchoed(h.acks, s.served) || (LastUnechoed(h.acks, s.served) && !h.ok && h.budget == 0))
      && (h.ok || |ms| <= budget ==> AllEchoed(h.acks, s.served))
    decreases |ms|
  {
    if ms != [] {
      var h := Handle(st, c, ms[0], budget);
      HandleIsSolo(st, c, ms[0], budget);
      EchoOne(ms[0]);
      if h.ok {
        AcksAreEchoes(h.store, c, ms[1..], h.budget);
        var rest, solo := HandleAll(h.store, c, ms[1..], h.budget), SoloAll(h.store.refs[c], ms[1..], h.budget);
        EchoesCons(ms[0], rest.acks, solo.served);
      }
    }
  }
}
