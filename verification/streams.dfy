/** Runs of the server in terms of the bytes its clients sent: what a client is subscribed
    to does not depend on how the network cut them. */
module Streams {
  import opened Bytes
  import opened Patterns
  import opened Protocol
  import opened Decoder
  import opened Requests
  import opened Session
  import opened Runs

  predicate IsOn<C(==)>(v: Life<C>) {
    v.Seen? && v.active
  }

  function MineOf<C(==)>(v: Life<C>): seq<Path> {
    if v.Seen? then v.mine else []
  }

  /** The event opens a connection of the client. */
  predicate Opens<C(==)>(id: bytes, v: Life<C>, e: Event<C>) {
    e.Connect? && !IsOn(v) && IsOn(LifeStep(id, v, e))
  }

  /** The bytes still to come on the client's present connection, then those of each of
      its later connections. */
  function StreamsFrom<C(==)>(id: bytes, v: Life<C>, evs: seq<Event<C>>): (r: seq<bytes>)
    ensures r != []
    decreases |evs|
  {
    if evs == [] then [[]]
    else
      var e := evs[0];
      var r := StreamsFrom(id, LifeStep(id, v, e), evs[1..]);
      if e.Data? && v.Seen? && e.client == v.token then [e.chunk + r[0]] + r[1..]
      else if Opens(id, v, e) then [[]] + r
      else r
  }

  /** What each of the client's connections brought, from the first on. */
  function StreamsOf<C(==)>(id: bytes, evs: seq<Event<C>>): seq<bytes> {
    StreamsFrom(id, Unseen, evs)[1..]
  }

  /** Sends to the client do not run out. */
  predicate Ample<C(==)>(id: bytes, v: Life<C>, evs: seq<Event<C>>)
    decreases |evs|
  {
    evs != [] ==>
      var e := evs[0];
      && (e.Data? && v.Seen? && e.client == v.token ==> |ParseBuffer(v.pending + e.chunk).msgs| <= e.budget)
      && Ample(id, LifeStep(id, v, e), evs[1..])
  }

  /** The subscriptions after the messages `ms`, up to the first that is rejected. */
  function Obey(mine: seq<Path>, ms: seq<Msg>): seq<Path> {
    SoloAll(mine, ms, |ms|).mine
  }

  /** The subscriptions after a connection that brought `stream`. */
  function Heard(mine: seq<Path>, stream: bytes): seq<Path> {
    Obey(mine, ParseWire(stream).msgs)
  }

  function Told(mine: seq<Path>, streams: seq<bytes>): seq<Path>
    decreases |streams|
  {
    if streams == [] then mine else Told(Heard(mine, streams[0]), streams[1..])
  }

  lemma {:induction false} AmpleBudgets(mine: seq<Path>, ms: seq<Msg>, few: nat, many: nat)
    requires |ms| <= few && |ms| <= many
    ensures var a, b := SoloAll(mine, ms, few), SoloAll(mine, ms, many); a.mine == b.mine && a.ok == b.ok
    decreases |ms|
  {
    if ms != [] {
      var a, b := SoloHandle(mine, ms[0], few), SoloHandle(mine, ms[0], many);
      if a.ok {
        AmpleBudgets(a.mine, ms[1..], a.budget, b.budget);
      }
    }
  }

  lemma {:induction false} ObeyAppend(mine: seq<Path>, a: seq<Msg>, b: seq<Msg>)
    ensures var first := SoloAll(mine, a, |a|);
      Obey(mine, a + b) == if first.ok then Obey(first.mine, b) else first.mine
    decreases |a|
  {
    if a == [] {
      AppendNothing(b);
    } else {
      AppendTail(a, b);
      var one, all := SoloHandle(mine, a[0], |a|), SoloHandle(mine, a[0], |a + b|);
      if one.ok {
        AmpleBudgets(one.mine, a[1..], one.budget, |a[1..]|);
        AmpleBudgets(one.mine, a[1..] + b, all.budget, |a[1..] + b|);
        ObeyAppend(one.mine, a[1..], b);
      }
    }
  }

  lemma HeardNothing(mine: seq<Path>, w: bytes)
    requires !Complete(w)
    ensures Heard(mine, w) == mine
  {
  }

  /** One `recv` out of a stream, from the client's side and from the wire's. */
  lemma HeardMore(mine: seq<Path>, w: bytes, chunk: bytes, z: bytes, budget: nat, got: Scan)
    requires SameMessages(got, ParseWire(w + chunk)) && |got.msgs| <= budget
    ensures var r := SoloAll(mine, got.msgs, budget);
      Heard(mine, w + (chunk + z)) ==
      if r.ok && !got.bogus then Heard(r.mine, ParseWire(w + chunk).rest + z) else r.mine
  {
    AppendAssoc(w, chunk, z);
    WireAppend(w + chunk, z);
    var rest := ParseWire(ParseWire(w + chunk).rest + z);
    AmpleBudgets(mine, got.msgs, budget, |got.msgs|);
    ObeyAppend(mine, got.msgs, rest.msgs);
  }

  // ------------------------------------------------------------------
  // Runs

  lemma StepShows<C>(s: Session<C>, id: bytes, v: Life<C>, e: Event<C>)
    requires SessionOk(s) && Enabled(s, e) && Shows(s, id, v)
    ensures Shows(Step(s, e), id, LifeStep(id, v, e))
  {
    if e.Connect? {
      ConnectShows(s, id, v, e);
    } else {
      DataShows(s, id, v, e);
    }
  }

  /** A client without a connection brings no bytes until it opens one. */
  lemma {:induction false} IdleStream<C>(s: Session<C>, id: bytes, v: Life<C>, evs: seq<Event<C>>)
    requires SessionOk(s) && Possible(s, evs) && Shows(s, id, v) && !IsOn(v)
    ensures StreamsFrom(id, v, evs)[0] == []
    decreases |evs|
  {
    if evs != [] {
      var w := LifeStep(id, v, evs[0]);
      StepShows(s, id, v, evs[0]);
      if !IsOn(w) {
        IdleStream(Step(s, evs[0]), id, w, evs[1..]);
      }
    }
  }

  /** How the client stands in the middle of a connection: it was sent `w` that is not yet
      a whole frame, and the buffer holds that, perhaps with its first byte gone. */
  ghost predicate Stands<C>(v: Life<C>, w: bytes, smudged: bool, prev: nat) {
    && !Complete(w) && !Bogus(w) && (smudged ==> w != [] && prev < READ_BUF_SIZE)
    && if IsOn(v) then v.pending == Held(w, smudged) else w == [] && !smudged
  }

  ghost predicate AllSafe(streams: seq<bytes>) {
    forall i | 0 <= i < |streams| :: Safe(streams[i])
  }

  /** The client's subscriptions after a run are what its streams tell, from where it
      stands on. */
  lemma {:induction false} StreamsTell<C>(s: Session<C>, id: bytes, v: Life<C>, evs: seq<Event<C>>,
                                          w: bytes, smudged: bool, prev: nat)
    requires SessionOk(s) && Possible(s, evs) && Shows(s, id, v) && Ample(id, v, evs)
    requires Stands(v, w, smudged, prev)
    requires var r := StreamsFrom(id, v, evs); SafeAfter(w + r[0], prev) && AllSafe(r[1..])
    ensures var r := StreamsFrom(id, v, evs); MineOf(LifeRun(id, v, evs)) == Told(Heard(MineOf(v), w + r[0]), r[1..])
    decreases |evs|
  {
    if evs == [] {
      AppendNothing(w);
      HeardNothing(MineOf(v), w);
    } else {
      var e := evs[0];
      var r := StreamsFrom(id, LifeStep(id, v, e), evs[1..]);
      StepShows(s, id, v, e);
      if e.Data? && v.Seen? && e.client == v.token {
        ConsTail(e.chunk + r[0], r[1..]);
        OwnData(s, id, v, evs, w, smudged, prev);
      } else if Opens(id, v, e) {
        ConsTail([], r);
        NewStream(id, v, e, r);
        StreamsTell(Step(s, e), id, LifeStep(id, v, e), evs[1..], [], false, READ_BUF_SIZE);
      } else {
        OthersAreNothing(id, v, e);
        StreamsTell(Step(s, e), id, v, evs[1..], w, smudged, prev);
      }
    }
  }

  lemma OthersAreNothing<C>(id: bytes, v: Life<C>, e: Event<C>)
    requires !Opens(id, v, e) && !(e.Data? && v.Seen? && e.client == v.token)
    ensures LifeStep(id, v, e) == v
  {
  }

  /** The case of a new connection. */
  lemma NewStream<C>(id: bytes, v: Life<C>, e: Event<C>, r: seq<bytes>)
    requires Opens(id, v, e) && r != [] && AllSafe(r)
    ensures Stands(LifeStep(id, v, e), [], false, READ_BUF_SIZE) && MineOf(LifeStep(id, v, e)) == MineOf(v)
    ensures SafeAfter([] + r[0], READ_BUF_SIZE) && AllSafe(r[1..])
    ensures Heard(MineOf(v), []) == MineOf(v) && Told(MineOf(v), r) == Told(Heard(MineOf(v), [] + r[0]), r[1..])
  {
    AppendNothing(r[0]);
    HeardNothing(MineOf(v), []);
    AllSafeTail(r);
  }

  lemma AllSafeTail(streams: seq<bytes>)
    requires streams != [] && AllSafe(streams)
    ensures Safe(streams[0]) && AllSafe(streams[1..])
  {
  }

  /** The case of the client's own data. */
  lemma {:induction false} OwnData<C>(s: Session<C>, id: bytes, v: Life<C>, evs: seq<Event<C>>,
                                      w: bytes, smudged: bool, prev: nat)
    requires SessionOk(s) && Possible(s, evs) && Shows(s, id, v) && Ample(id, v, evs)
    requires Stands(v, w, smudged, prev)
    requires evs != [] && evs[0].Data? && v.Seen? && evs[0].client == v.token
    requires Shows(Step(s, evs[0]), id, LifeStep(id, v, evs[0]))
    requires var r := StreamsFrom(id, LifeStep(id, v, evs[0]), evs[1..]);
      SafeAfter(w + (evs[0].chunk + r[0]), prev) && AllSafe(r[1..])
    ensures var r := StreamsFrom(id, LifeStep(id, v, evs[0]), evs[1..]);
      MineOf(LifeRun(id, v, evs)) == Told(Heard(v.mine, w + (evs[0].chunk + r[0])), r[1..])
    decreases |evs|, 0
  {
    var e := evs[0];
    var t, u := Step(s, e), LifeStep(id, v, e);
    var r := StreamsFrom(id, u, evs[1..]);
    var z := r[0];
    assert IsOn(v);
    if !IsOn(u) {
      IdleStream(t, id, u, evs[1..]);
      AppendNothing(e.chunk);
      AppendNothing(w);
      AppendNothing<byte>([]);
      HeardNothing(u.mine, []);
      HeardNothing(v.mine, w);
      StreamsTell(t, id, u, evs[1..], [], false, READ_BUF_SIZE);
    }
    if e.chunk != [] {
      AppendAssoc(w, e.chunk, z);
      var still, size := OneRecv(w, smudged, prev, e.chunk, z);
      var got := ParseBuffer(v.pending + e.chunk);
      HeardMore(v.mine, w, e.chunk, z, e.budget, got);
      if IsOn(u) {
        StreamsTell(t, id, u, evs[1..], ParseWire(w + e.chunk).rest, still, size);
      }
    }
  }

  /** In every reachable state, what a client is subscribed to is told by the bytes that
      its connections brought, however they were cut, whatever else happened, and however
      often the client came and went, if these streams are safe and sends do not run out. */
  lemma StreamsDecide<C>(evs: seq<Event<C>>, c: C)
    requires Possible(Start<C>(), evs) && c in Run(Start<C>(), evs).info
    requires var id := Run(Start<C>(), evs).info[c].id;
      AllSafe(StreamsOf(id, evs)) && Ample(id, Unseen, evs)
    ensures var s := Run(Start<C>(), evs); s.store.refs[c] == Told([], StreamsOf(s.info[c].id, evs))
  {
    var id := Run(Start<C>(), evs).info[c].id;
    IdleStream(Start<C>(), id, Unseen, evs);
    AppendNothing<byte>([]);
    HeardNothing([], []);
    StreamsTell(Start<C>(), id, Unseen, evs, [], false, READ_BUF_SIZE);
    LivesFollowRun(Start<C>(), id, Unseen, evs);
  }

  /** Chunk invariance of whole runs: two runs, interleaved and cut in any ways, in which the
      connections of one ID bring the same safe streams leave it with the same
      subscriptions. */
  lemma RunsAreChunkInvariant<C>(a: seq<Event<C>>, b: seq<Event<C>>, c: C, d: C)
    requires Possible(Start<C>(), a) && Possible(Start<C>(), b)
    requires c in Run(Start<C>(), a).info && d in Run(Start<C>(), b).info
    requires var id := Run(Start<C>(), a).info[c].id;
      && Run(Start<C>(), b).info[d].id == id
      && StreamsOf(id, a) == StreamsOf(id, b) && AllSafe(StreamsOf(id, a))
      && Ample(id, Unseen, a) && Ample(id, Unseen, b)
    ensures Run(Start<C>(), a).store.refs[c] == Run(Start<C>(), b).store.refs[d]
  {
    StreamsDecide(a, c);
    StreamsDecide(b, d);
  }

  // ------------------------------------------------------------------
  // Acknowledgements

  /** The acknowledgements that an event makes the server send to the client named `id`. */
  ghost function RepliesTo<C>(id: bytes, s: Session<C>, e: Event<C>): seq<Msg>
    requires SessionOk(s) && Enabled(s, e)
  {
    if e.Data? && s.info[e.client].id == id
    then HandleRecv(s.store, e.client, s.info[e.client].pending, e.chunk, e.budget).acks
    else []
  }

  /** Those that a client is sent in a run, over all its connections. */
  ghost function AcksTo<C>(id: bytes, s: Session<C>, evs: seq<Event<C>>): seq<Msg>
    requires SessionOk(s) && Possible(s, evs)
    decreases |evs|
  {
    if evs == [] then [] else RepliesTo(id, s, evs[0]) + AcksTo(id, Step(s, evs[0]), evs[1..])
  }

  lemma {:induction false} AcksToAppend<C>(id: bytes, s: Session<C>, a: seq<Event<C>>, b: seq<Event<C>>)
    requires SessionOk(s) && Possible(s, a) && Possible(Run(s, a), b) && Possible(s, a + b)
    ensures AcksTo(id, s, a + b) == AcksTo(id, s, a) + AcksTo(id, Run(s, a), b)
    decreases |a|
  {
    if a == [] {
      AppendNothing(b);
      AppendNothing(AcksTo(id, s, b));
    } else {
      AppendTail(a, b);
      AcksToAppend(id, Step(s, a[0]), a[1..], b);
      AppendAssoc(RepliesTo(id, s, a[0]), AcksTo(id, Step(s, a[0]), a[1..]), AcksTo(id, Run(s, a), b));
    }
  }

  function ServedBy<C(==)>(v: Life<C>): seq<Msg> {
    if v.Seen? then v.served else []
  }

  /** What one event adds to a client's served requests, and the echoes of it. */
  lemma AcksNow<C>(s: Session<C>, id: bytes, v: Life<C>, e: Event<C>) returns (served: seq<Msg>)
    requires SessionOk(s) && Enabled(s, e) && Shows(s, id, v) && Ample(id, v, [e])
    ensures ServedBy(LifeStep(id, v, e)) == ServedBy(v) + served
    ensures AllEchoed(RepliesTo(id, s, e), served)
  {
    served := [];
    AppendNothing(ServedBy(v));
    if e.Data? && s.info[e.client].id == id {
      assert v.Seen? && e.client == v.token;
      if e.chunk != [] {
        var ms := ParseBuffer(v.pending + e.chunk).msgs;
        AcksAreEchoes(s.store, v.token, ms, e.budget);
        served := SoloAll(v.mine, ms, e.budget).served;
      }
    }
  }

  lemma {:induction false} AcksTell<C>(s: Session<C>, id: bytes, v: Life<C>, evs: seq<Event<C>>)
    requires SessionOk(s) && Possible(s, evs) && Shows(s, id, v) && Ample(id, v, evs)
    ensures Echoes(ServedBy(LifeRun(id, v, evs))) == Echoes(ServedBy(v)) + AcksTo(id, s, evs)
    decreases |evs|
  {
    if evs == [] {
      AppendNothing(Echoes(ServedBy(v)));
    } else {
      var e := evs[0];
      StepShows(s, id, v, e);
      var served := AcksNow(s, id, v, e);
      EchoesAppend(ServedBy(v), served);
      AcksTell(Step(s, e), id, LifeStep(id, v, e), evs[1..]);
      AppendAssoc(Echoes(ServedBy(v)), Echoes(served), AcksTo(id, Step(s, e), evs[1..]));
    }
  }

  /** In any run in which sends to a client do not run out, the acknowledgements it is sent
      are the echoes of its served requests, in order, over all its connections. */
  lemma AcknowledgementsEcho<C>(evs: seq<Event<C>>, id: bytes)
    requires Possible(Start<C>(), evs) && Ample(id, Unseen, evs)
    ensures AcksTo(id, Start<C>(), evs) == Echoes(ServedIn(id, evs))
  {
    AcksTell(Start<C>(), id, Unseen, evs);
    AppendNothing(AcksTo(id, Start<C>(), evs));
  }

  // ------------------------------------------------------------------
  // From what the client encoded

  predicate Plain(ms: seq<Msg>) {
    forall m | m in ms :: m.typ < 0x100 && |m.payload| <= MAX_PAYLOAD
  }

  function ObeyAll(mine: seq<Path>, sent: seq<seq<Msg>>): seq<Path>
    decreases |sent|
  {
    if sent == [] then mine else ObeyAll(Obey(mine, sent[0]), sent[1..])
  }

  /** The messages in what arrived of a stream. */
  function Got(streams: seq<bytes>): (got: seq<seq<Msg>>)
    ensures |got| == |streams|
  {
    seq(|streams|, i requires 0 <= i < |streams| => ParseWire(streams[i]).msgs)
  }

  lemma FrameNotYetWhole(m: Msg, more: bytes, b: bytes)
    requires m.Encodable() && |m.payload| <= MAX_PAYLOAD && b <= Frame(m) + more && |b| < |Frame(m)|
    ensures !Complete(b) && !Bogus(b)
  {
    if HasHeader(b) {
      HeaderPeek(Header(m), b[HDR_SIZE..]);
      assert b == Header(m) + b[HDR_SIZE..] by {
        assert b[..HDR_SIZE] == (Frame(m) + more)[..HDR_SIZE] == Frame(m)[..HDR_SIZE];
        SplitAt(b, HDR_SIZE);
      }
    }
  }

  lemma FrameArrived(m: Msg, more: bytes, b: bytes)
    requires m.Encodable() && b <= Frame(m) + more && |b| >= |Frame(m)|
    ensures b == Frame(m) + b[|Frame(m)|..] && b[|Frame(m)|..] <= more
  {
    var n := |Frame(m)|;
    assert b[..n] == (Frame(m) + more)[..n] == Frame(m);
    assert b[n..] == (Frame(m) + more)[..|b|][n..] == more[..|b| - n];
    SplitAt(b, n);
  }

  /** However much of an encoded stream has arrived: it is safe, it is not bogus, and the
      messages in it are the first of those that were encoded. */
  lemma {:induction false} ArrivedSoFar(b: bytes, ms: seq<Msg>, prev: nat)
    requires Plain(ms) && b <= Wire(ms)
    ensures SafeAfter(b, prev) && !ParseWire(b).bogus && ParseWire(b).msgs <= ms
    ensures b == Wire(ms) ==> ParseWire(b).msgs == ms
    decreases |ms|
  {
    if ms != [] {
      var m, more := ms[0], Wire(ms[1..]);
      HeadTail(ms);
      if |b| < |Frame(m)| {
        FrameNotYetWhole(m, more, b);
      } else {
        var rest := b[|Frame(m)|..];
        FrameArrived(m, more, b);
        FrontFrame(m, rest);
        ArrivedSoFar(rest, ms[1..], |Frame(m)|);
        AppendTail([m], ParseWire(rest).msgs);
      }
    }
  }

  lemma {:induction false} ToldIsGot(mine: seq<Path>, streams: seq<bytes>)
    ensures Told(mine, streams) == ObeyAll(mine, Got(streams))
    decreases |streams|
  {
    if streams != [] {
      ToldIsGot(Heard(mine, streams[0]), streams[1..]);
      assert Got(streams)[1..] == Got(streams[1..]);
    }
  }

  /** What arrived on each connection is the front of what the client wrote there. */
  ghost predicate Arrived(streams: seq<bytes>, sent: seq<seq<Msg>>) {
    |streams| == |sent| && forall i | 0 <= i < |sent| :: Plain(sent[i]) && streams[i] <= Wire(sent[i])
  }

  lemma EncodedStreams(streams: seq<bytes>, sent: seq<seq<Msg>>)
    requires Arrived(streams, sent)
    ensures AllSafe(streams)
    ensures forall i | 0 <= i < |sent| ::
      && Got(streams)[i] <= sent[i]
      && (streams[i] == Wire(sent[i]) ==> Got(streams)[i] == sent[i])
  {
    forall i | 0 <= i < |sent|
      ensures Safe(streams[i]) && Got(streams)[i] <= sent[i]
      ensures streams[i] == Wire(sent[i]) ==> Got(streams)[i] == sent[i]
    {
      ArrivedSoFar(streams[i], sent[i], READ_BUF_SIZE);
    }
  }

  /** If on its `i`th connection the client wrote the frames of `sent[i]`, or is still at it,
      and the server has received any part of them, the client's subscriptions are the fold
      of the messages that have arrived whole; these are the first of those it wrote on each
      connection, and all of them where everything arrived. */
  lemma EncodedRequestsDecide<C>(evs: seq<Event<C>>, c: C, sent: seq<seq<Msg>>)
    requires Possible(Start<C>(), evs) && c in Run(Start<C>(), evs).info
    requires var id := Run(Start<C>(), evs).info[c].id; Arrived(StreamsOf(id, evs), sent) && Ample(id, Unseen, evs)
    ensures var s := Run(Start<C>(), evs);
      var streams := StreamsOf(s.info[c].id, evs);
      && s.store.refs[c] == ObeyAll([], Got(streams))
      && forall i | 0 <= i < |sent| ::
           && Got(streams)[i] <= sent[i]
           && (streams[i] == Wire(sent[i]) ==> Got(streams)[i] == sent[i])
  {
    var streams := StreamsOf(Run(Start<C>(), evs).info[c].id, evs);
    EncodedStreams(streams, sent);
    StreamsDecide(evs, c);
    ToldIsGot([], streams);
  }

  /** Once a message was rejected, what the client wrote behind it makes no difference. */
  lemma RejectionEnds(mine: seq<Path>, got: seq<Msg>, sent: seq<Msg>)
    requires got <= sent && !SoloAll(mine, got, |got|).ok
    ensures Obey(mine, got) == Obey(mine, sent)
  {
    SplitAtPrefix(got, sent);
    ObeyAppend(mine, got, sent[|got|..]);
  }

  /** Every connection either brought all that the client wrote on it or was ended by the
      server, at a message it rejected. */
  predicate Settled(mine: seq<Path>, got: seq<seq<Msg>>, sent: seq<seq<Msg>>)
    requires |got| == |sent|
    decreases |sent|
  {
    sent != [] ==>
      && (got[0] == sent[0] || !SoloAll(mine, got[0], |got[0]|).ok)
      && Settled(Obey(mine, got[0]), got[1..], sent[1..])
  }

  lemma {:induction false} SettledIsAll(mine: seq<Path>, got: seq<seq<Msg>>, sent: seq<seq<Msg>>)
    requires |got| == |sent| && Settled(mine, got, sent) && forall i | 0 <= i < |sent| :: got[i] <= sent[i]
    ensures ObeyAll(mine, got) == ObeyAll(mine, sent)
    decreases |sent|
  {
    if sent != [] {
      if got[0] != sent[0] {
        RejectionEnds(mine, got[0], sent[0]);
      }
      SettledIsAll(Obey(mine, got[0]), got[1..], sent[1..]);
    }
  }

  /** Then the client's subscriptions are the fold of all the messages it wrote, each
      connection's up to the first that is rejected. */
  lemma WrittenRequestsDecide<C>(evs: seq<Event<C>>, c: C, sent: seq<seq<Msg>>)
    requires Possible(Start<C>(), evs) && c in Run(Start<C>(), evs).info
    requires var id := Run(Start<C>(), evs).info[c].id;
      && Arrived(StreamsOf(id, evs), sent) && Ample(id, Unseen, evs)
      && Settled([], Got(StreamsOf(id, evs)), sent)
    ensures Run(Start<C>(), evs).store.refs[c] == ObeyAll([], sent)
  {
    EncodedRequestsDecide(evs, c, sent);
    SettledIsAll([], Got(StreamsOf(Run(Start<C>(), evs).info[c].id, evs)), sent);
  }
}
