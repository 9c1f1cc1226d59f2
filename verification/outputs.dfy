/** What the server does in a run, told without the definitions that the proofs use: which
    events each round consists of, and every frame that is sent, to whom, and why. */
module Outputs {
  import opened Bytes
  import opened Topics
  import opened Patterns
  import opened Index
  import opened Search
  import opened Protocol
  import opened Decoder
  import opened Requests
  import opened Session
  import opened Runs
  import opened Packet
  import opened Rounds
  import opened Streams

  // ------------------------------------------------------------------
  // The events of a round

  /** A run starts with no clients and a bare root. */
  lemma StartsEmpty<C>(polls: seq<Poll>, rounds: seq<seq<Event<C>>>)
    requires Tells(polls, rounds)
    ensures StateBefore(polls, rounds, 0)
         == Session([], [], 0, map[], Store(map[Root := Entry([], [])], map[]))
  {
  }

  /** There is a client `k` places on from place `i`, and it has something to read. */
  ghost predicate HasData<C>(s: Session<C>, i: nat, ready: seq<Option<Offer>>, k: nat) {
    k < |ready| && ready[k].Some? && i + k < |s.active|
  }

  /** The places of a scan from place `i` of the client list at which it reads. */
  ghost predicate ReadsAt<C>(s: Session<C>, i: nat, ready: seq<Option<Offer>>, places: seq<nat>) {
    && (forall a, b | 0 <= a < b < |places| :: places[a] < places[b])
    && (forall k: nat {:trigger HasData(s, i, ready, k)} :: k in places <==> HasData(s, i, ready, k))
  }

  /** What is read at place `k`: as much of what the client has as its buffer takes. */
  ghost predicate ReadIsDone<C>(s: Session<C>, i: nat, ready: seq<Option<Offer>>, k: nat, e: Event<C>) {
    && HasData(s, i, ready, k) && s.active[i + k] in s.info
    && var c, o := s.active[i + k], ready[k].value;
       var room := 2048 - |s.info[c].pending|;
       && room >= 0
       && e == Data(c, if |o.data| <= room then o.data else o.data[..room], o.budget)
  }

  function Shifted(places: seq<nat>): (r: seq<nat>)
    ensures |r| == |places| && forall a | 0 <= a < |places| :: r[a] == places[a] + 1
  {
    seq(|places|, a requires 0 <= a < |places| => places[a] + 1)
  }

  lemma ShiftedHas(places: seq<nat>, k: nat)
    ensures k in Shifted(places) <==> k > 0 && k - 1 in places
  {
    if k > 0 && k - 1 in places {
      var a :| 0 <= a < |places| && places[a] == k - 1;
      assert Shifted(places)[a] == k;
    }
  }

  lemma ShiftedPlaces<C>(s: Session<C>, i: nat, ready: seq<Option<Offer>>, t: Session<C>, next: nat, places: seq<nat>,
                         k: nat)
    requires ready != [] && ReadsAt(t, next, ready[1..], places)
    requires i < |s.active| && next <= |t.active| && |t.active| - next == |s.active| - i - 1
    ensures k > 0 ==> (k in Shifted(places) <==> HasData(s, i, ready, k))
    ensures 0 !in Shifted(places)
  {
    ShiftedHas(places, k);
    ShiftedHas(places, 0);
    if k > 0 {
      assert k - 1 in places <==> HasData(t, next, ready[1..], k - 1);
    }
  }

  lemma SkippedPlaces<C>(s: Session<C>, i: nat, ready: seq<Option<Offer>>, places: seq<nat>)
    requires ready != [] && ready[0].None? && i < |s.active| && ReadsAt(s, i + 1, ready[1..], places)
    ensures ReadsAt(s, i, ready, Shifted(places))
  {
    forall k: nat
      ensures k in Shifted(places) <==> HasData(s, i, ready, k)
    {
      ShiftedPlaces(s, i, ready, s, i + 1, places, k);
    }
  }

  lemma ReadPlaces<C>(s: Session<C>, i: nat, ready: seq<Option<Offer>>, t: Session<C>, next: nat, places: seq<nat>)
    requires ready != [] && ready[0].Some? && i < |s.active| && ReadsAt(t, next, ready[1..], places)
    requires next <= |t.active| && |t.active| - next == |s.active| - i - 1
    ensures ReadsAt(s, i, ready, [0] + Shifted(places))
  {
    forall k: nat
      ensures k in [0] + Shifted(places) <==> HasData(s, i, ready, k)
    {
      ShiftedPlaces(s, i, ready, t, next, places, k);
    }
  }

  /** The client `k` places behind place `i` of `s` is `k` places on from place `j` of `t`, with
      the same bytes pending. */
  ghost predicate FollowsAt<C>(s: Session<C>, i: nat, t: Session<C>, j: nat, k: nat) {
    && i + 1 + k < |s.active| && j + k < |t.active| && s.active[i + 1 + k] == t.active[j + k]
    && var c := t.active[j + k];
       c in s.info && c in t.info && t.info[c].pending == s.info[c].pending
  }

  /** From place `j` of `t` on stand the clients behind place `i` of `s`. */
  ghost predicate Follows<C>(s: Session<C>, i: nat, t: Session<C>, j: nat) {
    && i < |s.active| && j <= |t.active| && |t.active| - j == |s.active| - i - 1
    && forall k: nat | i + 1 + k < |s.active| :: FollowsAt(s, i, t, j, k)
  }

  lemma SameFollows<C>(s: Session<C>, i: nat)
    requires SessionOk(s) && i < |s.active|
    ensures Follows(s, i, s, i + 1)
  {
  }

  lemma NextIs<C>(s: Session<C>, i: nat, o: Offer)
    requires SessionOk(s) && i < |s.active|
    ensures var t, next := Step(s, Read(s, i, o)), NextPlace(s, i, o);
      || (next == i + 1 && t.active == s.active)
      || (next == i && t.active == s.active[..i] + s.active[i + 1..])
    ensures var t, c := Step(s, Read(s, i, o)), s.active[i];
      forall d | d in s.info && d != c :: d in t.info && t.info[d] == s.info[d]
  {
    var c, e := s.active[i], Read(s, i, o);
    DataOutcome(s, c, e.chunk, e.budget);
    ActiveAfter(s, e);
  }

  lemma FollowInList<C>(s: Session<C>, i: nat, t: Session<C>, next: nat, k: nat)
    requires ListsOk(s) && i + 1 + k < |s.active|
    requires (next == i + 1 && t.active == s.active) || (next == i && t.active == s.active[..i] + s.active[i + 1..])
    requires forall d | d in s.info && d != s.active[i] :: d in t.info && t.info[d] == s.info[d]
    ensures FollowsAt(s, i, t, next, k)
  {
    assert t.active[next + k] == s.active[i + 1 + k];
    assert s.active[i + 1 + k] != s.active[i];
  }

  lemma FollowAfterRead<C>(s: Session<C>, i: nat, o: Offer, k: nat)
    requires SessionOk(s) && i + 1 + k < |s.active|
    ensures FollowsAt(s, i, Step(s, Read(s, i, o)), NextPlace(s, i, o), k)
  {
    NextIs(s, i, o);
    FollowInList(s, i, Step(s, Read(s, i, o)), NextPlace(s, i, o), k);
  }

  /** After a read at place `i`, the clients from the next place on are those that followed. */
  lemma RestFollows<C>(s: Session<C>, i: nat, o: Offer)
    requires SessionOk(s) && i < |s.active|
    ensures Follows(s, i, Step(s, Read(s, i, o)), NextPlace(s, i, o))
  {
    NextIs(s, i, o);
    forall k: nat | i + 1 + k < |s.active|
      ensures FollowsAt(s, i, Step(s, Read(s, i, o)), NextPlace(s, i, o), k)
    {
      FollowAfterRead(s, i, o, k);
    }
  }

  /** The events are one read for each client from place `i` on that has something, in the
      order of the list, each client being asked once. */
  ghost predicate Reads<C>(s: Session<C>, i: nat, ready: seq<Option<Offer>>, places: seq<nat>, evs: seq<Event<C>>) {
    && ReadsAt(s, i, ready, places) && |evs| == |places|
    && forall a {:trigger ReadIsDone(s, i, ready, places[a], evs[a])} | 0 <= a < |evs| ::
         ReadIsDone(s, i, ready, places[a], evs[a])
  }

  lemma FirstRead<C>(s: Session<C>, i: nat, ready: seq<Option<Offer>>)
    requires SessionOk(s) && i < |s.active| && ready != [] && ready[0].Some?
    ensures ReadIsDone(s, i, ready, 0, Read(s, i, ready[0].value))
  {
    PendingFits(s.info[s.active[i]].pending);
  }

  /** The reads behind the first place are those of the rest of the scan. */
  lemma MoreReads<C>(s: Session<C>, i: nat, ready: seq<Option<Offer>>, t: Session<C>, next: nat,
                     places: seq<nat>, evs: seq<Event<C>>)
    requires ready != [] && Follows(s, i, t, next) && Reads(t, next, ready[1..], places, evs)
    ensures forall a | 0 <= a < |evs| :: ReadIsDone(s, i, ready, Shifted(places)[a], evs[a])
  {
    forall a | 0 <= a < |evs|
      ensures ReadIsDone(s, i, ready, Shifted(places)[a], evs[a])
    {
      assert ReadIsDone(t, next, ready[1..], places[a], evs[a]);
      assert FollowsAt(s, i, t, next, places[a]);
    }
  }

  lemma SkipReads<C>(s: Session<C>, i: nat, ready: seq<Option<Offer>>, places: seq<nat>, evs: seq<Event<C>>)
    requires SessionOk(s) && ready != [] && ready[0].None? && i < |s.active|
    requires Reads(s, i + 1, ready[1..], places, evs)
    ensures Reads(s, i, ready, Shifted(places), evs)
  {
    SameFollows(s, i);
    SkippedPlaces(s, i, ready, places);
    MoreReads(s, i, ready, s, i + 1, places, evs);
  }

  lemma TakeReads<C>(s: Session<C>, i: nat, ready: seq<Option<Offer>>, t: Session<C>, next: nat,
                     places: seq<nat>, e: Event<C>, evs: seq<Event<C>>)
    requires ready != [] && ready[0].Some? && Follows(s, i, t, next) && Reads(t, next, ready[1..], places, evs)
    requires ReadIsDone(s, i, ready, 0, e)
    ensures Reads(s, i, ready, [0] + Shifted(places), [e] + evs)
  {
    ReadPlaces(s, i, ready, t, next, places);
    MoreReads(s, i, ready, t, next, places, evs);
  }

  lemma ScanUnfolds<C>(s: Session<C>, i: nat, ready: seq<Option<Offer>>)
    requires SessionOk(s) && ready != [] && i < |s.active|
    ensures ready[0].None? ==> ScanEvents(s, i, ready) == ScanEvents(s, i + 1, ready[1..])
    ensures ready[0].Some? ==>
      var o := ready[0].value;
      ScanEvents(s, i, ready) == [Read(s, i, o)] + ScanEvents(Step(s, Read(s, i, o)), NextPlace(s, i, o), ready[1..])
  {
  }

  lemma ReadsOfSkip<C>(s: Session<C>, i: nat, ready: seq<Option<Offer>>, places: seq<nat>)
    requires SessionOk(s) && ready != [] && ready[0].None? && i < |s.active|
    requires Reads(s, i + 1, ready[1..], places, ScanEvents(s, i + 1, ready[1..]))
    ensures Reads(s, i, ready, Shifted(places), ScanEvents(s, i, ready))
  {
    ScanUnfolds(s, i, ready);
    SkipReads(s, i, ready, places, ScanEvents(s, i, ready));
  }

  lemma ReadsOfTake<C>(s: Session<C>, i: nat, ready: seq<Option<Offer>>, places: seq<nat>)
    requires SessionOk(s) && ready != [] && ready[0].Some? && i < |s.active|
    requires var o := ready[0].value;
      var t, next := Step(s, Read(s, i, o)), NextPlace(s, i, o);
      Reads(t, next, ready[1..], places, ScanEvents(t, next, ready[1..]))
    ensures Reads(s, i, ready, [0] + Shifted(places), ScanEvents(s, i, ready))
  {
    var o := ready[0].value;
    var t, next := Step(s, Read(s, i, o)), NextPlace(s, i, o);
    ScanUnfolds(s, i, ready);
    RestFollows(s, i, o);
    FirstRead(s, i, ready);
    TakeReads(s, i, ready, t, next, places, Read(s, i, o), ScanEvents(t, next, ready[1..]));
  }

  lemma {:induction false} ScanReads<C>(s: Session<C>, i: nat, ready: seq<Option<Offer>>) returns (places: seq<nat>)
    requires SessionOk(s)
    ensures Reads(s, i, ready, places, ScanEvents(s, i, ready))
    decreases |ready|
  {
    if ready == [] || i >= |s.active| {
      places := [];
    } else if ready[0].None? {
      places := ScanReads(s, i + 1, ready[1..]);
      ReadsOfSkip(s, i, ready, places);
      places := Shifted(places);
    } else {
      var o := ready[0].value;
      places := ScanReads(Step(s, Read(s, i, o)), NextPlace(s, i, o), ready[1..]);
      ReadsOfTake(s, i, ready, places);
      places := [0] + Shifted(places);
    }
  }

  lemma EventsBefore<C>(polls: seq<Poll>, rounds: seq<seq<Event<C>>>, k: nat)
    requires Tells(polls, rounds) && k < |polls|
    ensures RoundIs(StateBefore(polls, rounds, k), polls[k], rounds[k])
    ensures Possible(StateBefore(polls, rounds, k), rounds[k])
    ensures StateBefore(polls, rounds, k + 1) == Run(StateBefore(polls, rounds, k), rounds[k])
  {
    ToldBefore(polls, rounds, k + 1);
    PrefixOfPrefix(polls, k + 1, k);
    PrefixOfPrefix(rounds, k + 1, k);
    assert polls[..k + 1][k] == polls[k] && rounds[..k + 1][k] == rounds[k];
    RoundIsPossible(StateBefore(polls, rounds, k), polls[k], rounds[k]);
    Snoc(rounds, k);
    ConcatSnoc(rounds[..k], rounds[k]);
    RunAppend(Start<C>(), Concat(rounds[..k]), rounds[k]);
  }

  /** The pending connection is taken up, with a fresh client exactly if its name is new and
      `client_create` succeeds. */
  ghost predicate Connects<C>(s: Session<C>, a: Arrival, e: Event<C>) {
    && e.Connect? && e.fd == a.fd && e.raw == a.raw
    && forall id, rest | Names(a.raw, id, rest) :: e.token.Some? <==> a.created && IsNew(s, a.raw, id)
  }

  lemma FitsByName<C>(s: Session<C>, a: Arrival, e: Event<C>)
    requires e.Connect? && TokenFits(s, a, e.token) && e.fd == a.fd && e.raw == a.raw
    ensures Connects(s, a, e)
  {
    forall id, rest | Names(a.raw, id, rest)
      ensures e.token.Some? <==> a.created && IsNew(s, a.raw, id)
    {
      IdIs(id, rest);
    }
  }

  /** What round `k` of a run consists of: the pending connection, if there is one, and then
      one read for each connected client that has something, in the order of the client
      list; and the state after these events is that in which the next round begins. */
  lemma RoundEvents<C>(polls: seq<Poll>, rounds: seq<seq<Event<C>>>, k: nat)
    returns (conn: seq<Event<C>>, places: seq<nat>, data: seq<Event<C>>)
    requires Tells(polls, rounds) && k < |polls|
    ensures var s := StateBefore(polls, rounds, k);
      && rounds[k] == conn + data && Possible(s, rounds[k])
      && StateBefore(polls, rounds, k + 1) == Run(s, rounds[k])
      && |conn| == (if polls[k].tcp.Some? then 1 else 0)
      && (polls[k].tcp.Some? ==> Enabled(s, conn[0]) && Connects(s, polls[k].tcp.value, conn[0]))
      && Reads(if conn == [] then s else Step(s, conn[0]), 0, polls[k].ready, places, data)
  {
    var s, evs := StateBefore(polls, rounds, k), rounds[k];
    EventsBefore(polls, rounds, k);
    if polls[k].tcp.None? {
      conn, data := [], evs;
      AppendNothing(evs);
      places := ScanReads(s, 0, polls[k].ready);
    } else {
      conn, data := [evs[0]], evs[1..];
      HeadTail(evs);
      FitsByName(s, polls[k].tcp.value, evs[0]);
      places := ScanReads(Step(s, evs[0]), 0, polls[k].ready);
    }
  }

  // ------------------------------------------------------------------
  // The frames that are sent

  /** The frames that answer an event in state `u`: on the client's own socket, and one for
      each acknowledgement of the messages it brought. */
  ghost predicate Answers<C>(u: Session<C>, e: Event<C>, frames: seq<Sending>) {
    SessionOk(u) && Enabled(u, e) &&
    match e
    case Connect(_, _, _) => frames == []
    case Data(c, chunk, budget) =>
      var acks := if chunk == [] then []
                  else HandleAll(u.store, c, ParseBuffer(u.info[c].pending + chunk).msgs, budget).acks;
      |frames| == |acks| && forall i | 0 <= i < |acks| :: frames[i] == Sending(u.info[c].fd, acks[i])
  }

  lemma {:induction false} SendAllOnAt(fd: int, ms: seq<Msg>)
    ensures |SendAllOn(fd, ms)| == |ms| && forall i | 0 <= i < |ms| :: SendAllOn(fd, ms)[i] == Sending(fd, ms[i])
  {
    if ms != [] {
      SendAllOnAt(fd, ms[1..]);
    }
  }

  lemma AcksAnswer<C>(u: Session<C>, e: Event<C>)
    requires SessionOk(u) && Enabled(u, e)
    ensures Answers(u, e, AcksOf(u, e))
  {
    if e.Data? {
      SendAllOnAt(u.info[e.client].fd,
                  HandleRecv(u.store, e.client, u.info[e.client].pending, e.chunk, e.budget).acks);
    }
  }

  /** The events, one after the other from state `s`, are answered by these frames. */
  ghost predicate AllAnswered<C>(s: Session<C>, evs: seq<Event<C>>, frames: seq<seq<Sending>>)
    decreases |evs|
  {
    && |frames| == |evs|
    && (evs != [] ==> Answers(s, evs[0], frames[0]) && AllAnswered(Step(s, evs[0]), evs[1..], frames[1..]))
  }

  lemma {:induction false} EventFrames<C>(s: Session<C>, evs: seq<Event<C>>) returns (frames: seq<seq<Sending>>)
    requires SessionOk(s) && Possible(s, evs)
    ensures AllAnswered(s, evs, frames) && Concat(frames) == AcksOfAll(s, evs)
    decreases |evs|
  {
    frames := [];
    if evs != [] {
      var e := evs[0];
      var more := EventFrames(Step(s, e), evs[1..]);
      frames := [AcksOf(s, e)] + more;
      ConsTail(AcksOf(s, e), more);
      AcksAnswer(s, e);
    }
  }

  /** The frames of a publication: the datagram with the sender's address in front, once for
      each of `seen`, on the socket it has. */
  ghost predicate Publishes<C>(s: Session<C>, d: Dgram, seen: seq<C>, frames: seq<Sending>) {
    && d.n <= |d.buf| && |frames| == |seen|
    && forall i | 0 <= i < |seen| :: seen[i] in s.info &&
         frames[i] == Sending(s.info[seen[i]].fd, Msg(3, HeaderText(d.ip, d.port) + d.buf[..d.n]))
  }

  /** `seen` are distinct clients with a pattern that is reached for topic `t`: all of them, or
      1024 if they are more. */
  ghost predicate Receive<C>(s: Session<C>, t: Topic, seen: seq<C>) {
    && NoDuplicates(seen) && (forall c | c in seen :: Interested(s.store, c, t))
    && var all := set c | c in s.store.refs && Interested(s.store, c, t);
       |seen| == if |all| < 1024 then |all| else 1024
  }

  /** The publication part of a round: nothing without a datagram or for an empty one, and
      otherwise its frames to its receivers, by the topic in its first 50 bytes. */
  ghost predicate Published<C>(s: Session<C>, p: Poll, seen: seq<C>, pubs: seq<Sending>) {
    if p.udp.None? || p.udp.value.n == 0 then pubs == []
    else
      var d := p.udp.value;
      |d.buf| >= 50 && Publishes(s, d, seen, pubs) && Receive(s, Tokens(CString(d.buf[..50])), seen)
  }

  /** The output of a run up to the beginning of round `k`. */
  ghost function OutputBefore<C>(polls: seq<Poll>, rounds: seq<seq<Event<C>>>, k: nat): seq<Sending>
    requires Tells(polls, rounds) && AllOk(polls) && k <= |polls|
  {
    ToldBefore(polls, rounds, k);
    Output(polls[..k], rounds[..k])
  }

  lemma PublishedFrames<C>(s: Session<C>, d: Dgram)
    requires SessionOk(s) && DgramOk(d)
    ensures Publishes(s, d, DgramAudience(s, d), DgramSends(s, d))
    ensures d.n > 0 ==> Receive(s, Tokens(CString(d.buf[..50])), DgramAudience(s, d))
    ensures d.n == 0 ==> DgramSends(s, d) == []
  {
    DgramReaches(s, d);
    var all := set c | c in s.store.refs && Interested(s.store, c, Tokens(CString(d.buf[..50])));
    assert all == Receivers(s.store, Tokens(CString(d.buf[..50])));
  }

  /** Everything that is sent in round `k` of a run, in order: the publication of the datagram
      to its receivers, if there is one that is not empty, and then for each event the frames
      that answer it. Nothing else. */
  lemma RoundFrames<C>(polls: seq<Poll>, rounds: seq<seq<Event<C>>>, k: nat)
    returns (seen: seq<C>, pubs: seq<Sending>, frames: seq<seq<Sending>>)
    requires Tells(polls, rounds) && AllOk(polls) && k < |polls|
    ensures OutputBefore(polls, rounds, k + 1) == OutputBefore(polls, rounds, k) + pubs + Concat(frames)
    ensures Published(StateBefore(polls, rounds, k), polls[k], seen, pubs)
    ensures AllAnswered(StateBefore(polls, rounds, k), rounds[k], frames)
  {
    var s, udp := StateBefore(polls, rounds, k), polls[k].udp;
    EventsBefore(polls, rounds, k);
    frames := EventFrames(s, rounds[k]);
    seen, pubs := [], PublishSends(s, polls[k]);
    if udp.Some? {
      seen := DgramAudience(s, udp.value);
      PublishedFrames(s, udp.value);
    }
    OutputGrows(polls, rounds, k);
    AppendAssoc(OutputBefore(polls, rounds, k), pubs, AcksOfAll(s, rounds[k]));
  }

  lemma OutputGrows<C>(polls: seq<Poll>, rounds: seq<seq<Event<C>>>, k: nat)
    requires Tells(polls, rounds) && AllOk(polls) && k < |polls|
    requires Possible(StateBefore(polls, rounds, k), rounds[k])
    ensures var s := StateBefore(polls, rounds, k);
      OutputBefore(polls, rounds, k + 1) ==
      OutputBefore(polls, rounds, k) + (PublishSends(s, polls[k]) + AcksOfAll(s, rounds[k]))
  {
    ToldBefore(polls, rounds, k);
    ToldBefore(polls, rounds, k + 1);
    Snoc(polls, k);
    Snoc(rounds, k);
    OutputMore(polls[..k], rounds[..k], polls[k], rounds[k], StateBefore(polls, rounds, k));
  }

  /** The rounds' frames are the whole output. */
  lemma OutputIsAll<C>(polls: seq<Poll>, rounds: seq<seq<Event<C>>>)
    requires Tells(polls, rounds) && AllOk(polls)
    ensures OutputBefore(polls, rounds, 0) == [] && OutputBefore(polls, rounds, |polls|) == Output(polls, rounds)
  {
    Whole(polls);
    Whole(rounds);
  }

  // ------------------------------------------------------------------
  // Whose acknowledgements they are

  /** The messages among `sends` that are marked with the name `id`. */
  function Picked(id: bytes, tags: seq<Option<bytes>>, sends: seq<Sending>): seq<Msg>
    requires |tags| == |sends|
  {
    if sends == [] then []
    else (if tags[0] == Some(id) then [sends[0].msg] else []) + Picked(id, tags[1..], sends[1..])
  }

  lemma {:induction false} PickedAppend(id: bytes, t: seq<Option<bytes>>, a: seq<Sending>, u: seq<Option<bytes>>,
                                        b: seq<Sending>)
    requires |t| == |a| && |u| == |b|
    ensures Picked(id, t + u, a + b) == Picked(id, t, a) + Picked(id, u, b)
    decreases |a|
  {
    if a == [] {
      AppendNothing(u);
      AppendNothing(b);
      AppendNothing(Picked(id, u, b));
    } else {
      AppendTail(t, u);
      AppendTail(a, b);
      PickedAppend(id, t[1..], a[1..], u, b);
      AppendAssoc(if t[0] == Some(id) then [a[0].msg] else [], Picked(id, t[1..], a[1..]), Picked(id, u, b));
    }
  }

  /** All marked alike. */
  function Marks(n: nat, tag: Option<bytes>): (tags: seq<Option<bytes>>)
    ensures |tags| == n && forall i | 0 <= i < n :: tags[i] == tag
  {
    if n == 0 then [] else [tag] + Marks(n - 1, tag)
  }

  lemma {:induction false} PickedMarks(id: bytes, who: bytes, fd: int, ms: seq<Msg>)
    ensures |SendAllOn(fd, ms)| == |ms|
    ensures Picked(id, Marks(|ms|, Some(who)), SendAllOn(fd, ms)) == if id == who then ms else []
  {
    SendAllOnAt(fd, ms);
    if ms != [] {
      PickedMarks(id, who, fd, ms[1..]);
      ConsTail(Some(who), Marks(|ms| - 1, Some(who)));
      ConsTail(Sending(fd, ms[0]), SendAllOn(fd, ms[1..]));
      SendAllOnAt(fd, ms[1..]);
      HeadTail(ms);
    }
  }

  lemma {:induction false} NonePicked(id: bytes, sends: seq<Sending>)
    ensures Picked(id, Marks(|sends|, None), sends) == []
  {
    if sends != [] {
      NonePicked(id, sends[1..]);
      ConsTail(None, Marks(|sends| - 1, None));
    }
  }

  /** Marked frames are acknowledgements, the others publications. */
  predicate WellMarked(tags: seq<Option<bytes>>, sends: seq<Sending>) {
    |tags| == |sends| && forall i | 0 <= i < |sends| ::
      if tags[i].Some? then sends[i].msg.typ == 4 || sends[i].msg.typ == 5 else sends[i].msg.typ == 3
  }

  lemma WellMarkedAppend(t: seq<Option<bytes>>, a: seq<Sending>, u: seq<Option<bytes>>, b: seq<Sending>)
    requires WellMarked(t, a) && WellMarked(u, b)
    ensures WellMarked(t + u, a + b)
  {
  }

  lemma {:induction false} AckTypes<C>(st: Store<C>, c: C, ms: seq<Msg>, budget: nat)
    requires Good(st) && c in st.refs
    ensures forall a | a in HandleAll(st, c, ms, budget).acks :: a.typ == 4 || a.typ == 5
    decreases |ms|
  {
    if ms != [] {
      var h := Handle(st, c, ms[0], budget);
      if h.ok {
        AckTypes(h.store, c, ms[1..], h.budget);
      }
    }
  }

  /** The marks of one event's acknowledgements. */
  lemma MarkEvent<C>(s: Session<C>, e: Event<C>) returns (tags: seq<Option<bytes>>)
    requires SessionOk(s) && Enabled(s, e)
    ensures WellMarked(tags, AcksOf(s, e))
    ensures forall id :: Picked(id, tags, AcksOf(s, e)) == RepliesTo(id, s, e)
  {
    tags := [];
    if e.Data? {
      var c := e.client;
      var h := HandleRecv(s.store, c, s.info[c].pending, e.chunk, e.budget);
      if e.chunk != [] {
        AckTypes(s.store, c, ParseBuffer(s.info[c].pending + e.chunk).msgs, e.budget);
      }
      SendAllOnAt(s.info[c].fd, h.acks);
      tags := Marks(|h.acks|, Some(s.info[c].id));
      forall id
        ensures Picked(id, tags, AcksOf(s, e)) == RepliesTo(id, s, e)
      {
        PickedMarks(id, s.info[c].id, s.info[c].fd, h.acks);
      }
    }
  }

  lemma {:induction false} MarkEvents<C>(s: Session<C>, evs: seq<Event<C>>) returns (tags: seq<Option<bytes>>)
    requires SessionOk(s) && Possible(s, evs)
    ensures WellMarked(tags, AcksOfAll(s, evs))
    ensures forall id :: Picked(id, tags, AcksOfAll(s, evs)) == AcksTo(id, s, evs)
    decreases |evs|
  {
    tags := [];
    if evs != [] {
      var e := evs[0];
      var first := MarkEvent(s, e);
      var more := MarkEvents(Step(s, e), evs[1..]);
      tags := first + more;
      WellMarkedAppend(first, AcksOf(s, e), more, AcksOfAll(Step(s, e), evs[1..]));
      forall id
        ensures Picked(id, tags, AcksOfAll(s, evs)) == AcksTo(id, s, evs)
      {
        PickedAppend(id, first, AcksOf(s, e), more, AcksOfAll(Step(s, e), evs[1..]));
      }
    }
  }

  lemma MarkRound<C>(s: Session<C>, p: Poll, evs: seq<Event<C>>) returns (tags: seq<Option<bytes>>)
    requires SessionOk(s) && PollOk(p) && Possible(s, evs)
    ensures WellMarked(tags, PublishSends(s, p) + AcksOfAll(s, evs))
    ensures forall id :: Picked(id, tags, PublishSends(s, p) + AcksOfAll(s, evs)) == AcksTo(id, s, evs)
  {
    var pubs, acks := PublishSends(s, p), AcksOfAll(s, evs);
    var more := MarkEvents(s, evs);
    var none := Marks(|pubs|, None);
    tags := none + more;
    WellMarkedAppend(none, pubs, more, acks);
    forall id
      ensures Picked(id, tags, pubs + acks) == AcksTo(id, s, evs)
    {
      NonePicked(id, pubs);
      PickedAppend(id, none, pubs, more, acks);
      AppendNothing(AcksTo(id, s, evs));
    }
  }

  lemma {:induction false} MarkRun<C>(polls: seq<Poll>, rounds: seq<seq<Event<C>>>) returns (tags: seq<Option<bytes>>)
    requires Tells(polls, rounds) && AllOk(polls)
    ensures Possible(Start<C>(), Concat(rounds)) && WellMarked(tags, Output(polls, rounds))
    ensures forall id :: Picked(id, tags, Output(polls, rounds)) == AcksTo(id, Start<C>(), Concat(rounds))
    decreases |polls|
  {
    tags := [];
    ToldIsPossible(polls, rounds);
    if polls != [] {
      var n := |polls| - 1;
      var s, now := StateAfter(polls[..n], rounds[..n]), rounds[n];
      RoundIsPossible(s, polls[n], now);
      var before := MarkRun(polls[..n], rounds[..n]);
      var more := MarkRound(s, polls[n], now);
      var sent := PublishSends(s, polls[n]) + AcksOfAll(s, now);
      tags := before + more;
      WellMarkedAppend(before, Output(polls[..n], rounds[..n]), more, sent);
      InitLast(rounds);
      ConcatSnoc(rounds[..n], now);
      forall id
        ensures Picked(id, tags, Output(polls, rounds)) == AcksTo(id, Start<C>(), Concat(rounds))
      {
        PickedAppend(id, before, Output(polls[..n], rounds[..n]), more, sent);
        AcksToAppend(id, Start<C>(), Concat(rounds[..n]), now);
      }
    }
  }

  /** The frames of a run can be marked with names so that the unmarked ones are the
      publications, the marked ones acknowledgements, and those with a client's name are
      the echoes of its served requests in order, if sends to it do not run out. */
  lemma OutputEchoes<C>(polls: seq<Poll>, rounds: seq<seq<Event<C>>>) returns (tags: seq<Option<bytes>>)
    requires Tells(polls, rounds) && AllOk(polls)
    ensures WellMarked(tags, Output(polls, rounds))
    ensures forall id | Ample(id, Unseen, Concat(rounds)) ::
      Picked(id, tags, Output(polls, rounds)) == Echoes(ServedIn(id, Concat(rounds)))
  {
    tags := MarkRun(polls, rounds);
    forall id | Ample(id, Unseen, Concat(rounds))
      ensures Picked(id, tags, Output(polls, rounds)) == Echoes(ServedIn(id, Concat(rounds)))
    {
      AcknowledgementsEcho(Concat(rounds), id);
    }
  }
}
