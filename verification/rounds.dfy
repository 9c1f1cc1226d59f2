/** The main loop of the server as a function of what its polls report: which events a
    round comes to, what the server sends, and how both follow the clients' requests. */
module Rounds {
  import opened Bytes
  import opened Topics
  import opened Patterns
  import opened Index
  import opened Search
  import opened Protocol
  import opened Decoder
  import opened Requests
  import opened Session
  import opened Runs
  import opened Packet

  /** What `recv` finds on a client's socket, nothing on failure or at the end of the
      stream, and how many sends the socket will take. */
  datatype Offer = Offer(data: bytes, budget: nat)

  /** A datagram of `n` bytes; `buf` is the whole receive buffer, stale bytes included. */
  datatype Dgram = Dgram(buf: bytes, n: nat, ip: Addr, port: nat)

  /** A pending connection: its descriptor, what its first `recv` gives, and whether
      `client_create` would succeed. */
  datatype Arrival = Arrival(fd: int, raw: bytes, created: bool)

  /** What one `poll` reports: a datagram, a connection, and what the clients have, in the
      order in which the scan asks them. */
  datatype Poll = Poll(udp: Option<Dgram>, tcp: Option<Arrival>, ready: seq<Option<Offer>>)

  predicate DgramOk(d: Dgram) {
    |d.buf| == 1500 && d.port < 0x1_0000 && |HeaderText(d.ip, d.port)| + d.n <= 1500
  }

  predicate PollOk(p: Poll) {
    && (p.udp.Some? ==> DgramOk(p.udp.value))
    && (p.tcp.Some? ==> p.tcp.value.fd >= 0 && |p.tcp.value.raw| <= 15)
  }

  predicate AllOk(polls: seq<Poll>) {
    forall p | p in polls :: PollOk(p)
  }

  // ------------------------------------------------------------------
  // The scan over the clients

  /** What `recv` takes of an offer when there is `room` in the buffer. */
  function Fitting(room: nat, data: bytes): (chunk: bytes)
    ensures |chunk| <= room && (chunk == [] <==> data == [] || room == 0)
  {
    if |data| <= room then data else data[..room]
  }

  lemma PendingFits(b: bytes)
    requires !Complete(b) && !Bogus(b)
    ensures |b| < READ_BUF_SIZE
  {
  }

  /** The event that the `i`th active client's offer amounts to. */
  ghost function Read<C>(s: Session<C>, i: nat, o: Offer): (e: Event<C>)
    requires SessionOk(s) && i < |s.active|
    ensures Enabled(s, e)
  {
    var c := s.active[i];
    PendingFits(s.info[c].pending);
    Data(c, Fitting(READ_BUF_SIZE - |s.info[c].pending|, o.data), o.budget)
  }

  lemma ReadIs<C>(s: Session<C>, i: nat, o: Offer, room: nat)
    requires SessionOk(s) && i < |s.active| && |s.info[s.active[i]].pending| + room == READ_BUF_SIZE
    ensures Data(s.active[i], Fitting(room, o.data), o.budget) == Read(s, i, o)
  {
  }

  /** Client data brings no new clients. */
  lemma SameClients<C>(s: Session<C>, e: Event<C>)
    requires SessionOk(s) && Enabled(s, e) && e.Data?
    ensures Step(s, e).info.Keys == s.info.Keys
  {
  }

  /** Where the scan goes on: a client that was dropped has left its place to the next. */
  ghost function NextPlace<C>(s: Session<C>, i: nat, o: Offer): nat
    requires SessionOk(s) && i < |s.active|
  {
    if s.active[i] in Step(s, Read(s, i, o)).active then i + 1 else i
  }

  /** The events of the scan from place `i` on. */
  ghost function ScanEvents<C>(s: Session<C>, i: nat, ready: seq<Option<Offer>>): seq<Event<C>>
    requires SessionOk(s)
    decreases |ready|
  {
    if ready == [] || i >= |s.active| then []
    else if ready[0].None? then ScanEvents(s, i + 1, ready[1..])
    else
      var o := ready[0].value;
      [Read(s, i, o)] + ScanEvents(Step(s, Read(s, i, o)), NextPlace(s, i, o), ready[1..])
  }

  /** The acknowledgements that an event makes the server send. */
  ghost function AcksOf<C>(s: Session<C>, e: Event<C>): seq<Sending>
    requires SessionOk(s) && Enabled(s, e)
  {
    if e.Connect? then []
    else SendAllOn(s.info[e.client].fd, HandleRecv(s.store, e.client, s.info[e.client].pending, e.chunk, e.budget).acks)
  }

  ghost function AcksOfAll<C>(s: Session<C>, evs: seq<Event<C>>): seq<Sending>
    requires SessionOk(s) && Possible(s, evs)
    decreases |evs|
  {
    if evs == [] then [] else AcksOf(s, evs[0]) + AcksOfAll(Step(s, evs[0]), evs[1..])
  }

  lemma {:induction false} ScanIsPossible<C>(s: Session<C>, i: nat, ready: seq<Option<Offer>>)
    requires SessionOk(s)
    ensures Possible(s, ScanEvents(s, i, ready))
    decreases |ready|
  {
    if ready != [] && i < |s.active| {
      if ready[0].None? {
        ScanIsPossible(s, i + 1, ready[1..]);
      } else {
        var o := ready[0].value;
        var e, rest := Read(s, i, o), ScanEvents(Step(s, Read(s, i, o)), NextPlace(s, i, o), ready[1..]);
        ScanIsPossible(Step(s, e), NextPlace(s, i, o), ready[1..]);
        ConsTail(e, rest);
      }
    }
  }

  // ------------------------------------------------------------------
  // Runs in two parts

  lemma {:induction false} RunAppend<C>(s: Session<C>, a: seq<Event<C>>, b: seq<Event<C>>)
    requires SessionOk(s) && Possible(s, a) && Possible(Run(s, a), b)
    ensures Possible(s, a + b) && Run(s, a + b) == Run(Run(s, a), b)
    ensures AcksOfAll(s, a + b) == AcksOfAll(s, a) + AcksOfAll(Run(s, a), b)
    decreases |a|
  {
    if a == [] {
      AppendNothing(b);
      AppendNothing(AcksOfAll(s, b));
    } else {
      AppendTail(a, b);
      RunAppend(Step(s, a[0]), a[1..], b);
      AppendAssoc(AcksOf(s, a[0]), AcksOfAll(Step(s, a[0]), a[1..]), AcksOfAll(Run(s, a), b));
    }
  }

  lemma RunOne<C>(s: Session<C>, e: Event<C>)
    requires SessionOk(s) && Enabled(s, e)
    ensures Possible(s, []) && Run(s, []) == s
    ensures Possible(s, [e]) && Run(s, [e]) == Step(s, e) && AcksOfAll(s, [e]) == AcksOf(s, e)
  {
    assert [e][1..] == [];
    AppendNothing(AcksOf(s, e));
  }

  /** A scan from state `s0` that did `evs`, sent `sends`, and stands in state `s` at place
      `i` of the client list and place `k` of what `poll` reported. */
  ghost predicate ScanAt<C>(s0: Session<C>, ready: seq<Option<Offer>>, s: Session<C>, i: nat, k: nat,
                            evs: seq<Event<C>>, sends: seq<Sending>)
  {
    && SessionOk(s0) && Possible(s0, evs) && s == Run(s0, evs) && sends == AcksOfAll(s0, evs)
    && s.info.Keys == s0.info.Keys && i <= |s.active| && k <= |ready|
    && ScanEvents(s0, 0, ready) == evs + ScanEvents(s, i, ready[k..])
  }

  lemma ScanStart<C>(s: Session<C>, ready: seq<Option<Offer>>)
    requires SessionOk(s)
    ensures ScanAt(s, ready, s, 0, 0, [], [])
  {
    Whole(ready);
    AppendNothing(ScanEvents(s, 0, ready));
  }

  /** What one place of the scan comes to: the events, the state and place after it, and the
      acknowledgements sent. */
  ghost predicate PlaceIs<C>(s: Session<C>, i: nat, r: Option<Offer>, e: seq<Event<C>>, t: Session<C>, next: nat,
                             sends: seq<Sending>)
  {
    SessionOk(s) && i < |s.active| &&
    if r.None? then e == [] && t == s && next == i + 1 && sends == []
    else
      var d := Read(s, i, r.value);
      e == [d] && t == Step(s, d) && next == NextPlace(s, i, r.value) && sends == AcksOf(s, d)
  }

  lemma PlaceSkipped<C>(s: Session<C>, i: nat)
    requires SessionOk(s) && i < |s.active|
    ensures PlaceIs(s, i, None, [], s, i + 1, [])
  {
  }

  lemma PlaceRead<C>(s: Session<C>, i: nat, o: Offer, ok: bool)
    requires SessionOk(s) && i < |s.active|
    requires var e := Read(s, i, o); ok <==> e.client in Step(s, e).active
    ensures var e := Read(s, i, o); PlaceIs(s, i, Some(o), [e], Step(s, e), if ok then i + 1 else i, AcksOf(s, e))
  {
  }

  lemma ScanSplit<C>(s: Session<C>, i: nat, ready: seq<Option<Offer>>, k: nat,
                     e: seq<Event<C>>, t: Session<C>, next: nat, sends: seq<Sending>)
    requires k < |ready| && PlaceIs(s, i, ready[k], e, t, next, sends)
    ensures SessionOk(t) && ScanEvents(s, i, ready[k..]) == e + ScanEvents(t, next, ready[k + 1..])
  {
    SliceStep(ready, k);
    AppendNothing(ScanEvents(t, next, ready[k + 1..]));
  }

  lemma PlaceRuns<C>(s: Session<C>, i: nat, r: Option<Offer>,
                     e: seq<Event<C>>, t: Session<C>, next: nat, sends: seq<Sending>)
    requires PlaceIs(s, i, r, e, t, next, sends)
    ensures Possible(s, e) && t == Run(s, e) && sends == AcksOfAll(s, e)
    ensures t.info.Keys == s.info.Keys && next <= |t.active|
  {
    if r.Some? {
      RunOne(s, e[0]);
      SameClients(s, e[0]);
      PlaceFits(s, i, r.value);
    }
  }

  /** The scan, one place further on. */
  lemma ScanMove<C>(s0: Session<C>, ready: seq<Option<Offer>>, s: Session<C>, i: nat, k: nat, evs: seq<Event<C>>,
                    sends: seq<Sending>, e: seq<Event<C>>, t: Session<C>, next: nat, more: seq<Sending>)
    requires ScanAt(s0, ready, s, i, k, evs, sends) && k < |ready| && PlaceIs(s, i, ready[k], e, t, next, more)
    ensures ScanAt(s0, ready, t, next, k + 1, evs + e, sends + more)
  {
    PlaceRuns(s, i, ready[k], e, t, next, more);
    RunAppend(s0, evs, e);
    ScanSplit(s, i, ready, k, e, t, next, more);
    AppendAssoc(evs, e, ScanEvents(t, next, ready[k + 1..]));
  }

  lemma PlaceFits<C>(s: Session<C>, i: nat, o: Offer)
    requires SessionOk(s) && i < |s.active|
    ensures NextPlace(s, i, o) <= |Step(s, Read(s, i, o)).active|
  {
    RemoveFirstLength(s.active, s.active[i]);
    ActiveAfter(s, Read(s, i, o));
  }

  lemma ActiveAfter<C>(s: Session<C>, e: Event<C>)
    requires SessionOk(s) && Enabled(s, e) && e.Data?
    ensures var t := Step(s, e); t.active == if e.client in t.active then s.active else RemoveFirst(s.active, e.client)
  {
    RemoveFirstDistinct(s.active, e.client);
  }

  lemma ScanEnd<C>(s0: Session<C>, ready: seq<Option<Offer>>, s: Session<C>, i: nat, k: nat,
                   evs: seq<Event<C>>, sends: seq<Sending>)
    requires ScanAt(s0, ready, s, i, k, evs, sends) && (i == |s.active| || k == |ready|)
    ensures evs == ScanEvents(s0, 0, ready)
  {
    AppendNothing(evs);
  }

  // ------------------------------------------------------------------
  // Rounds of the main loop

  /** A fresh client comes into being exactly for an ID nobody has, if `client_create`
      succeeds. */
  ghost predicate TokenFits<C>(s: Session<C>, a: Arrival, token: Option<C>) {
    token.Some? <==> a.created && IsNew(s, a.raw, IdOf(a.raw))
  }

  /** The events of one round: a connection, if one was pending, then the scan. */
  ghost predicate RoundIs<C>(s: Session<C>, p: Poll, evs: seq<Event<C>>)
    requires SessionOk(s)
  {
    if p.tcp.None? then evs == ScanEvents(s, 0, p.ready)
    else
      && evs != [] && evs[0].Connect? && evs[0].fd == p.tcp.value.fd && evs[0].raw == p.tcp.value.raw
      && Enabled(s, evs[0]) && TokenFits(s, p.tcp.value, evs[0].token)
      && evs[1..] == ScanEvents(Step(s, evs[0]), 0, p.ready)
  }

  lemma RoundIsPossible<C>(s: Session<C>, p: Poll, evs: seq<Event<C>>)
    requires SessionOk(s) && RoundIs(s, p, evs)
    ensures Possible(s, evs)
  {
    if p.tcp.None? {
      ScanIsPossible(s, 0, p.ready);
    } else {
      ScanIsPossible(Step(s, evs[0]), 0, p.ready);
    }
  }

  /** A connection brings its own client at most. */
  lemma OnlyTheNewClient<C>(s: Session<C>, token: Option<C>, fd: int, raw: bytes)
    requires SessionOk(s) && Enabled(s, Connect(token, fd, raw))
    ensures var t := Step(s, Connect(token, fd, raw));
      s.info.Keys <= t.info.Keys && forall c | c in t.info && c !in s.info :: token == Some(c)
  {
  }

  /** The connection part of a round: its events and the state after it. */
  ghost predicate AcceptIs<C>(s: Session<C>, tcp: Option<Arrival>, evs: seq<Event<C>>, t: Session<C>) {
    SessionOk(s) &&
    if tcp.None? then evs == [] && t == s
    else
      && |evs| == 1 && evs[0].Connect? && evs[0].fd == tcp.value.fd && evs[0].raw == tcp.value.raw
      && Enabled(s, evs[0]) && TokenFits(s, tcp.value, evs[0].token) && t == Step(s, evs[0])
  }

  lemma RoundParts<C>(s: Session<C>, p: Poll, a: seq<Event<C>>, t: Session<C>, b: seq<Event<C>>)
    requires AcceptIs(s, p.tcp, a, t) && SessionOk(t) && b == ScanEvents(t, 0, p.ready) && Possible(t, b)
    ensures RoundIs(s, p, a + b) && Possible(s, a + b) && Run(s, a + b) == Run(t, b)
    ensures AcksOfAll(s, a + b) == AcksOfAll(t, b)
  {
    AppendNothing(b);
    if p.tcp.Some? {
      AppendTail(a, b);
      AppendNothing(AcksOfAll(t, b));
      assert a[1..] == [];
    }
  }

  /** Who is sent a datagram, in order. */
  ghost function DgramAudience<C>(s: Session<C>, d: Dgram): (seen: seq<C>)
    requires SessionOk(s) && DgramOk(d)
    ensures forall c | c in seen :: c in s.info
  {
    AudienceMeans(s.store, Tokens(CString(d.buf[..50])));
    if d.n == 0 then [] else Audience(s.store.view, Tokens(CString(d.buf[..50])))
  }

  /** The packet goes to each member of the audience on the socket it has. */
  ghost function DgramSends<C>(s: Session<C>, d: Dgram): (sends: seq<Sending>)
    requires SessionOk(s) && DgramOk(d)
    ensures |sends| == |DgramAudience(s, d)|
  {
    var seen := DgramAudience(s, d);
    var m := Msg(MSG_PUBLISH, HeaderText(d.ip, d.port) + d.buf[..d.n]);
    seq(|seen|, i requires 0 <= i < |seen| => Sending(s.info[seen[i]].fd, m))
  }

  /** A datagram goes to each client with a matching pattern once, or to 1024 of them; an
      empty one goes to nobody. Exactly the inactive ones are addressed on socket -1. */
  lemma DgramReaches<C>(s: Session<C>, d: Dgram)
    requires SessionOk(s) && DgramOk(d)
    ensures var seen, all := DgramAudience(s, d), Receivers(s.store, Tokens(CString(d.buf[..50])));
      && NoDuplicates(seen)
      && if d.n == 0 then seen == []
         else (forall c | c in seen :: c in all) && |seen| == if |all| < MAX_RECEIVERS then |all| else MAX_RECEIVERS
    ensures var seen, sends := DgramAudience(s, d), DgramSends(s, d);
      forall i | 0 <= i < |seen| :: sends[i].fd == -1 <==> seen[i] in s.inactive
  {
    AudienceMeans(s.store, Tokens(CString(d.buf[..50])));
  }

  ghost function PublishSends<C>(s: Session<C>, p: Poll): seq<Sending>
    requires SessionOk(s) && PollOk(p)
  {
    if p.udp.None? then [] else DgramSends(s, p.udp.value)
  }

  /** `rounds` are the events of a run of the server in which the polls reported `polls`. */
  ghost predicate Tells<C>(polls: seq<Poll>, rounds: seq<seq<Event<C>>>)
    decreases |polls|
  {
    && |rounds| == |polls|
    && (polls != [] ==>
          var before := rounds[..|rounds| - 1];
          && Tells(polls[..|polls| - 1], before)
          && Possible(Start<C>(), Concat(before))
          && RoundIs(Run(Start<C>(), Concat(before)), polls[|polls| - 1], rounds[|rounds| - 1]))
  }

  lemma {:induction false} ToldIsPossible<C>(polls: seq<Poll>, rounds: seq<seq<Event<C>>>)
    requires Tells(polls, rounds)
    ensures Possible(Start<C>(), Concat(rounds))
  {
    if polls != [] {
      var before, now := Concat(rounds[..|rounds| - 1]), rounds[|rounds| - 1];
      InitLast(rounds);
      ConcatSnoc(rounds[..|rounds| - 1], now);
      RoundIsPossible(Run(Start<C>(), before), polls[|polls| - 1], now);
      RunAppend(Start<C>(), before, now);
    }
  }

  /** The state in which a run leaves the server. */
  ghost function StateAfter<C>(polls: seq<Poll>, rounds: seq<seq<Event<C>>>): (s: Session<C>)
    requires Tells(polls, rounds)
    ensures SessionOk(s)
  {
    ToldIsPossible(polls, rounds);
    Run(Start<C>(), Concat(rounds))
  }

  /** Everything the server sends in a run, in order: in each round the publication, then
      the acknowledgements. */
  ghost function Output<C>(polls: seq<Poll>, rounds: seq<seq<Event<C>>>): seq<Sending>
    requires Tells(polls, rounds) && AllOk(polls)
    decreases |polls|
  {
    if polls == [] then []
    else
      var n := |polls| - 1;
      var s := StateAfter(polls[..n], rounds[..n]);
      RoundIsPossible(s, polls[n], rounds[n]);
      Output(polls[..n], rounds[..n]) + (PublishSends(s, polls[n]) + AcksOfAll(s, rounds[n]))
  }

  /** A run that took the first `k` polls, came to state `s`, and sent `sends`. */
  ghost predicate RunAt<C>(polls: seq<Poll>, k: nat, rounds: seq<seq<Event<C>>>, s: Session<C>, sends: seq<Sending>) {
    && k <= |polls| && AllOk(polls)
    && Tells(polls[..k], rounds) && s == StateAfter(polls[..k], rounds) && sends == Output(polls[..k], rounds)
  }

  lemma RunStart<C>(polls: seq<Poll>)
    requires AllOk(polls)
    ensures RunAt(polls, 0, [], Start<C>(), [])
  {
  }

  lemma TellsMore<C>(polls: seq<Poll>, rounds: seq<seq<Event<C>>>, p: Poll, evs: seq<Event<C>>)
    requires Tells(polls, rounds) && RoundIs(StateAfter(polls, rounds), p, evs)
    ensures Tells(polls + [p], rounds + [evs])
    ensures Possible(StateAfter(polls, rounds), evs)
    ensures StateAfter(polls + [p], rounds + [evs]) == Run(StateAfter(polls, rounds), evs)
  {
    SnocParts(polls, p);
    SnocParts(rounds, evs);
    ToldIsPossible(polls, rounds);
    RoundIsPossible(StateAfter(polls, rounds), p, evs);
    ConcatSnoc(rounds, evs);
    RunAppend(Start<C>(), Concat(rounds), evs);
  }

  lemma OutputMore<C>(polls: seq<Poll>, rounds: seq<seq<Event<C>>>, p: Poll, evs: seq<Event<C>>, s: Session<C>)
    requires Tells(polls, rounds) && s == StateAfter(polls, rounds) && Possible(s, evs)
    requires Tells(polls + [p], rounds + [evs]) && AllOk(polls) && AllOk(polls + [p])
    ensures Output(polls + [p], rounds + [evs]) == Output(polls, rounds) + (PublishSends(s, p) + AcksOfAll(s, evs))
  {
    SnocParts(polls, p);
    SnocParts(rounds, evs);
  }

  lemma RunMore<C>(polls: seq<Poll>, k: nat, rounds: seq<seq<Event<C>>>, s: Session<C>, sends: seq<Sending>,
                   evs: seq<Event<C>>, more: seq<Sending>)
    requires RunAt(polls, k, rounds, s, sends) && k < |polls| && RoundIs(s, polls[k], evs) && Possible(s, evs)
    requires more == PublishSends(s, polls[k]) + AcksOfAll(s, evs)
    ensures RunAt(polls, k + 1, rounds + [evs], Run(s, evs), sends + more)
  {
    Snoc(polls, k);
    TellsMore(polls[..k], rounds, polls[k], evs);
    OutputMore(polls[..k], rounds, polls[k], evs, s);
  }

  lemma RunEnd<C>(polls: seq<Poll>, rounds: seq<seq<Event<C>>>, s: Session<C>, sends: seq<Sending>)
    requires RunAt(polls, |polls|, rounds, s, sends)
    ensures Tells(polls, rounds) && s == StateAfter(polls, rounds) && sends == Output(polls, rounds)
  {
    Whole(polls);
  }

  lemma {:induction false} ToldBefore<C>(polls: seq<Poll>, rounds: seq<seq<Event<C>>>, k: nat)
    requires Tells(polls, rounds) && k <= |polls|
    ensures Tells(polls[..k], rounds[..k])
    decreases |polls|
  {
    if k < |polls| {
      var n := |polls| - 1;
      ToldBefore(polls[..n], rounds[..n], k);
      PrefixOfPrefix(polls, n, k);
      PrefixOfPrefix(rounds, n, k);
    } else {
      Whole(polls);
      Whole(rounds);
    }
  }

  /** The state of the server when round `k` of a run begins. */
  ghost function StateBefore<C>(polls: seq<Poll>, rounds: seq<seq<Event<C>>>, k: nat): (s: Session<C>)
    requires Tells(polls, rounds) && k <= |polls|
    ensures SessionOk(s) && Possible(Start<C>(), Concat(rounds[..k])) && s == Run(Start<C>(), Concat(rounds[..k]))
  {
    ToldBefore(polls, rounds, k);
    ToldIsPossible(polls[..k], rounds[..k]);
    StateAfter(polls[..k], rounds[..k])
  }

  /** Deliveries follow requests: the audience of the datagram in round `k` are clients
      whose own served requests, up to then, leave them with a pattern that means its
      topic; and all of those, unless they are more than 1024. */
  lemma DeliveriesFollowRequests<C>(polls: seq<Poll>, rounds: seq<seq<Event<C>>>, k: nat, c: C, t: Topic)
    requires Tells(polls, rounds) && k < |polls| && PollOk(polls[k]) && polls[k].udp.Some? && polls[k].udp.value.n > 0
    requires c in StateBefore(polls, rounds, k).info && t == Tokens(CString(polls[k].udp.value.buf[..50]))
    ensures var s := StateBefore(polls, rounds, k);
      var seen, served := DgramAudience(s, polls[k].udp.value), ServedIn(s.info[c].id, Concat(rounds[..k]));
      var wanted := exists p :: Net(served, p) > 0 && Means(Normal(Segs(p)), t);
      && (c in seen ==> wanted)
      && (wanted && |Receivers(s.store, t)| <= 1024 ==> c in seen)
  {
    InterestFollowsRequests(Concat(rounds[..k]), c, t);
    AudienceIsInterested(StateBefore(polls, rounds, k).store, c, t);
  }
}
