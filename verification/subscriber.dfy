/** What the server sends, as a subscriber reads it. */
module Subscriber {
  import opened Bytes
  import opened Index
  import opened Protocol
  import opened Decoder
  import opened Requests
  import opened Session
  import opened Runs
  import opened Packet
  import opened Rounds

  /** The subscriber takes the message, with a cell to spare in its buffer. */
  predicate Passes(m: Msg) {
    m.Encodable() && |m.payload| < 2048
  }

  lemma {:induction false} BufferMessagesFit(b: bytes)
    ensures forall m | m in ParseBuffer(b).msgs :: m.Encodable() && |m.payload| <= MAX_PAYLOAD
    decreases |b|
  {
    if Complete(b) {
      BufferMessagesFit(Smudge(b[FrameSize(b)..]));
    }
  }

  lemma {:induction false} AcksFit<C>(st: Store<C>, c: C, ms: seq<Msg>, budget: nat)
    requires Good(st) && c in st.refs
    requires forall m | m in ms :: m.Encodable() && |m.payload| <= MAX_PAYLOAD
    ensures forall a | a in HandleAll(st, c, ms, budget).acks :: a.Encodable() && |a.payload| <= MAX_PAYLOAD
    decreases |ms|
  {
    if ms != [] {
      var h := Handle(st, c, ms[0], budget);
      if h.ok {
        AcksFit(h.store, c, ms[1..], h.budget);
      }
    }
  }

  /** Every frame the server emits, acknowledgement or publication, passes the length
      guard of the subscriber, with a cell to spare for the NUL it appends. */
  lemma EmittedFramesPass<C>(
    st: Store<C>, c: C, pending: bytes, chunk: bytes, budget: nat, ip: Addr, port: nat, payload: bytes)
    requires Good(st) && c in st.refs
    requires port < 0x1_0000 && |HeaderText(ip, port)| + |payload| <= MAX_UDP_PAYLOAD
    ensures forall a | a in HandleRecv(st, c, pending, chunk, budget).acks :: Passes(a)
    ensures Passes(Msg(MSG_PUBLISH, HeaderText(ip, port) + payload))
  {
    BufferMessagesFit(pending + chunk);
    AcksFit(st, c, ParseBuffer(pending + chunk).msgs, budget);
  }

  predicate AllPass(ms: seq<Msg>) {
    forall m | m in ms :: Passes(m)
  }

  predicate SendsPass(sends: seq<Sending>) {
    forall x | x in sends :: Passes(x.msg)
  }

  lemma BothPass(a: seq<Sending>, b: seq<Sending>)
    requires SendsPass(a) && SendsPass(b)
    ensures SendsPass(a + b)
  {
  }

  lemma {:induction false} SendAllOnPasses(fd: int, ms: seq<Msg>)
    requires AllPass(ms)
    ensures SendsPass(SendAllOn(fd, ms))
  {
    if ms != [] {
      SendAllOnPasses(fd, ms[1..]);
    }
  }

  lemma {:induction false} AcksPass<C>(s: Session<C>, evs: seq<Event<C>>)
    requires SessionOk(s) && Possible(s, evs)
    ensures SendsPass(AcksOfAll(s, evs))
    decreases |evs|
  {
    if evs != [] {
      var e := evs[0];
      if e.Data? && e.chunk != [] {
        var c := e.client;
        var ms := ParseBuffer(s.info[c].pending + e.chunk).msgs;
        BufferMessagesFit(s.info[c].pending + e.chunk);
        AcksFit(s.store, c, ms, e.budget);
        SendAllOnPasses(s.info[c].fd, HandleAll(s.store, c, ms, e.budget).acks);
      }
      AcksPass(Step(s, e), evs[1..]);
      BothPass(AcksOf(s, e), AcksOfAll(Step(s, e), evs[1..]));
    }
  }

  lemma PublishPasses<C>(s: Session<C>, p: Poll)
    requires SessionOk(s) && PollOk(p)
    ensures SendsPass(PublishSends(s, p))
  {
  }

  /** Every message that the server sends in a run passes the subscriber's length guard. */
  lemma {:induction false} OutputPasses<C>(polls: seq<Poll>, rounds: seq<seq<Event<C>>>)
    requires Tells(polls, rounds) && AllOk(polls)
    ensures SendsPass(Output(polls, rounds))
    decreases |polls|
  {
    if polls != [] {
      var n := |polls| - 1;
      var s := StateAfter(polls[..n], rounds[..n]);
      OutputPasses(polls[..n], rounds[..n]);
      RoundIsPossible(s, polls[n], rounds[n]);
      AcksPass(s, rounds[n]);
      PublishPasses(s, polls[n]);
      BothPass(PublishSends(s, polls[n]), AcksOfAll(s, rounds[n]));
      BothPass(Output(polls[..n], rounds[..n]), PublishSends(s, polls[n]) + AcksOfAll(s, rounds[n]));
    }
  }

  // ------------------------------------------------------------------
  // Reading it

  /** The messages sent on one socket, in order. */
  function SentOn(fd: int, sends: seq<Sending>): seq<Msg> {
    if sends == [] then []
    else (if sends[0].fd == fd then [sends[0].msg] else []) + SentOn(fd, sends[1..])
  }

  lemma {:induction false} SentOnPasses(fd: int, sends: seq<Sending>)
    requires SendsPass(sends)
    ensures AllPass(SentOn(fd, sends))
  {
    if sends != [] {
      SentOnPasses(fd, sends[1..]);
    }
  }

  /** Whatever the server sends on one socket in a run is fit to be written and read. */
  lemma OutputOnSocketPasses<C>(polls: seq<Poll>, rounds: seq<seq<Event<C>>>, fd: int)
    requires Tells(polls, rounds) && AllOk(polls)
    ensures var ms := SentOn(fd, Output(polls, rounds)); AllPass(ms) && AllEncodable(ms)
  {
    OutputPasses(polls, rounds);
    SentOnPasses(fd, Output(polls, rounds));
  }

  predicate AllEncodable(ms: seq<Msg>) {
    forall m | m in ms :: m.Encodable()
  }

  lemma {:induction false} WireSnoc(ms: seq<Msg>, m: Msg)
    requires AllEncodable(ms) && m.Encodable()
    ensures AllEncodable(ms + [m]) && Wire(ms + [m]) == Wire(ms) + Frame(m)
  {
    if ms == [] {
      assert ms + [m] == [m] && [m][1..] == [];
      AppendNothing(Frame(m));
    } else {
      AppendTail(ms, [m]);
      WireSnoc(ms[1..], m);
      AppendAssoc(Frame(ms[0]), Wire(ms[1..]), Frame(m));
    }
  }

  /** A reader that took whole messages off a stream of messages that pass, until it could
      take no more, took all of them. */
  lemma {:induction false} AllRead(ms: seq<Msg>, rest: bytes, sent: seq<Msg>)
    requires AllEncodable(ms) && AllPass(sent) && AllEncodable(sent)
    requires Wire(ms) + rest == Wire(sent) && Verdict(rest) <= 0
    ensures ms == sent && rest == []
    decreases |ms|
  {
    if ms == [] {
      AppendNothing(rest);
      if sent != [] {
        FrontVerdict(sent[0], Wire(sent[1..]));
      }
    } else {
      AppendAssoc(Frame(ms[0]), Wire(ms[1..]), rest);
      if sent != [] {
        FramesAreSelfDelimiting(ms[0], Wire(ms[1..]) + rest, sent[0], Wire(sent[1..]));
        AllRead(ms[1..], rest, sent[1..]);
        HeadTail(ms);
        HeadTail(sent);
      }
    }
  }

  lemma FrontVerdict(m: Msg, more: bytes)
    requires Passes(m)
    ensures Verdict(Frame(m) + more) == 1
  {
    HeaderPeek(Header(m), m.payload);
    assert (Frame(m) + more)[2..][..4] == Frame(m)[2..][..4];
  }

  /** The subscriber's main loop as far as the server is concerned: messages are read until
      reading fails or the server is gone. With working reads, everything that was sent is
      read, in order. */
  method ReadMessages(s: Socket) returns (ms: seq<Msg>, rc: int)
    modifies s`incoming, s`receipts
    ensures rc <= 0 && AllEncodable(ms) && Wire(ms) <= old(s.incoming)
    ensures AllPositive(old(s.receipts)) ==>
      forall sent: seq<Msg> | AllEncodable(sent) && AllPass(sent) && old(s.incoming) == Wire(sent) ::
        ms == sent && rc == 0
  {
    ghost var all, left := s.incoming, s.incoming;
    ghost var works := AllPositive(s.receipts);
    ms, rc := [], 1;
    AppendNothing(all);
    while rc > 0
      invariant AllEncodable(ms) && all == Wire(ms) + left
      invariant rc > 0 ==> left == s.incoming && (works ==> AllPositive(s.receipts))
      invariant rc <= 0 && works ==> rc == Verdict(left)
      decreases if rc > 0 then |left| + 1 else 0
    {
      var m;
      rc, m := ReceiveMessage(s);
      if rc > 0 {
        WireSnoc(ms, m);
        AppendAssoc(Wire(ms), Frame(m), s.incoming);
        ms, left := ms + [m], s.incoming;
      }
    }
    forall sent: seq<Msg> | works && AllEncodable(sent) && AllPass(sent) && all == Wire(sent)
      ensures ms == sent && rc == 0
    {
      AllRead(ms, left, sent);
    }
  }
}
