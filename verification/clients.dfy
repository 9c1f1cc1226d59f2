/** `client_handle_data` on the real buffer: receive, decode, dispatch, compact. */
module Clients {
  import opened Bytes
  import opened Topics
  import opened Patterns
  import opened Index
  import opened Protocol
  import opened Decoder
  import opened Requests
  import opened TopicTrie

  /** The received bytes not yet consumed. */
  ghost function Pending(c: Client): bytes
    requires c.readBufLen <= c.readBuf.Length
    reads c, c.readBuf
  {
    c.readBuf[..c.readBufLen]
  }

  ghost predicate BufferOk(c: Client)
    reads c
  {
    c.readBuf.Length == READ_BUF_SIZE + 1 && c.readBufLen <= READ_BUF_SIZE
  }

  /** What `recv` does to the buffer: the chunk lands behind what is pending. */
  method Receive(c: Client, chunk: bytes, ghost trie: Trie)
    requires trie.Valid() && BufferOk(c) && c.readBufLen + |chunk| <= READ_BUF_SIZE
    modifies c`readBufLen, c.readBuf
    ensures trie.Valid() && BufferOk(c) && Pending(c) == old(Pending(c)) + chunk
  {
    ghost var before := Pending(c);
    var at := c.readBufLen;
    forall i | 0 <= i < |chunk| {
      c.readBuf[at + i] := chunk[i];
    }
    c.readBufLen := at + |chunk|;
    assert c.readBuf[..at] == before;
    assert c.readBuf[at..c.readBufLen] == chunk;
    trie.Undisturbed();
  }

  /** The NUL behind a payload. It lands in the spare cell when the payload fills the
      buffer, and in the next frame when that has begun to arrive. */
  method Terminate(c: Client, end: nat)
    requires BufferOk(c) && end <= c.readBufLen
    modifies c.readBuf
    ensures c.readBuf[..end] == old(c.readBuf[..end]) && c.readBuf[end] == NUL
    ensures c.readBuf[end..c.readBufLen] == Smudge(old(c.readBuf[end..c.readBufLen]))
  {
    c.readBuf[end] := NUL;
  }

  /** The `memmove` that drops the consumed bytes. */
  method Compact(c: Client, off: nat, ghost trie: Trie)
    requires trie.Valid() && BufferOk(c) && off <= c.readBufLen
    modifies c`readBufLen, c.readBuf
    ensures trie.Valid() && BufferOk(c) && Pending(c) == old(c.readBuf[off..c.readBufLen])
  {
    if off > 0 {
      var left := c.readBufLen - off;
      forall i | 0 <= i < left {
        c.readBuf[i] := c.readBuf[off + i];
      }
      c.readBufLen := left;
    }
    trie.Undisturbed();
  }

  /** Reading a C string stops at the NUL, whatever stands behind it. */
  lemma {:induction false} TextBeforeNul(x: bytes, y: bytes)
    requires y != [] && y[0] == NUL
    ensures CString(x + y) == CString(x)
  {
    if x == [] {
      assert x + y == y;
    } else {
      assert (x + y)[1..] == x[1..] + y;
      TextBeforeNul(x[1..], y);
    }
  }

  /** `send_message` on a socket that takes `budget` more sends. */
  method Acknowledge(fd: int, m: Msg, budget: nat) returns (ok: bool, sends: seq<Sending>, left: nat)
    ensures ok <==> budget > 0
    ensures sends == if ok then [Sending(fd, m)] else []
    ensures left == if ok then budget - 1 else 0
  {
    if budget == 0 {
      return false, [], 0;
    }
    return true, [Sending(fd, m)], budget - 1;
  }

  /** The trie call of the dispatch switch. */
  method Serve(trie: Trie, c: Client, typ: nat, text: bytes, ghost m: Msg) returns (ok: bool)
    requires trie.Valid() && c in trie.store.refs && m.typ == typ && text == CString(m.payload)
    modifies trie`at, trie`nodes, trie`store, trie.nodes, c`subscriptions
    ensures trie.Valid()
    ensures ok <==> Accepts(old(trie.store).refs[c], m)
    ensures trie.store == if ok then ApplyTo(old(trie.store), c, m) else old(trie.store)
    ensures trie.AddsNodes()
  {
    ghost var mine := trie.store.refs[c];
    assert ShortEnough(m) <==> |Tokens(text)| <= MAX_SEGMENTS;
    assert Target(m) == TextPath(Tokens(text));
    if typ == MSG_SUBSCRIBE {
      ok := trie.Subscribe(c, text);
      assert ok <==> Accepts(mine, m);
    } else if typ == MSG_UNSUBSCRIBE {
      ok := trie.Unsubscribe(c, text);
      assert ok <==> Accepts(mine, m);
    } else {
      ok := true;
    }
  }

  /** The dispatch switch for one message whose payload reads as `text`. */
  method Dispatch(trie: Trie, c: Client, typ: nat, text: bytes, payload: bytes, budget: nat)
    returns (ok: bool, sends: seq<Sending>, left: nat)
    requires trie.Valid() && c in trie.store.refs && text == CString(payload)
    modifies trie`at, trie`nodes, trie`store, trie.nodes, c`subscriptions
    ensures trie.Valid()
    ensures var h := Handle(old(trie.store), c, Msg(typ, payload), budget);
      trie.store == h.store && ok == h.ok && left == h.budget && sends == SendAllOn(c.fd, h.acks)
    ensures trie.AddsNodes()
  {
    SendNone(c.fd);
    ok := Serve(trie, c, typ, text, Msg(typ, payload));
    sends, left := [], budget;
    if ok && typ == MSG_SUBSCRIBE {
      SendOne(c.fd, Msg(MSG_SUBSCRIBE_ACK, payload));
      ok, sends, left := Acknowledge(c.fd, Msg(MSG_SUBSCRIBE_ACK, payload), budget);
    } else if ok && typ == MSG_UNSUBSCRIBE {
      SendOne(c.fd, Msg(MSG_UNSUBSCRIBE_ACK, payload));
      ok, sends, left := Acknowledge(c.fd, Msg(MSG_UNSUBSCRIBE_ACK, payload), budget);
    }
  }

  /** Reading the frame at `off` out of the buffer, and ending its payload. */
  method TakeFrame(c: Client, off: nat) returns (typ: nat, text: bytes, payload: bytes, next: nat)
    requires BufferOk(c) && off <= c.readBufLen && Complete(c.readBuf[off..c.readBufLen])
    modifies c.readBuf
    ensures var cur := old(c.readBuf[off..c.readBufLen]);
      && Msg(typ, payload) == FirstMsg(cur) && text == CString(payload)
      && next == off + FrameSize(cur) <= c.readBufLen
      && c.readBuf[next..c.readBufLen] == Smudge(cur[FrameSize(cur)..])
  {
    ghost var cur := c.readBuf[off..c.readBufLen];
    HeaderInPlace(c.readBuf[..], off, c.readBufLen);
    var len := U32(c.readBuf[off + 2..]);
    typ := U16(c.readBuf[off..]);
    var start := off + HDR_SIZE;
    next := start + len;
    assert c.readBuf[..next][off..] == cur[..FrameSize(cur)];
    assert c.readBuf[next..c.readBufLen] == cur[FrameSize(cur)..];
    Terminate(c, next);
    text, payload := CString(c.readBuf[start..]), c.readBuf[start..next];
    PayloadText(c.readBuf[..], start, next);
    PayloadInPlace(cur, c.readBuf[..next], off);
  }

  /** One round of the loop: a whole frame starts at `off`. */
  method HandleFrame(trie: Trie, c: Client, off: nat, budget: nat)
    returns (ok: bool, sends: seq<Sending>, left: nat, next: nat)
    requires trie.Valid() && c in trie.store.refs && BufferOk(c)
    requires off <= c.readBufLen && Complete(c.readBuf[off..c.readBufLen])
    modifies trie`at, trie`nodes, trie`store, trie.nodes, c`subscriptions, c.readBuf
    ensures trie.Valid() && next <= c.readBufLen
    ensures var cur := old(c.readBuf[off..c.readBufLen]);
      var h := Handle(old(trie.store), c, FirstMsg(cur), budget);
      && trie.store == h.store && ok == h.ok && left == h.budget && sends == SendAllOn(c.fd, h.acks)
      && next == off + FrameSize(cur) && c.readBuf[next..c.readBufLen] == Smudge(cur[FrameSize(cur)..])
    ensures trie.AddsNodes()
  {
    var typ, text, payload;
    typ, text, payload, next := TakeFrame(c, off);
    trie.Undisturbed();
    ok, sends, left := Dispatch(trie, c, typ, text, payload, budget);
  }

  lemma HeaderInPlace(a: bytes, off: nat, end: nat)
    requires off <= end <= |a| && Complete(a[off..end])
    ensures U16(a[off..]) == U16(a[off..end]) && U32(a[off + 2..]) == PayloadLength(a[off..end])
  {
    var cur := a[off..end];
    assert a[off..][..2] == cur[..2] && a[off + 2..][..4] == cur[2..][..4];
  }

  lemma PayloadText(a: bytes, start: nat, next: nat)
    requires start <= next < |a| && a[next] == NUL
    ensures CString(a[start..]) == CString(a[start..next])
  {
    assert a[start..] == a[start..next] + a[next..];
    TextBeforeNul(a[start..next], a[next..]);
  }

  lemma PayloadInPlace(cur: bytes, front: bytes, off: nat)
    requires Complete(cur) && |front| == off + FrameSize(cur) && front[off..] == cur[..FrameSize(cur)]
    ensures front[off + HDR_SIZE..] == FirstMsg(cur).payload
  {
    assert front[off..][HDR_SIZE..] == cur[..FrameSize(cur)][HDR_SIZE..];
  }

  lemma HeaderAt(a: bytes, off: nat, end: nat)
    requires off <= end <= |a| && end - off >= HDR_SIZE
    ensures HasHeader(a[off..end]) && U32(a[off + 2..]) == PayloadLength(a[off..end])
  {
    assert a[off + 2..][..4] == a[off..end][2..][..4];
  }

  /** How a round of the decoding loop ends: with the next frame to look at, waiting for
      more bytes, or with the client to be dropped. */
  datatype Status = Next | Wait | Gone

  /** What the loop still has to do: `cur` is what stands in the buffer from `off` on,
      `todo` what handling it comes to, and `tail` what it leaves over. */
  ghost predicate Due(trie: Trie, c: Client, off: nat, left: nat, todo: Outcome<Client>, tail: bytes)
    reads trie, c, c.readBuf
    requires Good(trie.store)
  {
    && c in trie.store.refs && off <= c.readBufLen <= c.readBuf.Length
    && todo == HandleBuffer(trie.store, c, c.readBuf[off..c.readBufLen], left)
    && tail == ParseBuffer(c.readBuf[off..c.readBufLen]).rest
  }

  /** Where a round leaves the loop: with more to do, with the leftover in place, or with a
      client to drop. */
  ghost predicate Reached(
    trie: Trie, c: Client, off: nat, left: nat, status: Status, todo: Outcome<Client>, tail: bytes)
    reads trie, trie.nodes, trie.store.refs.Keys`subscriptions, c, c.readBuf
  {
    && trie.Valid() && off <= c.readBufLen <= c.readBuf.Length
    && (status == Next ==> Due(trie, c, off, left, todo, tail))
    && (status != Next ==> todo == Outcome(trie.store, [], status == Wait, left))
    && (status == Wait ==> c.readBuf[off..c.readBufLen] == tail)
  }

  lemma NothingDue(trie: Trie, c: Client, off: nat, left: nat, todo: Outcome<Client>, tail: bytes)
    requires Good(trie.store) && Due(trie, c, off, left, todo, tail) && c.readBufLen - off < HDR_SIZE
    ensures todo == Outcome(trie.store, [], true, left) && tail == c.readBuf[off..c.readBufLen]
  {
    var cur := c.readBuf[off..c.readBufLen];
    assert |cur| < HDR_SIZE;
    NoFrameFirst(trie.store, c, cur, left);
  }

  /** A round of the loop, at `off`, with a header's worth of bytes there. */
  method Round(trie: Trie, c: Client, off: nat, budget: nat, ghost todo: Outcome<Client>, ghost tail: bytes)
    returns (status: Status, sends: seq<Sending>, left: nat, next: nat,
             ghost acks: seq<Msg>, ghost later: Outcome<Client>)
    requires trie.Valid() && Due(trie, c, off, budget, todo, tail) && BufferOk(c) && off + HDR_SIZE <= c.readBufLen
    modifies trie`at, trie`nodes, trie`store, trie.nodes, c`subscriptions, c.readBuf
    ensures off <= next && (status == Next ==> off < next)
    ensures Reached(trie, c, next, left, status, later, tail)
    ensures sends == SendAllOn(c.fd, acks) && todo == Prepend(acks, later)
    ensures trie.AddsNodes()
  {
    ghost var cur, st := c.readBuf[off..c.readBufLen], trie.store;
    HeaderAt(c.readBuf[..], off, c.readBufLen);
    SendNone(c.fd);
    AppendNothing<Msg>([]);
    var len := U32(c.readBuf[off + 2..]);
    if len > READ_BUF_SIZE - HDR_SIZE || c.readBufLen - off < HDR_SIZE + len {
      NoFrameFirst(st, c, cur, budget);
      status := if len > READ_BUF_SIZE - HDR_SIZE then Gone else Wait;
      return status, [], budget, off, [], todo;
    }
    FrameFirst(st, c, cur, budget);
    ghost var h := Handle(st, c, FirstMsg(cur), budget);
    acks := h.acks;
    var ok;
    ok, sends, left, next := HandleFrame(trie, c, off, budget);
    status := if ok then Next else Gone;
    later := if ok then HandleBuffer(trie.store, c, c.readBuf[next..c.readBufLen], left)
             else Outcome(trie.store, [], false, left);
    AppendNothing(acks);
  }

  /** Acknowledgements of earlier rounds and of this one. */
  lemma Combine(fd: int, goal: Outcome<Client>, acks: seq<Msg>, extra: seq<Msg>, rest: Outcome<Client>)
    requires goal == Prepend(acks, Prepend(extra, rest))
    ensures goal == Prepend(acks + extra, rest)
    ensures SendAllOn(fd, acks) + SendAllOn(fd, extra) == SendAllOn(fd, acks + extra)
  {
    SendAllOnAppend(fd, acks, extra);
    PrependTwice(acks, extra, rest);
  }

  /** The decoding loop over the received bytes. `off` is where it stopped. */
  method DecodeLoop(trie: Trie, c: Client, budget: nat)
    returns (status: Status, sends: seq<Sending>, off: nat, left: nat,
             ghost acks: seq<Msg>, ghost todo: Outcome<Client>)
    requires trie.Valid() && c in trie.store.refs && BufferOk(c)
    modifies trie`at, trie`nodes, trie`store, trie.nodes, c`subscriptions, c.readBuf
    ensures Reached(trie, c, off, left, status, todo, ParseBuffer(old(Pending(c))).rest) && trie.AddsNodes()
    ensures status == Next ==> c.readBufLen - off < HDR_SIZE
    ensures HandleBuffer(old(trie.store), c, old(Pending(c)), budget) == Prepend(acks, todo)
    ensures sends == SendAllOn(c.fd, acks)
  {
    ghost var tail := ParseBuffer(Pending(c)).rest;
    ghost var goal := HandleBuffer(trie.store, c, Pending(c), budget);
    acks, todo, left, status, sends, off := [], goal, budget, Next, [], 0;
    AppendNothing(goal.acks);
    while status == Next && c.readBufLen - off >= HDR_SIZE
      invariant 0 <= off && 0 <= left && Reached(trie, c, off, left, status, todo, tail) && trie.AddsNodes()
      invariant goal == Prepend(acks, todo) && sends == SendAllOn(c.fd, acks)
      decreases c.readBufLen - off + if status == Next then 1 else 0
    {
      var more;
      ghost var extra;
      status, more, left, off, extra, todo := Round(trie, c, off, left, todo, tail);
      Combine(c.fd, goal, acks, extra, todo);
      sends, acks := sends + more, acks + extra;
    }
  }

  /** Decoding the whole buffer; `ok` says that it stopped for want of bytes and not
      because the client has to go. */
  method Decode(trie: Trie, c: Client, budget: nat) returns (ok: bool, sends: seq<Sending>, off: nat)
    requires trie.Valid() && c in trie.store.refs && BufferOk(c)
    modifies trie`at, trie`nodes, trie`store, trie.nodes, c`subscriptions, c.readBuf
    ensures trie.Valid() && off <= c.readBufLen
    ensures var h := HandleBuffer(old(trie.store), c, old(Pending(c)), budget);
      trie.store == h.store && ok == h.ok && sends == SendAllOn(c.fd, h.acks)
    ensures ok ==> c.readBuf[off..c.readBufLen] == ParseBuffer(old(Pending(c))).rest
    ensures trie.AddsNodes()
  {
    ghost var tail := ParseBuffer(Pending(c)).rest;
    var status, left;
    ghost var acks, todo;
    status, sends, off, left, acks, todo := DecodeLoop(trie, c, budget);
    if status == Next {
      NothingDue(trie, c, off, left, todo, tail);
    }
    AppendNothing(acks);
    ok := status != Gone;
  }

  /** The call from the loop on: decode, then drop what was consumed. */
  method Digest(trie: Trie, c: Client, budget: nat) returns (ok: bool, sends: seq<Sending>)
    requires trie.Valid() && c in trie.store.refs && BufferOk(c)
    modifies trie`at, trie`nodes, trie`store, trie.nodes, c`subscriptions, c`readBufLen, c.readBuf
    ensures trie.Valid() && trie.AddsNodes() && BufferOk(c)
    ensures var h := HandleBuffer(old(trie.store), c, old(Pending(c)), budget);
      trie.store == h.store && ok == h.ok && sends == SendAllOn(c.fd, h.acks)
    ensures ok ==> Pending(c) == ParseBuffer(old(Pending(c))).rest
  {
    var off;
    ok, sends, off := Decode(trie, c, budget);
    if ok {
      Compact(c, off, trie);
    }
  }

  /** `client_handle_data`: `chunk` is what `recv` returned, empty when it failed or the
      peer was gone. */
  method HandleData(trie: Trie, c: Client, chunk: bytes, budget: nat) returns (ok: bool, sends: seq<Sending>)
    requires trie.Valid() && c in trie.store.refs && BufferOk(c) && c.readBufLen + |chunk| <= READ_BUF_SIZE
    modifies trie`at, trie`nodes, trie`store, trie.nodes, c`subscriptions, c`readBufLen, c.readBuf
    ensures trie.Valid() && trie.AddsNodes() && BufferOk(c)
    ensures var h := HandleRecv(old(trie.store), c, old(Pending(c)), chunk, budget);
      && trie.store == h.store && ok == h.ok && sends == SendAllOn(c.fd, h.acks)
      && (ok ==> Pending(c) == ParseBuffer(old(Pending(c)) + chunk).rest && c.readBufLen < READ_BUF_SIZE)
  {
    if chunk == [] {
      SendNone(c.fd);
      return false, [];
    }
    LeftoverFits(Pending(c) + chunk);
    Receive(c, chunk, trie);
    ok, sends := Digest(trie, c, budget);
    assert |Pending(c)| == c.readBufLen;
  }
}
