/** Framing on a stream socket: `send_all`, `send_message`, and the subscriber's
    `recv_all` and message reader. The operating system's partial writes and reads
    are scripts held by the socket. */
module Protocol {
  import opened Bytes

  const MSG_SUBSCRIBE: nat := 1
  const MSG_UNSUBSCRIBE: nat := 2
  const MSG_PUBLISH: nat := 3
  const MSG_SUBSCRIBE_ACK: nat := 4
  const MSG_UNSUBSCRIBE_ACK: nat := 5

  const MAX_TOPIC_LEN: nat := 50
  const HDR_SIZE: nat := 6
  const READ_BUF_SIZE: nat := 2048

  /** One framed message. */
  datatype Msg = Msg(typ: nat, payload: bytes) {
    predicate Encodable() {
      typ < 0x1_0000 && |payload| < 0x1_0000_0000
    }
  }

  /** One call of `send_message`: the socket it was made on and what it was to carry. */
  datatype Sending = Sending(fd: int, msg: Msg)

  /** The frames of `ms`, sent on one socket. */
  function SendAllOn(fd: int, ms: seq<Msg>): seq<Sending> {
    if ms == [] then [] else [Sending(fd, ms[0])] + SendAllOn(fd, ms[1..])
  }

  lemma {:induction false} SendAllOnAppend(fd: int, a: seq<Msg>, b: seq<Msg>)
    ensures SendAllOn(fd, a + b) == SendAllOn(fd, a) + SendAllOn(fd, b)
    decreases |a|
  {
    if a == [] {
      AppendNothing(b);
    } else {
      AppendTail(a, b);
      SendAllOnAppend(fd, a[1..], b);
    }
  }

  lemma SendNone(fd: int)
    ensures SendAllOn(fd, []) == []
  {
  }

  lemma SendOne(fd: int, m: Msg)
    ensures SendAllOn(fd, [m]) == [Sending(fd, m)]
  {
    assert [m][1..] == [];
  }

  /** The packed `MsgHeader`: type and payload length in network order. */
  function Header(m: Msg): (h: bytes)
    requires m.Encodable()
    ensures |h| == HDR_SIZE && U16(h) == m.typ && U32(h[2..]) == |m.payload|
  {
    var h := Put16(m.typ) + Put32(|m.payload|);
    assert h[2..] == Put32(|m.payload|);
    h
  }

  /** The six bytes of a header, in network order: they are the digits, to base 256 and the
      highest first, of the type and of the payload length. */
  lemma HeaderByPosition(m: Msg)
    requires m.Encodable()
    ensures var h := Header(m);
      && |h| == 6 && h[0] as nat * 256 + h[1] as nat == m.typ
      && h[2] as nat * 0x100_0000 + h[3] as nat * 0x1_0000 + h[4] as nat * 256 + h[5] as nat == |m.payload|
  {
    var h := Header(m);
    assert h[2..][0] == h[2] && h[2..][1] == h[3] && h[2..][2..][0] == h[4] && h[2..][2..][1] == h[5];
  }

  /** What `send_message` puts on the wire. */
  function Frame(m: Msg): (b: bytes)
    requires m.Encodable()
    ensures |b| == HDR_SIZE + |m.payload| && U16(b) == m.typ && U32(b[2..]) == |m.payload|
    ensures b[..HDR_SIZE] == Header(m) && b[HDR_SIZE..] == m.payload
  {
    HeaderPeek(Header(m), m.payload);
    Header(m) + m.payload
  }

  /** The numbers in a header can be read off the stream it starts. */
  lemma HeaderPeek(hdr: bytes, body: bytes)
    requires |hdr| == HDR_SIZE
    ensures U16(hdr + body) == U16(hdr) && U32((hdr + body)[2..]) == U32(hdr[2..])
  {
    assert (hdr + body)[2..][..4] == hdr[2..][..4];
  }

  /** No frame is a proper prefix of another, so a stream splits in one way only. */
  lemma FramesAreSelfDelimiting(m: Msg, rest: bytes, n: Msg, rest': bytes)
    requires m.Encodable() && n.Encodable() && Frame(m) + rest == Frame(n) + rest'
    ensures m == n && rest == rest'
  {
    var s := Frame(m) + rest;
    assert s[..HDR_SIZE] == Header(m) == Header(n);
    assert |m.payload| == |n.payload|;
    assert s[..|Frame(m)|] == Frame(m) == Frame(n);
    assert s[|Frame(m)|..] == rest == rest';
  }

  /** A connected socket. `writes` and `receipts` script what the next calls to `send` and
      `recv` do: a positive number bounds the bytes moved, anything else is a failure.
      Past the end of its script a call moves all it can. `recv` on an empty
      `incoming` finds the peer gone. */
  class Socket {
    var sent: bytes
    var incoming: bytes
    var writes: seq<int>
    var receipts: seq<int>

    /** `send` */
    method Send(p: bytes) returns (w: int)
      requires p != []
      modifies this`sent, this`writes
      ensures w <= |p| && (w > 0 ==> sent == old(sent) + p[..w]) && (w <= 0 ==> sent == old(sent))
      ensures writes == if old(writes) == [] then [] else old(writes)[1..]
      ensures AllPositive(old(writes)) ==> w > 0 && AllPositive(writes)
    {
      w := |p|;
      if writes != [] {
        w := if writes[0] < |p| then writes[0] else |p|;
        writes := writes[1..];
      }
      if w > 0 {
        sent := sent + p[..w];
      }
    }

    /** `recv` */
    method Recv(max: nat) returns (r: int, chunk: bytes)
      requires max > 0
      modifies this`incoming, this`receipts
      ensures r > 0 ==> |chunk| == r <= max && old(incoming) == chunk + incoming
      ensures r <= 0 ==> chunk == [] && incoming == old(incoming)
      ensures receipts == if old(receipts) == [] then [] else old(receipts)[1..]
      ensures r == 0 ==> incoming == []
      ensures AllPositive(old(receipts)) ==> r >= 0 && AllPositive(receipts)
      ensures old(incoming) == [] ==> r == 0
    {
      var limit := if receipts == [] then max else receipts[0];
      if receipts != [] {
        receipts := receipts[1..];
      }
      if incoming == [] {
        return 0, [];
      }
      if limit <= 0 {
        return -1, [];
      }
      r := if limit < max then limit else max;
      r := if r < |incoming| then r else |incoming|;
      chunk := incoming[..r];
      incoming := incoming[r..];
    }
  }

  predicate AllPositive(s: seq<int>) {
    forall i | 0 <= i < |s| :: s[i] > 0
  }

  /** `send_all`: everything goes out in order, or a proper prefix did when `send` failed. */
  method SendAll(s: Socket, buf: bytes) returns (ok: bool)
    modifies s`sent, s`writes
    ensures ok ==> s.sent == old(s.sent) + buf
    ensures !ok ==> exists k | 0 <= k < |buf| :: s.sent == old(s.sent) + buf[..k]
    ensures AllPositive(old(s.writes)) ==> ok && AllPositive(s.writes)
  {
    var p := 0;
    while p < |buf|
      invariant 0 <= p <= |buf|
      invariant s.sent == old(s.sent) + buf[..p]
      invariant AllPositive(old(s.writes)) ==> AllPositive(s.writes)
    {
      var w := s.Send(buf[p..]);
      if w <= 0 {
        return false;
      }
      assert buf[..p] + buf[p..][..w] == buf[..p + w];
      p := p + w;
    }
    assert buf[..p] == buf;
    ok := true;
  }

  /** `send_message` */
  method SendMessage(s: Socket, m: Msg) returns (ok: bool)
    requires m.Encodable()
    modifies s`sent, s`writes
    ensures ok ==> s.sent == old(s.sent) + Frame(m)
    ensures !ok ==> exists k | 0 <= k < |Frame(m)| :: s.sent == old(s.sent) + Frame(m)[..k]
    ensures AllPositive(old(s.writes)) ==> ok && AllPositive(s.writes)
  {
    var hdr := Header(m);
    ok := SendAll(s, hdr);
    if !ok {
      PrefixOfFrame(m, old(s.sent), s.sent);
      return;
    }
    if |m.payload| > 0 {
      ok := SendAll(s, m.payload);
      PrefixOfFrame(m, old(s.sent), s.sent);
    }
  }

  /** Stopping inside the header or inside the payload leaves a proper prefix of the frame. */
  lemma PrefixOfFrame(m: Msg, before: bytes, after: bytes)
    requires m.Encodable()
    ensures (exists k | 0 <= k < HDR_SIZE :: after == before + Header(m)[..k])
         || (exists k | 0 <= k < |m.payload| :: after == before + Header(m) + m.payload[..k])
        ==> exists k | 0 <= k < |Frame(m)| :: after == before + Frame(m)[..k]
    ensures after == before + Header(m) + m.payload ==> after == before + Frame(m)
  {
    var h, f := Header(m), Frame(m);
    if k :| 0 <= k < HDR_SIZE && after == before + h[..k] {
      assert h[..k] == f[..k];
    }
    if k :| 0 <= k < |m.payload| && after == before + h + m.payload[..k] {
      assert h + m.payload[..k] == f[..HDR_SIZE + k];
      assert after == before + f[..HDR_SIZE + k];
    }
  }

  /** `recv_all`: `len` bytes however they trickle in, 0 when the peer is gone first,
      negative when `recv` fails. */
  method RecvAll(s: Socket, len: nat) returns (r: int, buf: bytes)
    modifies s`incoming, s`receipts
    ensures r == len ==> |buf| == len && old(s.incoming) == buf + s.incoming
    ensures r < 0 || r == 0 || r == len
    ensures AllPositive(old(s.receipts)) ==> AllPositive(s.receipts)
    ensures AllPositive(old(s.receipts)) ==> r == if len <= |old(s.incoming)| then len else 0
  {
    buf := [];
    while |buf| < len
      invariant |buf| <= len && old(s.incoming) == buf + s.incoming
      invariant AllPositive(old(s.receipts)) ==> AllPositive(s.receipts)
      decreases len - |buf|
    {
      ghost var before := s.incoming;
      var k, chunk := s.Recv(len - |buf|);
      if k < 0 {
        return -1, buf;
      }
      if k == 0 {
        return 0, buf;
      }
      assert buf + (chunk + s.incoming) == (buf + chunk) + s.incoming;
      buf := buf + chunk;
    }
    r := len;
  }

  /** What a reader with working reads makes of the front of a stream: a whole message
      (1), nothing left to read (0), or a length that is too large or not met (-1). */
  function Verdict(stream: bytes): int {
    if |stream| < 6 then 0
    else
      var length := U32(stream[2..]);
      if length > 2048 || |stream| < 6 + length then -1 else 1
  }

  /** The framing part of `handle_received_data`: 1 with a message, 0 when the server is
      gone before a header is complete, -1 on failure or an oversized length. */
  method ReceiveMessage(s: Socket) returns (rc: int, m: Msg)
    modifies s`incoming, s`receipts
    ensures -1 <= rc <= 1
    ensures rc == 1 ==> m.Encodable() && |m.payload| <= 2048 && old(s.incoming) == Frame(m) + s.incoming
    ensures forall n: Msg, rest: bytes |
      n.Encodable() && old(s.incoming) == Frame(n) + rest && AllPositive(old(s.receipts)) ::
        if |n.payload| <= 2048 then rc == 1 && m == n && s.incoming == rest && AllPositive(s.receipts)
        else rc == -1
    ensures AllPositive(old(s.receipts)) ==> rc == Verdict(old(s.incoming))
  {
    m := Msg(0, []);
    ghost var all := s.incoming;
    var r, hdr := RecvAll(s, HDR_SIZE);
    if r <= 0 {
      rc := if r == 0 then 0 else -1;
      return;
    }
    ghost var body := s.incoming;
    var typ, length := U16(hdr), U32(hdr[2..]);
    HeaderOfFrame(all, hdr, body);
    HeaderPeek(hdr, body);
    if length > READ_BUF_SIZE {
      return -1, m;
    }
    var got, payload := RecvAll(s, length);
    if got != length {
      return -1, m;
    }
    m := Msg(typ, payload);
    FrameOfParts(hdr, m);
    assert all == hdr + (payload + s.incoming) == (hdr + payload) + s.incoming;
    ghost var rest := s.incoming;
    forall n: Msg, rest': bytes | n.Encodable() && all == Frame(n) + rest'
      ensures m == n && rest == rest'
    {
      FramesAreSelfDelimiting(m, rest, n, rest');
    }
    rc := 1;
  }

  lemma FrameOfParts(hdr: bytes, m: Msg)
    requires |hdr| == HDR_SIZE && U16(hdr) == m.typ && U32(hdr[2..]) == |m.payload|
    ensures m.Encodable() && Frame(m) == hdr + m.payload
  {
    var h := Header(m);
    U16Injective(hdr, h);
    U32Injective(hdr[2..], h[2..]);
    assert hdr == hdr[..2] + hdr[2..] && h == h[..2] + h[2..];
  }

  lemma U16Injective(a: bytes, b: bytes)
    requires |a| >= 2 && |b| >= 2 && U16(a) == U16(b)
    ensures a[..2] == b[..2]
  {
    assert a[1] as int == U16(a) % 0x100 && b[1] as int == U16(b) % 0x100;
  }

  lemma U32Injective(a: bytes, b: bytes)
    requires |a| == 4 && |b| == 4 && U32(a) == U32(b)
    ensures a == b
  {
    U16Injective(a, b);
    U16Injective(a[2..], b[2..]);
    assert a == a[..2] + a[2..][..2] && b == b[..2] + b[2..][..2];
  }

  /** The six bytes in front of a frame's payload tell its length. */
  lemma HeaderOfFrame(all: bytes, hdr: bytes, body: bytes)
    requires |hdr| == HDR_SIZE && all == hdr + body
    ensures forall n: Msg, rest: bytes | n.Encodable() && all == Frame(n) + rest ::
      U16(hdr) == n.typ && U32(hdr[2..]) == |n.payload| && body == n.payload + rest
  {
    forall n: Msg, rest: bytes | n.Encodable() && all == Frame(n) + rest
      ensures U16(hdr) == n.typ && U32(hdr[2..]) == |n.payload| && body == n.payload + rest
    {
      assert hdr == all[..HDR_SIZE] == Header(n);
      assert body == all[HDR_SIZE..] == Frame(n)[HDR_SIZE..] + rest;
    }
  }
}
