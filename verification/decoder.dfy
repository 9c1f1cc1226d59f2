/** The incremental frame decoder of `client_handle_data`, as a function of the bytes
    in the read buffer, and how its answer depends on the way the bytes were cut into
    chunks by the network. */
module Decoder {
  import opened Bytes
  import opened Protocol

  const MAX_PAYLOAD: nat := READ_BUF_SIZE - HDR_SIZE

  /** What one pass over a buffer yields: the messages in it, the bytes left over, and
      whether it stopped at a length that cannot fit. */
  datatype Scan = Scan(msgs: seq<Msg>, rest: bytes, bogus: bool)

  predicate HasHeader(b: bytes) {
    |b| >= HDR_SIZE
  }

  function PayloadLength(b: bytes): nat
    requires HasHeader(b)
  {
    U32(b[2..])
  }

  predicate Bogus(b: bytes) {
    HasHeader(b) && PayloadLength(b) > MAX_PAYLOAD
  }

  /** A whole frame of acceptable length is at the front of `b`. */
  predicate Complete(b: bytes) {
    HasHeader(b) && PayloadLength(b) <= MAX_PAYLOAD && HDR_SIZE + PayloadLength(b) <= |b|
  }

  function FrameSize(b: bytes): (n: nat)
    requires Complete(b)
    ensures HDR_SIZE <= n <= READ_BUF_SIZE && n <= |b|
  {
    HDR_SIZE + PayloadLength(b)
  }

  function FirstMsg(b: bytes): Msg
    requires Complete(b)
  {
    Msg(U16(b), b[HDR_SIZE..FrameSize(b)])
  }

  /** The decoder's view of a buffer, byte by byte: type and length in network order, then
      the payload; a length above 2042 is bogus. */
  lemma FrameByPosition(b: bytes)
    ensures |b| < 6 ==> !Complete(b) && !Bogus(b)
    ensures |b| >= 6 ==>
      var t, n := b[0] as nat * 256 + b[1] as nat,
                  b[2] as nat * 0x100_0000 + b[3] as nat * 0x1_0000 + b[4] as nat * 256 + b[5] as nat;
      && (Bogus(b) <==> n > 2042)
      && (Complete(b) <==> n <= 2042 && 6 + n <= |b|)
      && (Complete(b) ==> FrameSize(b) == 6 + n && FirstMsg(b) == Msg(t, b[6..6 + n]))
  {
    if |b| >= 6 {
      assert b[2..][0] == b[2] && b[2..][1] == b[3] && b[2..][2..][0] == b[4] && b[2..][2..][1] == b[5];
    }
  }

  /** The NUL that ends a payload overwrites the byte behind it, if that has arrived. */
  function Smudge(b: bytes): (s: bytes)
    ensures |s| == |b|
  {
    if b == [] then [] else [NUL] + b[1..]
  }

  /** What the loop of `client_handle_data` makes of a buffer. */
  function ParseBuffer(b: bytes): Scan
    decreases |b|
  {
    if Complete(b) then
      var s := ParseBuffer(Smudge(b[FrameSize(b)..]));
      Scan([FirstMsg(b)] + s.msgs, s.rest, s.bogus)
    else Scan([], b, Bogus(b))
  }

  /** The messages the sender meant: the same without the stray NULs. */
  function ParseWire(b: bytes): Scan
    decreases |b|
  {
    if Complete(b) then
      var s := ParseWire(b[FrameSize(b)..]);
      Scan([FirstMsg(b)] + s.msgs, s.rest, s.bogus)
    else Scan([], b, Bogus(b))
  }

  // ------------------------------------------------------------------
  // Never wedged

  /** Unless the client is dropped, what is left over is an incomplete frame, and it
      leaves room for the next `recv`. */
  lemma {:induction false} LeftoverFits(b: bytes)
    ensures !ParseBuffer(b).bogus ==>
            !Complete(ParseBuffer(b).rest) && !Bogus(ParseBuffer(b).rest) && |ParseBuffer(b).rest| < READ_BUF_SIZE
    ensures |ParseBuffer(b).rest| <= |b|
    decreases |b|
  {
    if Complete(b) {
      LeftoverFits(Smudge(b[FrameSize(b)..]));
    }
  }

  // ------------------------------------------------------------------
  // Round trip with the encoder

  function Wire(ms: seq<Msg>): bytes
    requires forall m | m in ms :: m.Encodable()
  {
    if ms == [] then [] else Frame(ms[0]) + Wire(ms[1..])
  }

  lemma FrontFrame(m: Msg, rest: bytes)
    requires m.Encodable() && |m.payload| <= MAX_PAYLOAD
    ensures var b := Frame(m) + rest;
      Complete(b) && FirstMsg(b) == m && FrameSize(b) == |Frame(m)| && b[FrameSize(b)..] == rest
  {
    var b := Frame(m) + rest;
    assert b[..HDR_SIZE] == Header(m);
    assert b[2..][..4] == Header(m)[2..];
    assert b[HDR_SIZE..HDR_SIZE + |m.payload|] == m.payload;
  }

  /** Decoding what the encoder wrote gives the messages back, with nothing left over. */
  lemma {:induction false} WireRoundTrip(ms: seq<Msg>)
    requires forall m | m in ms :: m.Encodable() && |m.payload| <= MAX_PAYLOAD
    ensures ParseWire(Wire(ms)) == Scan(ms, [], false)
  {
    if ms != [] {
      FrontFrame(ms[0], Wire(ms[1..]));
      WireRoundTrip(ms[1..]);
      HeadTail(ms);
    }
  }

  // ------------------------------------------------------------------
  // Chunks

  /** Successive `recv` results, starting with `pending` in the buffer. */
  function Feed(pending: bytes, chunks: seq<bytes>): Scan
    decreases |chunks|
  {
    if chunks == [] then Scan([], pending, false)
    else
      var s := ParseBuffer(pending + chunks[0]);
      if s.bogus then s
      else
        Then(s, Feed(s.rest, chunks[1..]))
  }

  /** Every chunk is something `recv` can return: non-empty, and within the free space. */
  predicate Admissible(pending: bytes, chunks: seq<bytes>)
    decreases |chunks|
  {
    chunks == [] ||
    (chunks[0] != [] && |pending| + |chunks[0]| <= READ_BUF_SIZE &&
     var s := ParseBuffer(pending + chunks[0]);
     s.bogus || Admissible(s.rest, chunks[1..]))
  }

  /** After a frame of `prev` bytes, every whole frame has a type below 256, unless the
      frame in front of it fills the buffer all by itself. */
  predicate SafeAfter(b: bytes, prev: nat)
    decreases |b|
  {
    Complete(b) ==>
      (prev == READ_BUF_SIZE || U16(b) < 0x100) && SafeAfter(b[FrameSize(b)..], FrameSize(b))
  }

  /** Nothing stands in front of the first frame, which comes to the same as standing
      behind a frame that fills the buffer. */
  predicate Safe(b: bytes) {
    SafeAfter(b, READ_BUF_SIZE)
  }

  lemma SmudgeKeepsLength(b: bytes)
    ensures Complete(Smudge(b)) == Complete(b) && Bogus(Smudge(b)) == Bogus(b)
    ensures Complete(b) ==> FrameSize(Smudge(b)) == FrameSize(b) && Smudge(b)[FrameSize(b)..] == b[FrameSize(b)..]
    ensures Complete(b) ==> FirstMsg(Smudge(b)) == FirstMsg(b).(typ := b[1] as nat)
  {
    if HasHeader(b) {
      assert Smudge(b)[2..] == b[2..];
      if Complete(b) {
        assert Smudge(b)[HDR_SIZE..FrameSize(b)] == b[HDR_SIZE..FrameSize(b)];
      }
    }
  }

  lemma CompleteExtends(y: bytes, z: bytes)
    requires HasHeader(y)
    ensures PayloadLength(y + z) == PayloadLength(y) && U16(y + z) == U16(y)
    ensures Bogus(y + z) == Bogus(y)
    ensures Complete(y) ==> Complete(y + z) && FrameSize(y + z) == FrameSize(y) && FirstMsg(y + z) == FirstMsg(y)
    ensures Complete(y) ==> (y + z)[FrameSize(y)..] == y[FrameSize(y)..] + z
  {
    assert (y + z)[2..][..4] == y[2..][..4];
    if Complete(y) {
      assert (y + z)[HDR_SIZE..FrameSize(y)] == y[HDR_SIZE..FrameSize(y)];
    }
  }

  /** Two scans one after the other. */
  function Then(s: Scan, t: Scan): Scan {
    if s.bogus then s else Scan(s.msgs + t.msgs, t.rest, t.bogus)
  }

  lemma ThenCons(m: Msg, s: Scan, t: Scan)
    ensures Then(Scan([m] + s.msgs, s.rest, s.bogus), t)
         == Scan([m] + Then(s, t).msgs, Then(s, t).rest, Then(s, t).bogus)
  {
    assert [m] + (s.msgs + t.msgs) == ([m] + s.msgs) + t.msgs;
  }

  predicate SameMessages(s: Scan, t: Scan) {
    s.msgs == t.msgs && s.bogus == t.bogus
  }

  /** The sender's messages do not depend on where the stream is cut. */
  lemma {:induction false} WireAppend(y: bytes, z: bytes)
    ensures SameMessages(ParseWire(y + z), Then(ParseWire(y), ParseWire(ParseWire(y).rest + z)))
    decreases |y|
  {
    if HasHeader(y) {
      CompleteExtends(y, z);
    }
    if Complete(y) {
      var t := y[FrameSize(y)..];
      WireAppend(t, z);
      ThenCons(FirstMsg(y), ParseWire(t), ParseWire(ParseWire(t).rest + z));
    }
  }

  /** Length of the last frame taken from `b`, or `prev` if there was none. */
  function LastSize(b: bytes, prev: nat): nat
    decreases |b|
  {
    if Complete(b) then LastSize(b[FrameSize(b)..], FrameSize(b)) else prev
  }

  lemma {:induction false} SafeSuffix(y: bytes, z: bytes, prev: nat)
    requires SafeAfter(y + z, prev) && !ParseWire(y).bogus
    ensures SafeAfter(ParseWire(y).rest + z, LastSize(y, prev))
    ensures |ParseWire(y).msgs| > 0 ==> LastSize(y, prev) + |ParseWire(y).rest| <= |y|
    decreases |y|
  {
    if Complete(y) {
      CompleteExtends(y, z);
      SafeSuffix(y[FrameSize(y)..], z, FrameSize(y));
    }
  }

  /** One buffer: under `SafeAfter` the stray NULs change nothing but, perhaps, the first
      byte of what is left over. */
  lemma {:induction false} BufferAgainstWire(y: bytes, z: bytes, prev: nat, smudged: bool)
    requires SafeAfter(y + z, prev)
    requires smudged ==> prev < READ_BUF_SIZE
    requires |y| <= READ_BUF_SIZE
    ensures var b, w := ParseBuffer(if smudged then Smudge(y) else y), ParseWire(y);
      && b.msgs == w.msgs && b.bogus == w.bogus
      && b.rest == if smudged || w.msgs != [] then Smudge(w.rest) else w.rest
    decreases |y|
  {
    SmudgeKeepsLength(y);
    if Complete(y) {
      CompleteExtends(y, z);
      var n := FrameSize(y);
      if n == READ_BUF_SIZE {
        assert y[n..] == [];
      } else {
        BufferAgainstWire(y[n..], z, n, true);
      }
    }
  }

  /** What is in the read buffer when `w` is what the sender put there. */
  function Held(w: bytes, smudged: bool): bytes {
    if smudged then Smudge(w) else w
  }

  /** One `recv` of `chunk` while `w` is left over, with `z` still to come. */
  lemma OneRecv(w: bytes, smudged: bool, prev: nat, chunk: bytes, z: bytes) returns (still: bool, size: nat)
    requires smudged ==> w != [] && prev < READ_BUF_SIZE
    requires |w| + |chunk| <= READ_BUF_SIZE && SafeAfter(w + chunk + z, prev)
    ensures var b, s := ParseBuffer(Held(w, smudged) + chunk), ParseWire(w + chunk);
      && SameMessages(b, s)
      && (!s.bogus ==>
            && b.rest == Held(s.rest, still)
            && (still ==> s.rest != [] && size < READ_BUF_SIZE)
            && !Complete(s.rest) && !Bogus(s.rest)
            && SafeAfter(s.rest + z, size))
  {
    var y := w + chunk;
    assert Held(w, smudged) + chunk == Held(y, smudged);
    BufferAgainstWire(y, z, prev, smudged);
    WireLeftover(y);
    var s := ParseWire(y);
    still, size := (smudged || s.msgs != []) && s.rest != [], LastSize(y, prev);
    if !s.bogus {
      SafeSuffix(y, z, prev);
      LastSizeBound(y, prev);
    }
  }

  /** The leftover `w`, perhaps smudged, followed by any admissible chunks. */
  lemma {:induction false} FeedIsWire(w: bytes, smudged: bool, prev: nat, chunks: seq<bytes>)
    requires !Complete(w) && !Bogus(w)
    requires smudged ==> w != [] && prev < READ_BUF_SIZE
    requires SafeAfter(w + Concat(chunks), prev)
    requires Admissible(Held(w, smudged), chunks)
    ensures SameMessages(Feed(Held(w, smudged), chunks), ParseWire(w + Concat(chunks)))
    decreases |chunks|
  {
    if chunks == [] {
      AppendNothing(w);
    } else {
      var z := Concat(chunks[1..]);
      AppendAssoc(w, chunks[0], z);
      var still, size := OneRecv(w, smudged, prev, chunks[0], z);
      WireAppend(w + chunks[0], z);
      var s := ParseWire(w + chunks[0]);
      if !s.bogus {
        FeedIsWire(s.rest, still, size, chunks[1..]);
      }
    }
  }

  lemma {:induction false} WireLeftover(b: bytes)
    ensures !ParseWire(b).bogus ==> !Complete(ParseWire(b).rest) && !Bogus(ParseWire(b).rest)
    decreases |b|
  {
    if Complete(b) {
      WireLeftover(b[FrameSize(b)..]);
    }
  }

  lemma LastSizeBound(y: bytes, prev: nat)
    ensures ParseWire(y).msgs == [] ==> LastSize(y, prev) == prev
  {
  }

  /** On a safe stream the messages dispatched are those of the stream as a whole,
      whichever way it was cut. */
  lemma SafeStreamsDecodeRight(chunks: seq<bytes>)
    requires Safe(Concat(chunks)) && Admissible([], chunks)
    ensures SameMessages(Feed([], chunks), ParseWire(Concat(chunks)))
  {
    AppendNothing(Concat(chunks));
    FeedIsWire([], false, READ_BUF_SIZE, chunks);
  }

  // ------------------------------------------------------------------
  // Exactly the safe streams

  /** An incomplete frame can always be continued byte by byte. */
  lemma {:induction false} ByteByByte(pending: bytes, z: bytes) returns (chunks: seq<bytes>)
    requires !Complete(pending) && !Bogus(pending)
    ensures Concat(chunks) == z && Admissible(pending, chunks)
    decreases |z|
  {
    if z == [] {
      chunks := [];
    } else {
      var s := ParseBuffer(pending + z[..1]);
      LeftoverFits(pending + z[..1]);
      var more := [z[1..]];
      assert Concat(more) == z[1..] by {
        assert more[1..] == [];
        AppendNothing(z[1..]);
      }
      if !s.bogus {
        more := ByteByByte(s.rest, z[1..]);
      }
      chunks := [z[..1]] + more;
      ConsTail(z[..1], more);
      SplitAt(z, 1);
    }
  }

  lemma FeedFirst(pending: bytes, c: bytes, more: seq<bytes>)
    requires c != [] && |pending| + |c| <= READ_BUF_SIZE
    requires !ParseBuffer(pending + c).bogus && Admissible(ParseBuffer(pending + c).rest, more)
    ensures Admissible(pending, [c] + more) && Concat([c] + more) == c + Concat(more)
    ensures Feed(pending, [c] + more) == Then(ParseBuffer(pending + c), Feed(ParseBuffer(pending + c).rest, more))
  {
    ConsTail(c, more);
  }

  /** The first frame of a stream, cut out. */
  lemma FrontAlone(b: bytes)
    requires Complete(b)
    ensures var f := b[..FrameSize(b)];
      Complete(f) && FrameSize(f) == |f| && FirstMsg(f) == FirstMsg(b) && f[|f|..] == []
  {
    var f := b[..FrameSize(b)];
    assert f[2..][..4] == b[2..][..4];
    assert f[HDR_SIZE..] == b[HDR_SIZE..FrameSize(b)];
  }

  lemma NothingParsed(b: bytes)
    requires |b| < HDR_SIZE
    ensures ParseBuffer(b) == Scan([], b, false)
  {
  }

  /** A frame that arrives alone is decoded as it was sent. */
  lemma LoneFrame(b: bytes)
    requires Complete(b)
    ensures ParseBuffer(b[..FrameSize(b)]) == Scan([FirstMsg(b)], [], false)
  {
    FrontAlone(b);
    NothingParsed([]);
    AppendNothing([FirstMsg(b)]);
  }

  /** A frame that arrives together with the first byte of the next costs that byte. */
  lemma FrameAndOne(b: bytes)
    requires Complete(b) && FrameSize(b) < |b|
    ensures ParseBuffer(b[..FrameSize(b) + 1]) == Scan([FirstMsg(b)], [NUL], false)
  {
    var n := FrameSize(b);
    FrontAlone(b);
    Snoc(b, n);
    CompleteExtends(b[..n], [b[n]]);
    AppendNothing([b[n]]);
    NothingParsed([NUL]);
    AppendNothing([FirstMsg(b)]);
    assert Smudge([b[n]]) == [NUL];
  }

  lemma SmudgedFrame(r: bytes)
    requires Complete(r)
    ensures [NUL] + r[1..FrameSize(r)] == Smudge(r)[..FrameSize(r)]
  {
  }

  /** The rest of that next frame is then decoded with a type below 256. */
  lemma FrameWithoutFirstByte(r: bytes)
    requires Complete(r)
    ensures var s := ParseBuffer([NUL] + r[1..FrameSize(r)]);
      |s.msgs| == 1 && s.msgs[0].typ < 0x100 && s.rest == [] && !s.bogus
  {
    SmudgeKeepsLength(r);
    SmudgedFrame(r);
    LoneFrame(Smudge(r));
  }

  lemma UnsafeHead(b: bytes)
    requires !Safe(b)
    ensures Complete(b)
    ensures var n := FrameSize(b); var r := b[n..];
      !Safe(r) || (n < READ_BUF_SIZE && Complete(r) && U16(r) >= 0x100)
  {
    var r := b[FrameSize(b)..];
    assert !SafeAfter(r, FrameSize(b));
    if Complete(r) {
      assert Safe(r) == SafeAfter(r[FrameSize(r)..], FrameSize(r));
    }
  }

  lemma DifferLater(m: Msg, f: Scan, w: Scan)
    requires !SameMessages(f, w)
    ensures !SameMessages(Then(Scan([m], [], false), f), Scan([m] + w.msgs, w.rest, w.bogus))
  {
    ConsTail(m, f.msgs);
    ConsTail(m, w.msgs);
  }

  /** If the first chunk gets the first frame right and the others get the rest wrong, the
      whole is wrong. */
  lemma WrongLater(b: bytes, first: bytes, left: bytes, more: seq<bytes>)
    requires Complete(b) && first != [] && |first| <= READ_BUF_SIZE && first + Concat(more) == b
    requires ParseBuffer(first) == Scan([FirstMsg(b)], left, false) && Admissible(left, more)
    requires !SameMessages(Feed(left, more), ParseWire(b[FrameSize(b)..]))
    ensures Concat([first] + more) == b && Admissible([], [first] + more)
    ensures !SameMessages(Feed([], [first] + more), ParseWire(b))
  {
    AppendNothing(first);
    FeedFirst([], first, more);
    DifferLater(FirstMsg(b), Feed(left, more), ParseWire(b[FrameSize(b)..]));
  }

  /** An unsafe stream has a cut for which a frame is taken for one of another type. */
  lemma {:induction false} UnsafeStreamsDecodeWrong(b: bytes) returns (chunks: seq<bytes>)
    requires !Safe(b)
    ensures Concat(chunks) == b && Admissible([], chunks)
    ensures !SameMessages(Feed([], chunks), ParseWire(b))
    decreases |b|
  {
    UnsafeHead(b);
    var n := FrameSize(b);
    if !Safe(b[n..]) {
      var more := UnsafeStreamsDecodeWrong(b[n..]);
      LoneFrame(b);
      SplitAt(b, n);
      WrongLater(b, b[..n], [], more);
      chunks := [b[..n]] + more;
    } else {
      chunks := CutInsideHeader(b);
    }
  }

  /** Cutting behind the first byte of the frame that follows. */
  lemma CutInsideHeader(b: bytes) returns (chunks: seq<bytes>)
    requires Complete(b) && FrameSize(b) < READ_BUF_SIZE
    requires Complete(b[FrameSize(b)..]) && U16(b[FrameSize(b)..]) >= 0x100
    ensures Concat(chunks) == b && Admissible([], chunks)
    ensures !SameMessages(Feed([], chunks), ParseWire(b))
  {
    var n := FrameSize(b);
    var more := RestOfFrame(b[n..]);
    FrameAndOne(b);
    SplitPast(b, n);
    WrongLater(b, b[..n + 1], [NUL], more);
    chunks := [b[..n + 1]] + more;
  }

  /** A frame that lost the first byte of its type has another type. */
  lemma TypesDiffer(r: bytes, g: Scan, s: Scan)
    requires Complete(r) && U16(r) >= 0x100 && s.msgs != [] && s.msgs[0].typ < 0x100 && !s.bogus
    ensures !SameMessages(Then(s, g), ParseWire(r))
  {
    AppendTail(s.msgs, g.msgs);
    AppendTail([FirstMsg(r)], ParseWire(r[FrameSize(r)..]).msgs);
  }

  lemma RestOfFrame(r: bytes) returns (chunks: seq<bytes>)
    requires Complete(r) && U16(r) >= 0x100
    ensures Concat(chunks) == r[1..] && Admissible([NUL], chunks)
    ensures !SameMessages(Feed([NUL], chunks), ParseWire(r))
  {
    var g := FrameSize(r);
    var tail := ByteByByte([], r[g..]);
    FrameWithoutFirstByte(r);
    FeedFirst([NUL], r[1..g], tail);
    SplitTail(r, 1, g);
    TypesDiffer(r, Feed([], tail), ParseBuffer([NUL] + r[1..g]));
    chunks := [r[1..g]] + tail;
  }

  /** The dispatched messages are independent of how the stream is cut into chunks
      exactly for the safe streams. */
  lemma ChunkInvariance(b: bytes)
    ensures Safe(b) <==>
            forall chunks | Concat(chunks) == b && Admissible([], chunks) ::
              SameMessages(Feed([], chunks), ParseWire(b))
  {
    if Safe(b) {
      forall chunks | Concat(chunks) == b && Admissible([], chunks)
        ensures SameMessages(Feed([], chunks), ParseWire(b))
      {
        SafeStreamsDecodeRight(chunks);
      }
    } else {
      var chunks := UnsafeStreamsDecodeWrong(b);
    }
  }

  /** Everything the encoder writes for the defined message types is safe. */
  lemma {:induction false} SmallTypesAreSafe(ms: seq<Msg>, prev: nat)
    requires forall m | m in ms :: m.typ < 0x100 && |m.payload| <= MAX_PAYLOAD
    ensures SafeAfter(Wire(ms), prev)
  {
    if ms != [] {
      FrontFrame(ms[0], Wire(ms[1..]));
      assert U16(Wire(ms)) == ms[0].typ;
      SmallTypesAreSafe(ms[1..], |Frame(ms[0])|);
    }
  }

  /** Encoder to decoder: whichever way the network cuts the frames of `ms`, exactly
      these messages are dispatched, in order. */
  lemma EncodedStreamIsDecoded(ms: seq<Msg>, chunks: seq<bytes>)
    requires forall m | m in ms :: m.typ < 0x100 && |m.payload| <= MAX_PAYLOAD
    requires Concat(chunks) == Wire(ms) && Admissible([], chunks)
    ensures Feed([], chunks).msgs == ms && !Feed([], chunks).bogus
  {
    SmallTypesAreSafe(ms, READ_BUF_SIZE);
    SafeStreamsDecodeRight(chunks);
    WireRoundTrip(ms);
  }

  lemma WireOfTwo(a: Msg, b: Msg)
    requires a.Encodable() && b.Encodable()
    ensures Wire([a, b]) == Frame(a) + Frame(b)
  {
    assert [a, b][1..] == [b] && [b][1..] == [];
    assert Wire([b]) == Frame(b) + [] == Frame(b);
  }

  /** A type of 0x0101 sent right behind another frame is taken for a SUBSCRIBE. */
  lemma WideTypeIsMisread()
    ensures var a, b := Msg(MSG_SUBSCRIBE, [97]), Msg(0x0101, [98]);
      && ParseWire(Frame(a) + Frame(b)).msgs == [a, b]
      && Feed([], [Frame(a) + Frame(b)]).msgs == [a, Msg(MSG_SUBSCRIBE, [98])]
  {
    var a, b := Msg(MSG_SUBSCRIBE, [97]), Msg(0x0101, [98]);
    var s := Frame(a) + Frame(b);
    WireOfTwo(a, b);
    WireRoundTrip([a, b]);
    FrontFrame(a, Frame(b));
    FrontFrame(b, []);
    assert Frame(b) + [] == Frame(b);
    SmudgeKeepsLength(Frame(b));
    assert [] + s == s;
    assert ParseBuffer(Smudge([])) == Scan([], [], false);
    assert U16(Frame(b)) == 0x0101;
    assert Feed([], [s]) == Then(ParseBuffer(s), Feed(ParseBuffer(s).rest, []));
  }

  // ------------------------------------------------------------------
  // Conservation

  lemma FrontIsFrame(b: bytes)
    requires Complete(b)
    ensures FirstMsg(b).Encodable() && b == Frame(FirstMsg(b)) + b[FrameSize(b)..]
  {
    var h := b[..HDR_SIZE];
    assert h[2..] == b[2..][..4];
    FrameOfParts(h, FirstMsg(b));
    assert b == h + b[HDR_SIZE..FrameSize(b)] + b[FrameSize(b)..];
  }

  /** No byte is lost or invented: re-encoding the messages and appending what is left
      over gives the received bytes. */
  lemma {:induction false} NothingLost(b: bytes)
    ensures var s := ParseWire(b); (forall m | m in s.msgs :: m.Encodable()) && b == Wire(s.msgs) + s.rest
    decreases |b|
  {
    if Complete(b) {
      var n := FrameSize(b);
      NothingLost(b[n..]);
      FrontIsFrame(b);
      var m, s := FirstMsg(b), ParseWire(b[n..]);
      ConsTail(m, s.msgs);
      assert Frame(m) + (Wire(s.msgs) + s.rest) == (Frame(m) + Wire(s.msgs)) + s.rest;
    }
  }

  function TotalSize(ms: seq<Msg>): nat {
    if ms == [] then 0 else HDR_SIZE + |ms[0].payload| + TotalSize(ms[1..])
  }

  /** The same count holds in the read buffer itself. */
  lemma {:induction false} BufferIsAccountedFor(b: bytes)
    ensures TotalSize(ParseBuffer(b).msgs) + |ParseBuffer(b).rest| == |b|
    decreases |b|
  {
    if Complete(b) {
      var s := ParseBuffer(Smudge(b[FrameSize(b)..]));
      BufferIsAccountedFor(Smudge(b[FrameSize(b)..]));
      ConsTail(FirstMsg(b), s.msgs);
    }
  }
}
