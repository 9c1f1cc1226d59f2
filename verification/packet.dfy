/** Publications: the server puts the sender's address in front of a datagram, the
    subscriber takes the packet apart again. */
module Packet {
  import opened Bytes
  import opened Topics
  import opened Protocol

  const SPACE: byte := 32
  const DOT: byte := 46
  const ZERO: byte := 48
  /** The size of the header buffer: an IPv4 address as text, a port, separators. */
  const HEADER_SIZE: nat := 25
  const MAX_UDP_PAYLOAD: nat := 1500

  datatype Addr = Addr(a: byte, b: byte, c: byte, d: byte)

  // ------------------------------------------------------------------
  // The header text

  /** `%u` */
  function Dec(n: nat): (s: bytes)
    ensures s != []
  {
    if n < 10 then [ZERO + n as byte] else Dec(n / 10) + [ZERO + (n % 10) as byte]
  }

  /** The reference reading of decimal text, by character codes. */
  predicate Digits(s: bytes) {
    forall i | 0 <= i < |s| :: 48 <= s[i] <= 57
  }

  function Value(s: bytes): nat
    requires Digits(s)
  {
    if s == [] then 0 else 10 * Value(s[..|s| - 1]) + (s[|s| - 1] - 48) as nat
  }

  lemma {:induction false} DecIsDigits(n: nat)
    ensures Digits(Dec(n))
  {
    if n >= 10 {
      DecIsDigits(n / 10);
    }
  }

  /** Reading a printed number gives it back, and it is printed without leading zeros. */
  lemma {:induction false} DecValue(n: nat)
    ensures Digits(Dec(n)) && Value(Dec(n)) == n && (n > 0 ==> Dec(n)[0] != 48) && (n == 0 ==> Dec(n) == [48])
  {
    DecIsDigits(n);
    if n >= 10 {
      DecValue(n / 10);
      assert Dec(n)[..|Dec(n)| - 1] == Dec(n / 10);
    }
  }

  lemma DecLength(n: nat)
    ensures n < 0x100 ==> |Dec(n)| <= 3
    ensures n < 0x1_0000 ==> |Dec(n)| <= 5
  {
    if n < 0x1_0000 {
      assert |Dec(n / 10)| <= 4 && (n < 1000 ==> |Dec(n / 10)| <= 2) by {
        assert n / 10 < 10000 && n / 10 / 10 < 1000 && n / 10 / 10 / 10 < 100 && n / 10 / 10 / 10 / 10 < 10;
        assert |Dec(n / 10 / 10 / 10)| <= 2;
        assert |Dec(n / 10 / 10)| <= 3;
      }
    }
  }

  /** `inet_ntoa` */
  function Dotted(ip: Addr): bytes {
    Dec(ip.a as nat) + [DOT] + (Dec(ip.b as nat) + [DOT] + (Dec(ip.c as nat) + [DOT] + Dec(ip.d as nat)))
  }

  /** What `snprintf` with "%s %u " prints. */
  function HeaderText(ip: Addr, port: nat): bytes {
    Dotted(ip) + [SPACE] + (Dec(port) + [SPACE])
  }

  /** The text of an address is its four numbers, the first one first, with points between
      them. */
  lemma DottedReads(ip: Addr) returns (a: bytes, b: bytes, c: bytes, d: bytes)
    ensures Dotted(ip) == a + [46] + (b + [46] + (c + [46] + d))
    ensures Digits(a) && Digits(b) && Digits(c) && Digits(d)
    ensures Value(a) == ip.a as nat && Value(b) == ip.b as nat && Value(c) == ip.c as nat && Value(d) == ip.d as nat
  {
    a, b, c, d := Dec(ip.a as nat), Dec(ip.b as nat), Dec(ip.c as nat), Dec(ip.d as nat);
    DecValue(ip.a as nat);
    DecValue(ip.b as nat);
    DecValue(ip.c as nat);
    DecValue(ip.d as nat);
  }

  /** The header is the address, a space, the port number and a space. */
  lemma HeaderReads(ip: Addr, port: nat) returns (p: bytes)
    ensures HeaderText(ip, port) == Dotted(ip) + [32] + (p + [32]) && Digits(p) && Value(p) == port
  {
    p := Dec(port);
    DecValue(port);
  }

  /** The header always fits its buffer, so `build_packet` never gives up on it. */
  lemma HeaderFits(ip: Addr, port: nat)
    requires port < 0x1_0000
    ensures 10 <= |HeaderText(ip, port)| <= 22 < HEADER_SIZE
  {
    DecLength(ip.a as nat);
    DecLength(ip.b as nat);
    DecLength(ip.c as nat);
    DecLength(ip.d as nat);
    DecLength(port);
  }

  /** Text up to the first separator, and what follows, are determined by the whole. */
  lemma SplitAtFirst(x: bytes, y: bytes, x': bytes, y': bytes, sep: byte)
    requires sep !in x && sep !in x' && x + [sep] + y == x' + [sep] + y'
    ensures x == x' && y == y'
  {
    var s := x + [sep] + y;
    assert s[|x|] == sep && s[|x'|] == sep;
    assert forall i | 0 <= i < |x| :: s[i] == x[i];
    assert forall i | 0 <= i < |x'| :: s[i] == x'[i];
    assert |x| == |x'|;
    assert x == s[..|x|] == x';
    assert y == s[|x| + 1..] == y';
  }

  lemma NoSeparators(n: nat)
    ensures SPACE !in Dec(n) && DOT !in Dec(n)
  {
    DecIsDigits(n);
  }

  lemma DecInjective(m: nat, n: nat)
    requires Dec(m) == Dec(n)
    ensures m == n
  {
    DecValue(m);
    DecValue(n);
  }

  /** Different addresses print differently. */
  lemma DottedInjective(p: Addr, q: Addr)
    requires Dotted(p) == Dotted(q)
    ensures p == q
  {
    NoSeparators(p.a as nat);
    NoSeparators(q.a as nat);
    NoSeparators(p.b as nat);
    NoSeparators(q.b as nat);
    NoSeparators(p.c as nat);
    NoSeparators(q.c as nat);
    var p3, q3 := Dec(p.c as nat) + [DOT] + Dec(p.d as nat), Dec(q.c as nat) + [DOT] + Dec(q.d as nat);
    var p2, q2 := Dec(p.b as nat) + [DOT] + p3, Dec(q.b as nat) + [DOT] + q3;
    SplitAtFirst(Dec(p.a as nat), p2, Dec(q.a as nat), q2, DOT);
    SplitAtFirst(Dec(p.b as nat), p3, Dec(q.b as nat), q3, DOT);
    SplitAtFirst(Dec(p.c as nat), Dec(p.d as nat), Dec(q.c as nat), Dec(q.d as nat), DOT);
    DecInjective(p.a as nat, q.a as nat);
    DecInjective(p.b as nat, q.b as nat);
    DecInjective(p.c as nat, q.c as nat);
    DecInjective(p.d as nat, q.d as nat);
  }

  lemma DottedHasNoSpace(ip: Addr)
    ensures SPACE !in Dotted(ip)
  {
    NoSeparators(ip.a as nat);
    NoSeparators(ip.b as nat);
    NoSeparators(ip.c as nat);
    NoSeparators(ip.d as nat);
  }

  // ------------------------------------------------------------------
  // Server side

  /** `extract_topic` */
  method ExtractTopic(msg: array<byte>) returns (topic: bytes)
    requires msg.Length >= MAX_TOPIC_LEN
    ensures topic == CString(msg[..50])
  {
    topic := [];
    var i := 0;
    while i < MAX_TOPIC_LEN && msg[i] != NUL
      invariant 0 <= i <= MAX_TOPIC_LEN && topic == msg[..i] && NUL !in topic
    {
      topic := topic + [msg[i]];
      i := i + 1;
    }
    assert msg[..MAX_TOPIC_LEN][..i] == msg[..i];
    CStringUnique(msg[..MAX_TOPIC_LEN], i);
  }

  /** The `memmove` that makes room in front. */
  method MoveUp(buf: array<byte>, n: nat, h: nat)
    requires h + n <= buf.Length
    modifies buf
    ensures buf[h..h + n] == old(buf[..n])
  {
    forall i | 0 <= i < n {
      buf[h + i] := buf[i];
    }
  }

  /** The `memcpy` of the header. */
  method CopyFront(buf: array<byte>, header: bytes)
    requires |header| <= buf.Length
    modifies buf
    ensures buf[..|header|] == header && buf[|header|..] == old(buf[|header|..])
  {
    forall i | 0 <= i < |header| {
      buf[i] := header[i];
    }
  }

  /** `build_packet`: the payload is shifted up and the header copied in front of it,
      unless the header does not fit its own buffer. */
  method BuildPacket(buf: array<byte>, n: nat, ip: Addr, port: nat) returns (len: nat)
    requires port < 0x1_0000 && |HeaderText(ip, port)| + n <= buf.Length
    modifies buf
    ensures |HeaderText(ip, port)| < HEADER_SIZE ==> len == |HeaderText(ip, port)| + n
    ensures |HeaderText(ip, port)| < HEADER_SIZE ==> buf[..len] == HeaderText(ip, port) + old(buf[..n])
    ensures |HeaderText(ip, port)| >= HEADER_SIZE ==> len == n && buf[..] == old(buf[..])
  {
    var header := HeaderText(ip, port);
    var h := |header|;
    if h >= HEADER_SIZE {
      return n;
    }
    MoveUp(buf, n, h);
    ghost var moved := buf[..];
    CopyFront(buf, header);
    len := h + n;
    FrontReplaced(moved, buf[..], h, n);
  }

  /** Only the front of a buffer changed. */
  lemma FrontReplaced(before: bytes, after: bytes, h: nat, n: nat)
    requires |before| == |after| && h + n <= |after| && before[h..] == after[h..]
    ensures after[..h + n] == after[..h] + before[h..h + n]
  {
    assert before[h..][..n] == before[h..h + n];
    assert after[h..][..n] == after[h..h + n];
  }

  /** A topic field yields at most 25 segments, so publishing never cuts any off. */
  lemma TopicsAreShort(field: bytes)
    requires |field| <= MAX_TOPIC_LEN
    ensures |Tokens(CString(field))| <= 25 < MAX_SEGMENTS
  {
    TokenCount(CString(field));
  }

  // ------------------------------------------------------------------
  // Subscriber side

  datatype Publication = Publication(ip: bytes, port: bytes, topic: bytes, data: bytes)

  /** `memchr` for a space, from `from` on. */
  method FindSpace(buf: bytes, from: nat) returns (at: nat)
    requires from <= |buf|
    ensures from <= at <= |buf| && SPACE !in buf[from..at] && (at < |buf| ==> buf[at] == SPACE)
  {
    at := from;
    while at < |buf| && buf[at] != SPACE
      invariant from <= at <= |buf| && SPACE !in buf[from..at]
    {
      at := at + 1;
    }
  }

  /** The layout that `print_packet` looks for: two spaces, a topic field of 50 bytes, data. */
  ghost predicate Layout(buf: bytes, ip: bytes, port: bytes, field: bytes, data: bytes) {
    && 32 !in ip && 32 !in port && |field| == 50 && data != []
    && buf == ip + [32] + (port + [32] + (field + data))
  }

  /** The first space ends the first part, whatever the layout. */
  lemma FirstPart(buf: bytes, at: nat, x: bytes, y: bytes)
    requires at <= |buf| && SPACE !in buf[..at] && (at < |buf| ==> buf[at] == SPACE)
    requires SPACE !in x && buf == x + [SPACE] + y
    ensures at < |buf| && x == buf[..at] && y == buf[at + 1..]
  {
    assert buf[|x|] == SPACE;
    assert forall i | 0 <= i < at :: buf[..at][i] == buf[i];
    assert forall i | 0 <= i < |x| :: buf[i] == x[i];
  }

  /** A buffer has one layout at most. */
  lemma LayoutIsUnique(buf: bytes)
    ensures forall ip, port, field, data, ip', port', field', data' |
      Layout(buf, ip, port, field, data) && Layout(buf, ip', port', field', data') ::
        ip == ip' && port == port' && field == field' && data == data'
  {
    forall ip, port, field, data, ip', port', field', data' |
      Layout(buf, ip, port, field, data) && Layout(buf, ip', port', field', data')
      ensures ip == ip' && port == port' && field == field' && data == data'
    {
      SplitAtFirst(ip, port + [SPACE] + (field + data), ip', port' + [SPACE] + (field' + data'), SPACE);
      SplitAtFirst(port, field + data, port', field' + data', SPACE);
      SplitAtLength(field, data, field', data');
    }
  }

  lemma SplitAtLength(x: bytes, y: bytes, x': bytes, y': bytes)
    requires |x| == |x'| && x + y == x' + y'
    ensures x == x' && y == y'
  {
    assert x == (x + y)[..|x|] && y == (x + y)[|x|..];
    assert x' == (x' + y')[..|x|] && y' == (x' + y')[|x|..];
  }

  /** What a packet says, if it has the layout. */
  ghost function Reading(buf: bytes): Option<Publication> {
    if ip, port, field, data :| Layout(buf, ip, port, field, data)
    then Some(Publication(ip, port, CString(field), data))
    else None
  }

  lemma ReadingOf(buf: bytes, ip: bytes, port: bytes, field: bytes, data: bytes)
    requires Layout(buf, ip, port, field, data)
    ensures Reading(buf) == Some(Publication(ip, port, CString(field), data))
  {
    LayoutIsUnique(buf);
  }

  /** A layout has a first space, and the port follows it. */
  lemma FirstSpace(buf: bytes, sp: nat)
    requires sp <= |buf| && SPACE !in buf[..sp] && (sp < |buf| ==> buf[sp] == SPACE)
    ensures forall ip, port, field, data | Layout(buf, ip, port, field, data) ::
      sp < |buf| && port + [SPACE] + (field + data) == buf[sp + 1..]
  {
    forall ip, port, field, data | Layout(buf, ip, port, field, data)
      ensures sp < |buf| && port + [SPACE] + (field + data) == buf[sp + 1..]
    {
      AppendAssoc(port, [SPACE], field + data);
      FirstPart(buf, sp, ip, port + [SPACE] + (field + data));
    }
  }

  /** Behind the second space there is room for the topic field and some data. */
  lemma SecondSpace(rest: bytes, sp: nat)
    requires sp <= |rest| && SPACE !in rest[..sp] && (sp < |rest| ==> rest[sp] == SPACE)
    ensures forall port, field: bytes, data: bytes |
      SPACE !in port && |field| == MAX_TOPIC_LEN && data != [] && rest == port + [SPACE] + (field + data) ::
        sp + 1 + MAX_TOPIC_LEN < |rest|
  {
    forall port, field: bytes, data: bytes |
      SPACE !in port && |field| == MAX_TOPIC_LEN && data != [] && rest == port + [SPACE] + (field + data)
      ensures sp + 1 + MAX_TOPIC_LEN < |rest|
    {
      FirstPart(rest, sp, port, field + data);
    }
  }

  /** Conversely, two such spaces make a layout. */
  lemma LayoutAt(buf: bytes, sp: nat, sp2: nat)
    requires sp < sp2 && sp2 + 1 + MAX_TOPIC_LEN < |buf| && buf[sp] == buf[sp2] == SPACE
    requires SPACE !in buf[..sp] && SPACE !in buf[sp + 1..sp2]
    ensures var q := sp2 + 1 + MAX_TOPIC_LEN;
      Layout(buf, buf[..sp], buf[sp + 1..sp2], buf[sp2 + 1..q], buf[q..])
  {
    var q := sp2 + 1 + MAX_TOPIC_LEN;
    assert buf[sp2 + 1..q] + buf[q..] == buf[sp2 + 1..];
    assert buf[sp + 1..] == buf[sp + 1..sp2] + [SPACE] + buf[sp2 + 1..];
  }

  /** What a packet says, in terms of its first two spaces; there may be fewer. */
  lemma ReadingAt(buf: bytes, sp: nat, sp2: nat)
    requires sp <= sp2 <= |buf| && SPACE !in buf[..sp] && (sp < |buf| ==> buf[sp] == SPACE)
    requires sp < |buf| ==> sp < sp2 && SPACE !in buf[sp + 1..sp2] && (sp2 < |buf| ==> buf[sp2] == SPACE)
    ensures var q := sp2 + 1 + MAX_TOPIC_LEN;
      Reading(buf) ==
      if q >= |buf| then None
      else Some(Publication(buf[..sp], buf[sp + 1..sp2], CString(buf[sp2 + 1..q]), buf[q..]))
  {
    var q := sp2 + 1 + MAX_TOPIC_LEN;
    FirstSpace(buf, sp);
    if q < |buf| {
      LayoutAt(buf, sp, sp2);
      ReadingOf(buf, buf[..sp], buf[sp + 1..sp2], buf[sp2 + 1..q], buf[q..]);
    } else if sp < |buf| {
      assert buf[sp + 1..][..sp2 - sp - 1] == buf[sp + 1..sp2];
      SecondSpace(buf[sp + 1..], sp2 - sp - 1);
    }
  }

  /** Reading is exact: into the parts of the only layout, if there is one. */
  lemma ReadingMeans(buf: bytes)
    ensures var r := Reading(buf);
      r.Some? ==> exists field ::
        Layout(buf, r.value.ip, r.value.port, field, r.value.data) && r.value.topic == CString(field)
    ensures forall ip, port, field, data | Layout(buf, ip, port, field, data) ::
      Reading(buf) == Some(Publication(ip, port, CString(field), data))
  {
    forall ip, port, field, data | Layout(buf, ip, port, field, data)
      ensures Reading(buf) == Some(Publication(ip, port, CString(field), data))
    {
      ReadingOf(buf, ip, port, field, data);
    }
  }

  /** The two searches for a space; a missing one is past the end. */
  method FindSpaces(buf: bytes) returns (sp: nat, sp2: nat)
    ensures sp <= sp2 <= |buf| && (sp < |buf| ==> sp < sp2)
    ensures var q := sp2 + 1 + MAX_TOPIC_LEN;
      Reading(buf) ==
      if q >= |buf| then None
      else Some(Publication(buf[..sp], buf[sp + 1..sp2], CString(buf[sp2 + 1..q]), buf[q..]))
  {
    sp := FindSpace(buf, 0);
    assert buf[0..sp] == buf[..sp];
    sp2 := sp;
    if sp < |buf| {
      sp2 := FindSpace(buf, sp + 1);
    }
    ReadingAt(buf, sp, sp2);
  }

  /** The parsing part of `print_packet`: a packet is read exactly if it has the layout,
      and then into its parts. */
  method ParsePacket(buf: bytes) returns (r: Option<Publication>)
    ensures r == Reading(buf)
    ensures r.Some? ==> exists field ::
      Layout(buf, r.value.ip, r.value.port, field, r.value.data) && r.value.topic == CString(field)
    ensures forall ip, port, field, data | Layout(buf, ip, port, field, data) ::
      r == Some(Publication(ip, port, CString(field), data))
  {
    ReadingMeans(buf);
    var sp, sp2 := FindSpaces(buf);
    var q := sp2 + 1 + MAX_TOPIC_LEN;
    if sp == |buf| || sp2 == |buf| || q > |buf| || |buf| - q < 1 {
      return None;
    }
    r := Some(Publication(buf[..sp], buf[sp + 1..sp2], CString(buf[sp2 + 1..q]), buf[q..]));
  }

  /** Server to subscriber: the packet built from a datagram of at least 51 bytes is read
      as the sender's address and port, the topic the server searched for, and the bytes
      behind the topic field; and the address and port can be told from their texts. */
  lemma PacketRoundTrip(payload: bytes, ip: Addr, port: nat)
    requires port < 0x1_0000 && |payload| > 50
    ensures Layout(HeaderText(ip, port) + payload, Dotted(ip), Dec(port),
                    payload[..50], payload[50..])
    ensures Reading(HeaderText(ip, port) + payload)
         == Some(Publication(Dotted(ip), Dec(port), CString(payload[..50]), payload[50..]))
    ensures forall q, p: nat | Dotted(q) == Dotted(ip) && Dec(p) == Dec(port) :: q == ip && p == port
  {
    DottedHasNoSpace(ip);
    NoSeparators(port);
    var buf, field, data := HeaderText(ip, port) + payload, payload[..50], payload[50..];
    assert payload == field + data;
    assert buf == Dotted(ip) + [32] + (Dec(port) + [32] + (field + data));
    ReadingOf(buf, Dotted(ip), Dec(port), field, data);
    forall q, p: nat | Dotted(q) == Dotted(ip) && Dec(p) == Dec(port)
      ensures q == ip && p == port
    {
      DottedInjective(q, ip);
      DecInjective(p, port);
    }
  }
}
