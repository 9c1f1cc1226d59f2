/** Splitting patterns and topics on '/', as `strtok` does (section 7.24.5.8 of
    ISO/IEC 9899:2011): empty segments vanish. */
module Topics {
  import opened Bytes

  type Topic = seq<bytes>

  const SLASH: byte := 47
  const MAX_SEGMENTS: nat := 64

  /** Length of the slash-free run at the front of `s`. */
  function RunLength(s: bytes): (n: nat)
    ensures n <= |s| && SLASH !in s[..n]
    ensures n < |s| ==> s[n] == SLASH
  {
    if s == [] || s[0] == SLASH then 0 else 1 + RunLength(s[1..])
  }

  function Tokens(s: bytes): Topic
    decreases |s|
  {
    if s == [] then []
    else if s[0] == SLASH then Tokens(s[1..])
    else
      var n := RunLength(s);
      [s[..n]] + Tokens(s[n..])
  }

  lemma RunLengthAt(s: bytes, n: nat)
    requires n <= |s| && SLASH !in s[..n] && (n < |s| ==> s[n] == SLASH)
    ensures RunLength(s) == n
  {
    var k := RunLength(s);
    assert forall i | 0 <= i < n :: s[..n][i] == s[i];
    assert forall i | 0 <= i < k :: s[..k][i] == s[i];
    assert k == n;
  }

  /** A slash, byte 47, separates: nothing on one side influences the segments of the other. */
  lemma {:induction false} TokensAtSlash(a: bytes, b: bytes)
    ensures Tokens(a + [47] + b) == Tokens(a) + Tokens(b)
    decreases |a|
  {
    if a == [] {
      SliceJoined(a, SLASH, b, 1);
    } else if a[0] == SLASH {
      SliceJoined(a, SLASH, b, 1);
      TokensAtSlash(a[1..], b);
    } else {
      var n := RunLength(a);
      SliceJoined(a, SLASH, b, n);
      RunLengthAt(a + [SLASH] + b, n);
      TokensAtSlash(a[n..], b);
      AppendAssoc([a[..n]], Tokens(a[n..]), Tokens(b));
    }
  }

  lemma SliceJoined(a: bytes, sep: byte, b: bytes, n: nat)
    requires n <= |a| + 1
    ensures var s := a + [sep] + b;
      && (n <= |a| ==> s[..n] == a[..n] && s[n..] == a[n..] + [sep] + b && s[n] == if n < |a| then a[n] else sep)
      && (n == |a| + 1 ==> s[n..] == b)
      && s[0] == if a == [] then sep else a[0]
  {
  }

  /** A slash-free text is one segment, or none when it is empty. Together with
      `TokensAtSlash` this determines `Tokens` completely. */
  lemma TokensWithoutSlash(s: bytes)
    requires 47 !in s
    ensures Tokens(s) == if s == [] then [] else [s]
  {
    if s != [] {
      Whole(s);
      RunLengthAt(s, |s|);
    }
  }

  predicate CleanToken(tok: bytes) {
    tok != [] && SLASH !in tok
  }

  lemma {:induction false} TokensAreClean(s: bytes)
    ensures forall tok | tok in Tokens(s) :: CleanToken(tok)
    decreases |s|
  {
    if s != [] {
      if s[0] == SLASH {
        TokensAreClean(s[1..]);
      } else {
        var n := RunLength(s);
        assert CleanToken(s[..n]);
        TokensAreClean(s[n..]);
      }
    }
  }

  function Join(ts: Topic): bytes {
    if ts == [] then []
    else if |ts| == 1 then ts[0]
    else ts[0] + [SLASH] + Join(ts[1..])
  }

  /** Writing segments with slashes between them and splitting gives them back. */
  lemma {:induction false} TokensOfJoin(ts: Topic)
    requires forall tok | tok in ts :: CleanToken(tok)
    ensures Tokens(Join(ts)) == ts
  {
    if ts != [] {
      assert CleanToken(ts[0]);
      TokensWithoutSlash(ts[0]);
      if |ts| > 1 {
        TokensAtSlash(ts[0], Join(ts[1..]));
        TokensOfJoin(ts[1..]);
      }
      HeadTail(ts);
    }
  }

  /** Each segment but the last costs at least two bytes, itself and a slash. */
  lemma {:induction false} TokenCount(s: bytes)
    ensures 2 * |Tokens(s)| <= |s| + 1
    decreases |s|
  {
    if s != [] {
      if s[0] == SLASH {
        TokenCount(s[1..]);
      } else {
        var n := RunLength(s);
        if n < |s| {
          TokenCount(s[n + 1..]);
          assert s[n..][1..] == s[n + 1..];
        }
      }
    }
  }

  /** The delimiter-skipping half of `strtok`. */
  method SkipSlashes(s: bytes, from: nat) returns (start: nat)
    requires from <= |s|
    ensures from <= start <= |s| && (start < |s| ==> s[start] != SLASH)
    ensures Tokens(s[start..]) == Tokens(s[from..])
  {
    start := from;
    while start < |s| && s[start] == SLASH
      invariant from <= start <= |s|
      invariant Tokens(s[start..]) == Tokens(s[from..])
    {
      SliceStep(s, start);
      start := start + 1;
    }
  }

  /** The token-scanning half of `strtok`. */
  method FindSlash(s: bytes, start: nat) returns (stop: nat)
    requires start <= |s|
    ensures stop == start + RunLength(s[start..])
  {
    stop := start;
    while stop < |s| && s[stop] != SLASH
      invariant start <= stop <= |s|
      invariant start + RunLength(s[start..]) == stop + RunLength(s[stop..])
    {
      SliceStep(s, stop);
      stop := stop + 1;
    }
  }

  /** The token from `start` on, and what follows its delimiter. */
  lemma TokenAt(s: bytes, start: nat, stop: nat)
    requires start < |s| && s[start] != SLASH && stop == start + RunLength(s[start..])
    ensures start < stop && Tokens(s[start..]) == [s[start..stop]] + Tokens(s[stop..])
    ensures stop < |s| ==> Tokens(s[stop..]) == Tokens(s[stop + 1..])
  {
    var t := s[start..];
    assert t[..stop - start] == s[start..stop];
    assert t[stop - start..] == s[stop..];
    if stop < |s| {
      SliceStep(s, stop);
    }
  }

  /** One `strtok` call on `s` with the scan position at `from`. */
  method StrTok(s: bytes, from: nat) returns (tok: Option<bytes>, next: nat)
    requires from <= |s|
    ensures next <= |s|
    ensures tok.None? ==> Tokens(s[from..]) == []
    ensures tok.Some? ==> from < next && Tokens(s[from..]) == [tok.value] + Tokens(s[next..])
  {
    var start := SkipSlashes(s, from);
    if start == |s| {
      return None, start;
    }
    var stop := FindSlash(s, start);
    TokenAt(s, start, stop);
    tok, next := Some(s[start..stop]), stop;
    if stop < |s| {
      next := stop + 1;
    }
  }

  /** The token loop shared by subscribe, unsubscribe and publish: at most 64
      segments are kept, and `more` tells whether a 65th one was seen. */
  method Split(s: bytes) returns (parts: Topic, more: bool)
    ensures more <==> |Tokens(s)| > MAX_SEGMENTS
    ensures parts == if more then Tokens(s)[..MAX_SEGMENTS] else Tokens(s)
  {
    parts := [];
    Whole(s);
    var tok, pos := StrTok(s, 0);
    ghost var rest := Tokens(s);
    while tok.Some? && |parts| < MAX_SEGMENTS
      invariant |parts| <= MAX_SEGMENTS && 0 <= pos <= |s|
      invariant Tokens(s) == parts + rest
      invariant tok.Some? ==> rest == [tok.value] + Tokens(s[pos..])
      invariant tok.None? ==> rest == []
      decreases MAX_SEGMENTS - |parts|
    {
      parts := parts + [tok.value];
      rest := Tokens(s[pos..]);
      tok, pos := StrTok(s, pos);
    }
    more := tok.Some?;
  }
}
