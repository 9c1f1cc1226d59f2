/** Topic patterns, and what it means for one to match a topic. */
module Patterns {
  import opened Bytes
  import opened Topics

  /** How a trie node hangs below its parent: by name, or as the `+` or `*` child. */
  datatype Seg = Name(name: bytes) | Plus | Star

  type Pattern = seq<Seg>

  const PLUS_TEXT: bytes := [43]
  const STAR_TEXT: bytes := [42]

  function ParseSeg(tok: bytes): Seg {
    if tok == PLUS_TEXT then Plus
    else if tok == STAR_TEXT then Star
    else Name(tok)
  }

  function ToPattern(toks: Topic): (p: Pattern)
    ensures |p| == |toks|
    ensures forall i | 0 <= i < |p| :: p[i] == ParseSeg(toks[i])
  {
    seq(|toks|, i requires 0 <= i < |toks| => ParseSeg(toks[i]))
  }

  /** Names stored in child lists are never empty and never wildcards. */
  predicate ProperSeg(s: Seg) {
    s.Name? ==> s.name != [] && s.name != PLUS_TEXT && s.name != STAR_TEXT
  }

  /** A position in the trie: the chain of links up to the root, which is how the
      parent pointers of the nodes spell it. */
  datatype Path = Root | Kid(up: Path, seg: Seg)

  function Segs(p: Path): Pattern {
    if p.Root? then [] else Segs(p.up) + [p.seg]
  }

  /** The position that the segments of a subscription text lead to. */
  function TextPath(parts: Topic): Path {
    if parts == [] then Root else Kid(TextPath(parts[..|parts| - 1]), ParseSeg(parts[|parts| - 1]))
  }

  lemma TextPathStep(parts: Topic, i: nat)
    requires i < |parts|
    ensures TextPath(parts[..i + 1]) == Kid(TextPath(parts[..i]), ParseSeg(parts[i]))
  {
    assert parts[..i + 1][..i] == parts[..i];
  }

  lemma {:induction false} TextPathSegs(parts: Topic)
    ensures Segs(TextPath(parts)) == ToPattern(parts)
  {
    if parts != [] {
      TextPathSegs(parts[..|parts| - 1]);
    }
  }

  lemma SameSegment(x: bytes, y: bytes)
    requires ParseSeg(x) == ParseSeg(y)
    ensures x == y
  {
  }

  /** Different segment lists lead to different positions. */
  lemma {:induction false} TextPathInjective(a: Topic, b: Topic)
    requires TextPath(a) == TextPath(b)
    ensures a == b
  {
    if a != [] && b != [] {
      TextPathInjective(a[..|a| - 1], b[..|b| - 1]);
      SameSegment(a[|a| - 1], b[|b| - 1]);
      InitLast(a);
      InitLast(b);
    }
  }

  /** In how many ways the trie search arrives at pattern `p` for topic `t`. A `*`
      that ends the pattern is taken once; otherwise it eats a proper prefix of
      what is left, so it never hands an empty rest on. */
  function Ways(p: Pattern, t: Topic): nat
    decreases |p|, 0
  {
    if p == [] then (if t == [] then 1 else 0)
    else match p[0]
      case Name(s) => if t != [] && t[0] == s then Ways(p[1..], t[1..]) else 0
      case Plus => if t != [] then Ways(p[1..], t[1..]) else 0
      case Star => (if |p| == 1 then 1 else 0) + WaysAfterStar(p[1..], t)
  }

  function WaysAfterStar(r: Pattern, t: Topic): nat
    decreases |r|, |t| + 1
  {
    if t == [] then 0 else Ways(r, t) + WaysAfterStar(r, t[1..])
  }

  /** The boolean reading of `Ways`. */
  ghost predicate Reaches(p: Pattern, t: Topic)
    decreases |p|
  {
    if p == [] then t == []
    else match p[0]
      case Name(s) => t != [] && t[0] == s && Reaches(p[1..], t[1..])
      case Plus => t != [] && Reaches(p[1..], t[1..])
      case Star => |p| == 1 || exists j | 0 <= j < |t| :: Reaches(p[1..], t[j..])
  }

  /** The documented meaning: `+` is one segment and `*` is zero or more. */
  ghost predicate Means(p: Pattern, t: Topic)
    decreases |p|
  {
    if p == [] then t == []
    else match p[0]
      case Name(s) => t != [] && t[0] == s && Means(p[1..], t[1..])
      case Plus => t != [] && Means(p[1..], t[1..])
      case Star => exists j | 0 <= j <= |t| :: Means(p[1..], t[j..])
  }

  lemma {:induction false} WaysAreReaches(p: Pattern, t: Topic)
    ensures Ways(p, t) > 0 <==> Reaches(p, t)
    decreases |p|, 0
  {
    if p != [] {
      match p[0]
      case Name(s) => if t != [] { WaysAreReaches(p[1..], t[1..]); }
      case Plus => if t != [] { WaysAreReaches(p[1..], t[1..]); }
      case Star => WaysAfterStarAreReaches(p[1..], t);
    }
  }

  lemma {:induction false} WaysAfterStarAreReaches(r: Pattern, t: Topic)
    ensures WaysAfterStar(r, t) > 0 <==> exists j | 0 <= j < |t| :: Reaches(r, t[j..])
    decreases |r|, |t| + 1
  {
    if t != [] {
      WaysAreReaches(r, t);
      WaysAfterStarAreReaches(r, t[1..]);
      Whole(t);
      assert forall j | 0 <= j < |t| - 1 :: t[1..][j..] == t[j + 1..];
      if j :| 0 <= j < |t| && Reaches(r, t[j..]) {
        if j > 0 {
          assert Reaches(r, t[1..][j - 1..]);
        }
      }
    }
  }

  predicate AllStars(p: Pattern) {
    forall i | 0 <= i < |p| :: p[i] == Star
  }

  predicate EndsInTwoStars(p: Pattern) {
    |p| >= 2 && p[|p| - 1] == Star && p[|p| - 2] == Star
  }

  /** A trailing run of two or more `*` replaced by `+` and `*`. */
  function Normal(p: Pattern): Pattern {
    if |p| >= 2 && AllStars(p) then [Plus, Star]
    else if p == [] then []
    else [p[0]] + Normal(p[1..])
  }

  lemma SingleStarMatchesAll(t: Topic)
    ensures Reaches([Star], t) && Means([Star], t)
  {
    assert Means([Star][1..], t[|t|..]);
  }

  lemma {:induction false} StarRunNeedsSegment(p: Pattern, t: Topic)
    requires |p| >= 2 && AllStars(p)
    ensures Reaches(p, t) <==> t != []
  {
    if t != [] {
      Whole(t);
      if |p| == 2 {
        assert p[1..] == [Star];
        SingleStarMatchesAll(t[0..]);
      } else {
        StarRunNeedsSegment(p[1..], t);
      }
      assert Reaches(p[1..], t[0..]);
    }
  }

  lemma PlusStarNeedsSegment(t: Topic)
    ensures Means([Plus, Star], t) <==> t != []
  {
    if t != [] {
      assert [Plus, Star][1..] == [Star];
      SingleStarMatchesAll(t[1..]);
    }
  }

  /** A pattern that is not only stars needs at least one segment. */
  lemma {:induction false} NotOnlyStarsNeedsSegment(p: Pattern)
    requires !AllStars(p)
    ensures !Means(p, [])
  {
    if p[0] == Star {
      NotOnlyStarsNeedsSegment(p[1..]);
      var e: Topic := [];
      Whole(e);
    }
  }

  lemma NormalKeepsNonStar(p: Pattern)
    requires p != [] && !(|p| == 1 && p[0] == Star)
    ensures !AllStars(Normal(p))
  {
    if |p| >= 2 && AllStars(p) {
      assert Normal(p)[0] == Plus;
    } else {
      var k :| 0 <= k < |p| && p[k] != Star;
      NormalKeeps(p, k);
    }
  }

  lemma {:induction false} NormalKeeps(p: Pattern, k: nat)
    requires k < |p| && p[k] != Star
    ensures k < |Normal(p)| && Normal(p)[k] == p[k]
  {
    assert !AllStars(p);
    if k > 0 {
      NormalKeeps(p[1..], k - 1);
    }
  }

  /** What the trie search matches, for every pattern: the documented meaning of the
      pattern in which a trailing run of two or more `*` reads as `+` then `*`. */
  lemma {:induction false} SearchMeaning(p: Pattern, t: Topic)
    ensures Reaches(p, t) <==> Means(Normal(p), t)
    decreases |p|
  {
    if |p| >= 2 && AllStars(p) {
      StarRunNeedsSegment(p, t);
      PlusStarNeedsSegment(t);
    } else if p != [] {
      var n := Normal(p);
      assert n[1..] == Normal(p[1..]);
      match p[0]
      case Name(s) => if t != [] { SearchMeaning(p[1..], t[1..]); }
      case Plus => if t != [] { SearchMeaning(p[1..], t[1..]); }
      case Star =>
        if |p| == 1 {
          assert p == [Star] && n == [Star];
          SingleStarMatchesAll(t);
        } else {
          forall j | 0 <= j < |t|
            ensures Reaches(p[1..], t[j..]) <==> Means(n[1..], t[j..])
          {
            SearchMeaning(p[1..], t[j..]);
          }
          assert !(|p[1..]| == 1 && p[1..][0] == Star);
          NormalKeepsNonStar(p[1..]);
          NotOnlyStarsNeedsSegment(n[1..]);
          assert t[|t|..] == [];
        }
    }
  }

  lemma {:induction false} NormalIsIdentity(p: Pattern)
    requires !EndsInTwoStars(p)
    ensures Normal(p) == p
  {
    if p != [] {
      NormalIsIdentity(p[1..]);
    }
  }

  /** A shortest topic with the documented meaning: one segment for every segment of
      the pattern that is not `*`. */
  function Shortest(p: Pattern): Topic {
    if p == [] then []
    else match p[0]
      case Name(s) => [s] + Shortest(p[1..])
      case Plus => [PLUS_TEXT] + Shortest(p[1..])
      case Star => Shortest(p[1..])
  }

  lemma {:induction false} ShortestIsMeant(p: Pattern)
    ensures Means(p, Shortest(p))
  {
    if p != [] {
      ShortestIsMeant(p[1..]);
      if p[0] == Star {
        assert Shortest(p)[0..] == Shortest(p[1..]);
      } else {
        assert Shortest(p)[1..] == Shortest(p[1..]);
      }
    }
  }

  lemma {:induction false} DoubleStarNeedsMore(p: Pattern, t: Topic)
    requires EndsInTwoStars(p) && Reaches(p, t)
    ensures |t| > |Shortest(p)|
    decreases |p|
  {
    assert |p| == 2 ==> AllStars(p);
    if AllStars(p) {
      StarRunNeedsSegment(p, t);
      OnlyStarsShortest(p);
    } else {
      assert |p| > 2;
      match p[0]
      case Name(s) => DoubleStarNeedsMore(p[1..], t[1..]);
      case Plus => DoubleStarNeedsMore(p[1..], t[1..]);
      case Star =>
        var j :| 0 <= j < |t| && Reaches(p[1..], t[j..]);
        DoubleStarNeedsMore(p[1..], t[j..]);
    }
  }

  lemma {:induction false} OnlyStarsShortest(p: Pattern)
    requires AllStars(p)
    ensures Shortest(p) == []
  {
    if p != [] {
      OnlyStarsShortest(p[1..]);
    }
  }

  /** The search has the documented meaning on every topic exactly for the patterns
      that do not end in two adjacent `*`. */
  lemma DocumentedMeaning(p: Pattern)
    ensures (forall t: Topic :: Reaches(p, t) <==> Means(p, t)) <==> !EndsInTwoStars(p)
  {
    if EndsInTwoStars(p) {
      var t := Shortest(p);
      ShortestIsMeant(p);
      if Reaches(p, t) {
        DoubleStarNeedsMore(p, t);
      }
      assert !(Reaches(p, t) <==> Means(p, t));
    } else {
      NormalIsIdentity(p);
      forall t: Topic
        ensures Reaches(p, t) <==> Means(p, t)
      {
        SearchMeaning(p, t);
      }
    }
  }

  // ------------------------------------------------------------------
  // The declarative meaning, segment by segment from the end

  /** What the first segment of a pattern may take: one segment, or any number for `*`. */
  predicate Takes(s: Seg, t: Topic, j: nat) {
    j <= |t| && (s == Star || (j == 1 && (s.Name? ==> t[0] == s.name)))
  }

  lemma MeansAt(p: Pattern, t: Topic, j: nat)
    requires p != [] && Takes(p[0], t, j) && Means(p[1..], t[j..])
    ensures Means(p, t)
  {
  }

  lemma MeansFirst(p: Pattern, t: Topic) returns (j: nat)
    requires p != [] && Means(p, t)
    ensures Takes(p[0], t, j) && Means(p[1..], t[j..])
  {
    if p[0] == Star {
      j :| 0 <= j <= |t| && Means(p[1..], t[j..]);
    } else {
      j := 1;
    }
  }

  lemma {:induction false} MeansJoin(p: Pattern, q: Pattern, t: Topic, k: nat)
    requires k <= |t| && Means(p, t[..k]) && Means(q, t[k..])
    ensures Means(p + q, t)
    decreases |p|
  {
    if p == [] {
      AppendNothing(q);
      Whole(t);
    } else {
      AppendTail(p, q);
      var j := MeansFirst(p, t[..k]);
      WindowAt(t, j, k);
      MeansJoin(p[1..], q, t[j..], k - j);
      MeansAt(p + q, t, j);
    }
  }

  lemma {:induction false} MeansSplit(p: Pattern, q: Pattern, t: Topic) returns (k: nat)
    requires Means(p + q, t)
    ensures k <= |t| && Means(p, t[..k]) && Means(q, t[k..])
    decreases |p|
  {
    if p == [] {
      AppendNothing(q);
      Whole(t);
      k := 0;
    } else {
      AppendTail(p, q);
      var j := MeansFirst(p + q, t);
      var i := MeansSplit(p[1..], q, t[j..]);
      k := j + i;
      WindowAt(t, j, k);
      MeansAt(p, t[..k], j);
    }
  }

  lemma OneSegment(s: Seg, t: Topic)
    ensures Means([s], t) <==>
            match s
            case Name(x) => t == [x]
            case Plus => |t| == 1
            case Star => true
  {
    assert [s][1..] == [];
    if s == Star {
      SingleStarMatchesAll(t);
    }
  }

  /** A last segment that is a name stands for itself, a last `+` for any one segment, and a
      last `*` for any number of them. With the empty pattern, which means the empty topic,
      this says what every pattern means. */
  lemma MeansLast(p: Pattern, s: Seg, t: Topic)
    ensures Means([], t) <==> t == []
    ensures Means(p + [s], t) <==>
            match s
            case Name(x) => t != [] && t[|t| - 1] == x && Means(p, t[..|t| - 1])
            case Plus => t != [] && Means(p, t[..|t| - 1])
            case Star => exists k | 0 <= k <= |t| :: Means(p, t[..k])
  {
    if Means(p + [s], t) {
      var k := MeansSplit(p, [s], t);
      OneSegment(s, t[k..]);
      assert s != Star ==> k == |t| - 1 && t[k..][0] == t[k];
    }
    if s == Star {
      if k :| 0 <= k <= |t| && Means(p, t[..k]) {
        OneSegment(s, t[k..]);
        MeansJoin(p, [s], t, k);
      }
    } else if t != [] && Means(p, t[..|t| - 1]) && (s.Name? ==> t[|t| - 1] == s.name) {
      OneSegment(s, t[|t| - 1..]);
      MeansJoin(p, [s], t, |t| - 1);
    }
  }

  // ------------------------------------------------------------------
  // From text to meaning

  /** The pattern that a subscription text stands for. */
  function TextPattern(text: bytes): (p: Pattern)
    ensures p == Segs(TextPath(Tokens(text)))
  {
    TextPathSegs(Tokens(text));
    ToPattern(Tokens(text))
  }

  /** What one segment of a text, "+", a star or a name, stands for. */
  lemma SegmentText(y: bytes)
    requires 47 !in y
    ensures TextPattern(y) ==
            if y == [] then [] else if y == [43] then [Plus] else if y == [42] then [Star] else [Name(y)]
  {
    TokensWithoutSlash(y);
  }

  lemma ToPatternAppend(a: Topic, b: Topic)
    ensures ToPattern(a + b) == ToPattern(a) + ToPattern(b)
  {
  }

  /** Slashes put patterns together. With `SegmentText` this reads every text. */
  lemma SlashText(x: bytes, y: bytes)
    ensures TextPattern(x + [47] + y) == TextPattern(x) + TextPattern(y)
  {
    TokensAtSlash(x, y);
    ToPatternAppend(Tokens(x), Tokens(y));
  }

  lemma PlainEnd(p: Pattern, s: Seg)
    requires s != Star
    ensures !EndsInTwoStars(p + [s])
  {
  }

  lemma OneStarEnd(p: Pattern)
    requires p == [] || p[|p| - 1] != Star
    ensures !EndsInTwoStars(p + [Star])
  {
  }

  /** A subscription to `x` followed by a slash and a plus is reached by the topics that are one segment
      longer than what `x` means. */
  lemma PlusText(x: bytes, t: Topic)
    ensures Reaches(TextPattern(x + [47, 43]), t) <==> t != [] && Means(TextPattern(x), t[..|t| - 1])
  {
    SlashText(x, [43]);
    SegmentText([43]);
    AppendPair(x, 47, 43);
    PlainEnd(TextPattern(x), Plus);
    DocumentedMeaning(TextPattern(x) + [Plus]);
    MeansLast(TextPattern(x), Plus, t);
  }

  /** A subscription to `x` followed by a slash and a name is reached by the topics that `x`
      means with that name behind them. */
  lemma NameText(x: bytes, y: bytes, t: Topic)
    requires y != [] && 47 !in y && y != [43] && y != [42]
    ensures Reaches(TextPattern(x + [47] + y), t) <==>
            t != [] && t[|t| - 1] == y && Means(TextPattern(x), t[..|t| - 1])
  {
    SlashText(x, y);
    SegmentText(y);
    PlainEnd(TextPattern(x), Name(y));
    DocumentedMeaning(TextPattern(x) + [Name(y)]);
    MeansLast(TextPattern(x), Name(y), t);
  }

  /** A subscription to `x` followed by a slash and a star, where `x` does not end in a star itself, is
      reached by the topics that begin with something `x` means. */
  lemma StarText(x: bytes, t: Topic)
    requires var p := TextPattern(x); p == [] || p[|p| - 1] != Star
    ensures Reaches(TextPattern(x + [47, 42]), t) <==> exists k | 0 <= k <= |t| :: Means(TextPattern(x), t[..k])
  {
    SlashText(x, [42]);
    SegmentText([42]);
    AppendPair(x, 47, 42);
    OneStarEnd(TextPattern(x));
    DocumentedMeaning(TextPattern(x) + [Star]);
    MeansLast(TextPattern(x), Star, t);
  }

  /** The segments of the texts in the example below. */
  lemma TwoStarsText()
    ensures Tokens([97, 47, 42, 47, 42]) == [[97], [42], [42]] && Tokens([97, 47, 42]) == [[97], [42]]
    ensures Tokens([97]) == [[97]]
  {
    var a: Topic := [[97]];
    var b: Topic := [[42]];
    TokensWithoutSlash([97]);
    TokensWithoutSlash([42]);
    TokensAtSlash([97], [42]);
    TokensAtSlash([97, 47, 42], [42]);
    assert [97] + [47] + [42] == [97, 47, 42];
    assert [97, 47, 42] + [47] + [42] == [97, 47, 42, 47, 42];
  }

  /** A name followed by two stars does not match the topic of that name alone. */
  lemma TwoStarsMissParent(a: bytes)
    ensures Means([Name(a), Star, Star], [a]) && !Reaches([Name(a), Star, Star], [a])
    ensures Reaches([Name(a), Star], [a])
  {
    var p := [Name(a), Star, Star];
    assert p[1..] == [Star, Star] && p[1..][1..] == [Star] && [Name(a), Star][1..] == [Star];
    ShortestIsMeant(p);
    OnlyStarsShortest([Star, Star]);
    assert Shortest(p) == [a];
    if Reaches(p, [a]) {
      DoubleStarNeedsMore(p, [a]);
    }
    SingleStarMatchesAll([a][1..]);
  }

  /** The subscription text made of `a` and two stars misses the topic text `a`, though by
      the documented meaning it should match; with one star it does match. */
  lemma TwoTrailingStarsMissParent()
    ensures var once, twice, t := TextPattern([97, 47, 42]), TextPattern([97, 47, 42, 47, 42]), Tokens([97]);
      Reaches(once, t) && !Reaches(twice, t) && Means(twice, t)
  {
    TwoStarsText();
    PatternsOfThose([97]);
    TwoStarsMissParent([97]);
  }

  lemma PatternsOfThose(a: bytes)
    requires a != PLUS_TEXT && a != STAR_TEXT
    ensures ToPattern([a, STAR_TEXT]) == [Name(a), Star]
    ensures ToPattern([a, STAR_TEXT, STAR_TEXT]) == [Name(a), Star, Star]
  {
  }
}
