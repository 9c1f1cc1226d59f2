/** The arithmetic of the publish search: how often a client's patterns, taken
    together, are reached from a given node with a given rest of the topic. */
module Search {
  import opened Bytes
  import opened Topics
  import opened Patterns
  import opened Index

  /** The segments on the way down from `q` to `p`. */
  function Tail(q: Path, p: Path): Pattern {
    if p == q || p.Root? then [] else Tail(q, p.up) + [p.seg]
  }

  /** Arrivals at `p` when the search stands on node `q` with `t` left to match. */
  function WaysFrom(q: Path, p: Path, t: Topic): nat {
    if Above(q, p) then Ways(Tail(q, p), t) else 0
  }

  function StarFrom(k: Path, p: Path, t: Topic): nat {
    if t == [] then 0 else WaysFrom(k, p, t) + StarFrom(k, p, t[1..])
  }

  function TotalWays(ps: seq<Path>, q: Path, t: Topic): nat {
    if ps == [] then 0 else WaysFrom(q, ps[0], t) + TotalWays(ps[1..], q, t)
  }

  function TotalStar(ps: seq<Path>, k: Path, t: Topic): nat
    decreases t
  {
    if t == [] then 0 else TotalWays(ps, k, t) + TotalStar(ps, k, t[1..])
  }

  lemma {:induction false} RootIsAbove(p: Path)
    ensures Above(Root, p) && Tail(Root, p) == Segs(p)
  {
    if p.Kid? {
      RootIsAbove(p.up);
    }
  }

  /** The way down from `q` to a proper descendant starts with exactly one child. */
  lemma {:induction false} FirstStep(q: Path, p: Path)
    requires Above(q, p) && p != q
    ensures var way := Tail(q, p);
      && way != []
      && Above(Kid(q, way[0]), p)
      && Tail(Kid(q, way[0]), p) == way[1..]
      && (forall s {:trigger Above(Kid(q, s), p)} | s != way[0] :: !Above(Kid(q, s), p))
  {
    if p.up == q {
      forall s ensures !Above(Kid(q, s), q) { AboveIsShallower(Kid(q, s), q); }
    } else {
      FirstStep(q, p.up);
      assert p != Kid(q, p.seg);
    }
  }

  lemma {:induction false} NotAboveSelf(q: Path, p: Path, s: Seg)
    ensures Above(Kid(q, s), p) ==> Above(q, p) && p != q
  {
    if Above(Kid(q, s), p) {
      AboveParent(Kid(q, s), p);
      AboveIsShallower(Kid(q, s), p);
    }
  }

  lemma {:induction false} StarFromTail(k: Path, p: Path, t: Topic)
    ensures StarFrom(k, p, t) == if Above(k, p) then WaysAfterStar(Tail(k, p), t) else 0
  {
    if t != [] {
      StarFromTail(k, p, t[1..]);
    }
  }

  /** What the search does at one node, for one pattern. */
  lemma OneStep(q: Path, p: Path, t: Topic)
    ensures WaysFrom(q, p, t) ==
            (if p == q && t == [] then 1 else 0)
            + (if p == Kid(q, Star) then 1 else 0)
            + StarFrom(Kid(q, Star), p, t)
            + (if t == [] then 0 else WaysFrom(Kid(q, Name(t[0])), p, t[1..]) + WaysFrom(Kid(q, Plus), p, t[1..]))
  {
    StarFromTail(Kid(q, Star), p, t);
    if Above(q, p) && p != q {
      FirstStep(q, p);
      var way := Tail(q, p);
      assert way[0] == Star ==> (|way| == 1 <==> p == Kid(q, Star)) by {
        EmptyTail(Kid(q, way[0]), p);
      }
    } else {
      NotAboveSelf(q, p, Star);
      NotAboveSelf(q, p, Plus);
      if t != [] {
        NotAboveSelf(q, p, Name(t[0]));
      }
    }
  }

  lemma EmptyTail(q: Path, p: Path)
    requires Above(q, p)
    ensures Tail(q, p) == [] <==> p == q
  {
  }

  lemma {:induction false} TotalStarCons(p: Path, ps: seq<Path>, k: Path, t: Topic)
    ensures TotalStar([p] + ps, k, t) == StarFrom(k, p, t) + TotalStar(ps, k, t)
    decreases t
  {
    if t != [] {
      ConsTail(p, ps);
      TotalStarCons(p, ps, k, t[1..]);
    }
  }

  /** What the search does at one node, for all patterns of a client. */
  lemma {:induction false} TotalStep(ps: seq<Path>, q: Path, t: Topic)
    ensures TotalWays(ps, q, t) ==
            (if t == [] then multiset(ps)[q] else 0)
            + multiset(ps)[Kid(q, Star)]
            + TotalStar(ps, Kid(q, Star), t)
            + (if t == [] then 0 else TotalWays(ps, Kid(q, Name(t[0])), t[1..]) + TotalWays(ps, Kid(q, Plus), t[1..]))
    decreases ps
  {
    if ps == [] {
      TotalStarOfNone(Kid(q, Star), t);
    } else {
      HeadTail(ps);
      OneStep(q, ps[0], t);
      TotalStarCons(ps[0], ps[1..], Kid(q, Star), t);
      TotalStep(ps[1..], q, t);
    }
  }

  lemma {:induction false} TotalStarOfNone(k: Path, t: Topic)
    ensures TotalStar([], k, t) == 0
    decreases t
  {
    if t != [] {
      TotalStarOfNone(k, t[1..]);
    }
  }

  /** Below a node that does not exist there is nothing to find. */
  lemma {:induction false} NoWaysBelowNothing(ps: seq<Path>, q: Path, t: Topic)
    requires forall i | 0 <= i < |ps| :: !Above(q, ps[i])
    ensures TotalWays(ps, q, t) == 0 && TotalStar(ps, q, t) == 0
    decreases ps, t
  {
    if ps != [] {
      NoWaysBelowNothing(ps[1..], q, t);
    }
    if t != [] {
      NoWaysBelowNothing(ps, q, t[1..]);
    }
  }

  /** Below a path that is not in the trie no pattern of any client is found. */
  lemma NothingBelowMissing<C>(st: Store<C>, c: C, k: Path, t: Topic)
    requires Good(st) && c in st.refs && k !in st.view
    ensures TotalWays(st.refs[c], k, t) == 0 && TotalStar(st.refs[c], k, t) == 0 && multiset(st.refs[c])[k] == 0
  {
    RefsAreLive(st, c);
    forall i | 0 <= i < |st.refs[c]|
      ensures !Above(k, st.refs[c][i])
    {
      if Above(k, st.refs[c][i]) {
        PrefixIsLive(st.view, k, st.refs[c][i]);
      }
    }
    NoWaysBelowNothing(st.refs[c], k, t);
    assert k !in st.refs[c];
  }

  function SumOfWays(ps: seq<Path>, t: Topic): nat {
    if ps == [] then 0 else Ways(Segs(ps[0]), t) + SumOfWays(ps[1..], t)
  }

  /** From the root, every pattern is counted once for each way of reaching it. */
  lemma {:induction false} TotalFromRoot(ps: seq<Path>, t: Topic)
    ensures TotalWays(ps, Root, t) == SumOfWays(ps, t)
  {
    if ps != [] {
      RootIsAbove(ps[0]);
      TotalFromRoot(ps[1..], t);
    }
  }

  /** From the root, the total is positive exactly when some pattern is reached. */
  lemma {:induction false} TotalIsPositive(ps: seq<Path>, t: Topic)
    ensures TotalWays(ps, Root, t) > 0 <==> exists i | 0 <= i < |ps| :: Reaches(Segs(ps[i]), t)
  {
    if ps != [] {
      RootIsAbove(ps[0]);
      WaysAreReaches(Segs(ps[0]), t);
      TotalIsPositive(ps[1..], t);
      if i :| 0 <= i < |ps| && Reaches(Segs(ps[i]), t) {
        assert i > 0 ==> Reaches(Segs(ps[1..][i - 1]), t);
      }
    }
  }

  /** One of the client's live patterns is reached from the root for topic `t`. */
  ghost predicate Interested<C>(st: Store<C>, c: C, t: Topic) {
    c in st.refs && exists i | 0 <= i < |st.refs[c]| :: Reaches(Segs(st.refs[c][i]), t)
  }

  // ------------------------------------------------------------------
  // The list the search builds

  function Reversed<T>(s: seq<T>): (r: seq<T>)
    ensures multiset(r) == multiset(s)
  {
    if s == [] then []
    else
      InitLast(s);
      [s[|s| - 1]] + Reversed(s[..|s| - 1])
  }

  /** One entry more, copied to the front of a list. */
  lemma ReversedStep<T>(s: seq<T>, i: nat, out: seq<T>)
    requires i < |s|
    ensures Reversed(s[..i + 1]) + out == [s[i]] + (Reversed(s[..i]) + out)
  {
    Snoc(s, i);
    assert s[..i + 1][..i] == s[..i];
    AppendAssoc([s[i]], Reversed(s[..i]), out);
  }

  /** The list that `collect` makes of `out` at the node at `p`; it grows at the front. */
  ghost function Collected<C>(v: View<C>, p: Path, t: Topic, out: seq<C>): seq<C>
    requires WellFormed(v)
    decreases MAX_SEGMENTS - Depth(p), 0, 0
  {
    if p !in v then out
    else
      assert Fits(p);
      var viaStar := Eaten(v, Kid(p, Star), t, Pushed(v, Kid(p, Star), out));
      if t == [] then Pushed(v, p, viaStar)
      else Collected(v, Kid(p, Plus), t[1..], Collected(v, Kid(p, Name(t[0])), t[1..], viaStar))
  }

  /** What the loop that eats levels makes of `out` below the `*` node at `k`. */
  ghost function Eaten<C>(v: View<C>, k: Path, t: Topic, out: seq<C>): seq<C>
    requires WellFormed(v)
    decreases MAX_SEGMENTS - Depth(k), 1, |t|
  {
    if t == [] then out else Eaten(v, k, t[1..], Collected(v, k, t, out))
  }

  /** The subscribers of a node, copied to the front one by one. */
  function Pushed<C>(v: View<C>, p: Path, out: seq<C>): seq<C> {
    Reversed(SubsAt(v, p)) + out
  }

  lemma {:induction false} NothingEaten<C>(v: View<C>, k: Path, t: Topic, out: seq<C>)
    requires WellFormed(v) && k !in v
    ensures Eaten(v, k, t, Pushed(v, k, out)) == out
    decreases |t|
  {
    AppendNothing(out);
    if t != [] {
      NothingEaten(v, k, t[1..], out);
    }
  }

  lemma EatenStep<C>(v: View<C>, k: Path, t: Topic, j: nat, out: seq<C>)
    requires WellFormed(v) && j < |t|
    ensures Eaten(v, k, t[j..], out) == Eaten(v, k, t[j + 1..], Collected(v, k, t[j..], out))
  {
    SliceStep(t, j);
  }

  lemma PushedCounts<C>(st: Store<C>, c: C, p: Path, out: seq<C>)
    requires Agree(st) && c in st.refs
    ensures multiset(Pushed(st.view, p, out))[c] == multiset(out)[c] + multiset(st.refs[c])[p]
  {
    assert multiset(SubsAt(st.view, p))[c] == multiset(st.refs[c])[p];
  }

  /** Each client enters the list once for each way in which one of its patterns is
      reached. */
  lemma {:induction false} CollectedCounts<C>(st: Store<C>, c: C, p: Path, t: Topic, out: seq<C>)
    requires Good(st) && c in st.refs
    ensures multiset(Collected(st.view, p, t, out))[c] == multiset(out)[c] + TotalWays(st.refs[c], p, t)
    decreases MAX_SEGMENTS - Depth(p), 0, 0
  {
    if p !in st.view {
      NothingBelowMissing(st, c, p, t);
    } else {
      var v, k := st.view, Kid(p, Star);
      assert Fits(p);
      TotalStep(st.refs[c], p, t);
      PushedCounts(st, c, k, out);
      var viaStar := Eaten(v, k, t, Pushed(v, k, out));
      EatenCounts(st, c, k, t, Pushed(v, k, out));
      if t == [] {
        PushedCounts(st, c, p, viaStar);
      } else {
        CollectedCounts(st, c, Kid(p, Name(t[0])), t[1..], viaStar);
        CollectedCounts(st, c, Kid(p, Plus), t[1..], Collected(v, Kid(p, Name(t[0])), t[1..], viaStar));
      }
    }
  }

  lemma {:induction false} EatenCounts<C>(st: Store<C>, c: C, k: Path, t: Topic, out: seq<C>)
    requires Good(st) && c in st.refs
    ensures multiset(Eaten(st.view, k, t, out))[c] == multiset(out)[c] + TotalStar(st.refs[c], k, t)
    decreases MAX_SEGMENTS - Depth(k), 1, |t|
  {
    if t != [] {
      CollectedCounts(st, c, k, t, out);
      EatenCounts(st, c, k, t[1..], Collected(st.view, k, t, out));
    }
  }

  lemma PushedKnown<C>(st: Store<C>, c: C, p: Path, out: seq<C>)
    requires Agree(st) && c in Pushed(st.view, p, out) && c !in out
    ensures c in st.refs
  {
    assert c in Reversed(SubsAt(st.view, p));
    assert c in multiset(SubsAt(st.view, p));
    assert c in SubsAt(st.view, p);
  }

  /** Nobody else enters it. */
  lemma {:induction false} CollectedKnown<C>(st: Store<C>, c: C, p: Path, t: Topic, out: seq<C>)
    requires Good(st) && c in Collected(st.view, p, t, out) && c !in out
    ensures c in st.refs
    decreases MAX_SEGMENTS - Depth(p), 0, 0
  {
    if c !in st.refs {
      var v, k := st.view, Kid(p, Star);
      assert Fits(p);
      var pushed := Pushed(v, k, out);
      var viaStar := Eaten(v, k, t, pushed);
      if c in pushed {
        PushedKnown(st, c, k, out);
      } else if c in viaStar {
        EatenKnown(st, c, k, t, pushed);
      } else if t == [] {
        PushedKnown(st, c, p, viaStar);
      } else {
        var exact := Collected(v, Kid(p, Name(t[0])), t[1..], viaStar);
        if c in exact {
          CollectedKnown(st, c, Kid(p, Name(t[0])), t[1..], viaStar);
        } else {
          CollectedKnown(st, c, Kid(p, Plus), t[1..], exact);
        }
      }
    }
  }

  lemma {:induction false} EatenKnown<C>(st: Store<C>, c: C, k: Path, t: Topic, out: seq<C>)
    requires Good(st) && c in Eaten(st.view, k, t, out) && c !in out
    ensures c in st.refs
    decreases MAX_SEGMENTS - Depth(k), 1, |t|
  {
    if c in Collected(st.view, k, t, out) {
      CollectedKnown(st, c, k, t, out);
    } else {
      EatenKnown(st, c, k, t[1..], Collected(st.view, k, t, out));
    }
  }

  /** What `collect` finds from the root. */
  ghost function Gather<C>(v: View<C>, t: Topic): seq<C>
    requires WellFormed(v)
  {
    Collected(v, Root, t, [])
  }

  /** A client is on the list for a topic exactly if one of its patterns is reached. */
  lemma GatheredAreInterested<C>(st: Store<C>, c: C, t: Topic)
    requires Good(st)
    ensures c in Gather(st.view, t) <==> Interested(st, c, t)
  {
    var list := Gather(st.view, t);
    if c in list {
      CollectedKnown(st, c, Root, t, []);
    }
    if c in st.refs {
      CollectedCounts(st, c, Root, t, []);
      TotalIsPositive(st.refs[c], t);
      assert c in list <==> c in multiset(list);
    }
  }

  // ------------------------------------------------------------------
  // Who is sent to

  const MAX_RECEIVERS: nat := 1024

  /** The distinct entries of a list, each where it comes up first. */
  function Distinct<C(==)>(list: seq<C>): seq<C> {
    if list == [] then []
    else
      var before, c := Distinct(list[..|list| - 1]), list[|list| - 1];
      if c in before then before else before + [c]
  }

  function Shortened<C>(list: seq<C>): seq<C> {
    if |list| > MAX_RECEIVERS then list[..MAX_RECEIVERS] else list
  }

  /** The deduplicating loop, one entry further on. */
  lemma DistinctStep<C>(list: seq<C>, i: nat)
    requires i < |list|
    ensures var seen, c := Shortened(Distinct(list[..i])), list[i];
      Shortened(Distinct(list[..i + 1])) == if c !in seen && |seen| < MAX_RECEIVERS then seen + [c] else seen
  {
    assert list[..i + 1][..i] == list[..i];
  }

  /** The receivers of a publication, in the order of the sends. */
  ghost function Audience<C>(v: View<C>, t: Topic): seq<C>
    requires WellFormed(v)
  {
    Shortened(Distinct(Gather(v, t)))
  }

  /** What has come up so far comes first, in the order in which it did, whatever follows. */
  lemma {:induction false} DistinctPrefix<C>(a: seq<C>, b: seq<C>)
    ensures Distinct(a) <= Distinct(a + b)
    decreases |b|
  {
    if b == [] {
      AppendNothing(a);
    } else {
      InitLast(b);
      AppendAssoc(a, b[..|b| - 1], [b[|b| - 1]]);
      DistinctPrefix(a, b[..|b| - 1]);
      SnocParts(a + b[..|b| - 1], b[|b| - 1]);
    }
  }

  lemma {:induction false} DistinctMeans<C>(list: seq<C>)
    ensures NoDuplicates(Distinct(list)) && forall c :: c in Distinct(list) <==> c in list
  {
    if list != [] {
      DistinctMeans(list[..|list| - 1]);
      InitLast(list);
    }
  }

  /** All clients with a live pattern that is reached for topic `t`. */
  ghost function Receivers<C>(st: Store<C>, t: Topic): set<C> {
    set c | c in st.refs && Interested(st, c, t)
  }

  /** The audience is duplicate-free and consists of interested clients: of all of them,
      if they are no more than 1024, and of 1024 otherwise. */
  lemma AudienceMeans<C>(st: Store<C>, t: Topic)
    requires Good(st)
    ensures var seen, all := Audience(st.view, t), Receivers(st, t);
      && NoDuplicates(seen) && (forall c | c in seen :: c in all)
      && |seen| == if |all| < MAX_RECEIVERS then |all| else MAX_RECEIVERS
  {
    var list, all := Distinct(Gather(st.view, t)), Receivers(st, t);
    GatheredAre(st, t);
    ShortenedMeans(list, all);
  }

  /** Only interested clients are in the audience, and all of them if they are no more than
      the limit. */
  lemma AudienceIsInterested<C>(st: Store<C>, c: C, t: Topic)
    requires Good(st)
    ensures var seen := Audience(st.view, t);
      && (c in seen ==> Interested(st, c, t))
      && (Interested(st, c, t) && |Receivers(st, t)| <= MAX_RECEIVERS ==> c in seen)
  {
    var list, all := Distinct(Gather(st.view, t)), Receivers(st, t);
    GatheredAre(st, t);
    ShortenedMeans(list, all);
    ListSize(list, all);
    assert c in list <==> c in all;
  }

  /** The audience misses nobody exactly if there are no more than 1024 interested clients. */
  lemma AudienceIsEverybody<C>(st: Store<C>, t: Topic)
    requires Good(st)
    ensures (forall c | Interested(st, c, t) :: c in Audience(st.view, t)) <==> |Receivers(st, t)| <= MAX_RECEIVERS
  {
    var seen, all := Audience(st.view, t), Receivers(st, t);
    AudienceMeans(st, t);
    if forall c | Interested(st, c, t) :: c in seen {
      assert forall c | c in all :: Interested(st, c, t);
      ListSize(seen, all);
    } else {
      var c :| Interested(st, c, t) && c !in seen;
      AudienceIsInterested(st, c, t);
    }
  }

  /** The distinct entries of the list for a topic are the interested clients. */
  lemma GatheredAre<C>(st: Store<C>, t: Topic)
    requires Good(st)
    ensures var list := Distinct(Gather(st.view, t));
      NoDuplicates(list) && forall c :: c in list <==> c in Receivers(st, t)
  {
    DistinctMeans(Gather(st.view, t));
    forall c
      ensures c in Distinct(Gather(st.view, t)) <==> c in Receivers(st, t)
    {
      GatheredAreInterested(st, c, t);
    }
  }

  lemma ShortenedMeans<C>(list: seq<C>, all: set<C>)
    requires NoDuplicates(list) && forall c :: c in list <==> c in all
    ensures var seen := Shortened(list);
      && NoDuplicates(seen) && (forall c | c in seen :: c in all)
      && |seen| == if |all| < MAX_RECEIVERS then |all| else MAX_RECEIVERS
  {
    ListSize(list, all);
  }

  lemma {:induction false} ListSize<C>(list: seq<C>, all: set<C>)
    requires NoDuplicates(list) && forall c :: c in list <==> c in all
    ensures |list| == |all|
  {
    if list != [] {
      var c, rest := list[0], list[1..];
      HeadTail(list);
      assert forall d :: d in rest <==> d in all - {c};
      ListSize(rest, all - {c});
    }
  }
}
