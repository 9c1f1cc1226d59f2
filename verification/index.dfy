/** The subscription index as a value. A `View` is the trie seen from outside: for
    every node, named by its path, the order of its named children and of its
    subscribers. A `Store` adds every client's list of back-references. The heap
    trie in module TopicTrie is proved to follow these functions step by step. */
module Index {
  import opened Bytes
  import opened Topics
  import opened Patterns

  datatype Entry<C> = Entry(names: seq<bytes>, subs: seq<C>)
  type View<C> = map<Path, Entry<C>>
  datatype Store<C> = Store(view: View<C>, refs: map<C, seq<Path>>)

  function Depth(p: Path): nat {
    if p.Root? then 0 else Depth(p.up) + 1
  }

  /** Short enough for the segment array, and free of names no child list holds. */
  predicate Fits(p: Path) {
    Depth(p) <= MAX_SEGMENTS && ProperPath(p)
  }

  predicate ProperPath(p: Path) {
    p.Kid? ==> ProperSeg(p.seg) && ProperPath(p.up)
  }

  lemma {:induction false} TextPathFits(parts: Topic)
    requires |parts| <= MAX_SEGMENTS && forall tok | tok in parts :: CleanToken(tok)
    ensures Fits(TextPath(parts)) && Depth(TextPath(parts)) == |parts|
  {
    if parts != [] {
      assert CleanToken(parts[|parts| - 1]);
      TextPathFits(parts[..|parts| - 1]);
    }
  }

  /** `q` lies on the way from the root to `p`, ends included. */
  predicate Above(q: Path, p: Path) {
    q == p || (p.Kid? && Above(q, p.up))
  }

  // ------------------------------------------------------------------
  // Well-formed and canonical tries

  ghost predicate NoDuplicates<T>(s: seq<T>) {
    forall i, j | 0 <= i < j < |s| :: s[i] != s[j]
  }

  ghost predicate Closed<C>(v: View<C>) {
    Root in v && forall p {:trigger p.up} | p in v && p.Kid? :: p.up in v
  }

  ghost predicate Named<C>(v: View<C>) {
    forall p, s: bytes {:trigger Kid(p, Name(s))} | p in v :: Kid(p, Name(s)) in v <==> s in v[p].names
  }

  ghost predicate Bounded<C>(v: View<C>) {
    && (forall p {:trigger Fits(p)} | p in v :: Fits(p))
    && (forall p {:trigger v[p]} | p in v :: NoDuplicates(v[p].names))
  }

  /** The view is a tree: closed under parents, with distinct and proper child names
      that are exactly the named nodes below. */
  ghost predicate WellFormed<C>(v: View<C>) {
    Closed(v) && Named(v) && Bounded(v)
  }

  /** `node_is_empty` */
  ghost predicate Empty<C>(v: View<C>, p: Path)
    requires p in v
  {
    v[p].subs == [] && v[p].names == [] && Kid(p, Plus) !in v && Kid(p, Star) !in v
  }

  /** Only the root, and possibly `q`, may be empty. */
  ghost predicate CanonicalBut<C>(v: View<C>, q: Path) {
    forall p {:trigger Empty(v, p)} | p in v && p.Kid? && p != q :: !Empty(v, p)
  }

  ghost predicate Canonical<C>(v: View<C>) {
    CanonicalBut(v, Root)
  }

  function SubsAt<C>(v: View<C>, p: Path): seq<C> {
    if p in v then v[p].subs else []
  }

  /** Subscriber lists and back-reference lists say the same, with multiplicity. */
  ghost predicate Agree<C>(st: Store<C>) {
    && (forall c, p | c in st.refs :: multiset(SubsAt(st.view, p))[c] == multiset(st.refs[c])[p])
    && (forall p, c | p in st.view && c in st.view[p].subs :: c in st.refs)
  }

  ghost predicate Good<C>(st: Store<C>) {
    WellFormed(st.view) && Canonical(st.view) && Agree(st)
  }

  // ------------------------------------------------------------------
  // The steps of the trie code

  /** `get_or_create_child` and its two wildcard twins, when the child is missing. */
  ghost function Link<C>(v: View<C>, p: Path): View<C>
    requires p.Kid? && p.up in v
  {
    var up := v[p.up];
    var names := if p.seg.Name? then [p.seg.name] + up.names else up.names;
    v[p.up := Entry(names, up.subs)][p := Entry([], [])]
  }

  /** The unlinking half of `node_remove_if_empty`. */
  ghost function Unlink<C>(v: View<C>, p: Path): View<C>
    requires p in v && p.Kid? && p.up in v
  {
    var up := v[p.up];
    var names := if p.seg.Name? then RemoveFirst(up.names, p.seg.name) else up.names;
    (v - {p})[p.up := Entry(names, up.subs)]
  }

  /** Walking down to `p`, creating what is missing. */
  ghost function Grow<C>(v: View<C>, p: Path): (w: View<C>)
    requires Root in v
    ensures p in w
    decreases p
  {
    if p in v then v
    else
      var w := Grow(v, p.up);
      Link(w, p)
  }

  /** `node_remove_if_empty` */
  ghost function Prune<C>(v: View<C>, p: Path): View<C>
    decreases p
  {
    if p in v && p.Kid? && Empty(v, p) && p.up in v then Prune(Unlink(v, p), p.up) else v
  }

  ghost function PushSub<C>(v: View<C>, p: Path, c: C): View<C>
    requires p in v
  {
    v[p := Entry(v[p].names, [c] + v[p].subs)]
  }

  ghost function DropSub<C>(v: View<C>, p: Path, c: C): View<C>
    requires p in v
  {
    v[p := Entry(v[p].names, RemoveFirst(v[p].subs, c))]
  }

  /** `trie_subscribe`, once the pattern is split and short enough. */
  ghost function Subscribe<C>(st: Store<C>, c: C, p: Path): Store<C>
    requires Root in st.view && c in st.refs
  {
    Store(PushSub(Grow(st.view, p), p, c), st.refs[c := [p] + st.refs[c]])
  }

  /** `remove_subscriber_from_node` together with the removal of one back-reference. */
  ghost function Unsubscribe<C>(st: Store<C>, c: C, p: Path): Store<C>
    requires p in st.view && c in st.refs
  {
    Store(Prune(DropSub(st.view, p, c), p), st.refs[c := RemoveFirst(st.refs[c], p)])
  }

  /** `cleanup_client_subscriptions`: the client's references from the newest on. */
  ghost function Cleanup<C>(st: Store<C>, c: C): Store<C>
    requires c in st.refs && Good(st)
    decreases |st.refs[c]|
  {
    if st.refs[c] == [] then st
    else
      var p := st.refs[c][0];
      RefIsLive(st, c, 0);
      UnsubscribeKeeps(st, c, p);
      Cleanup(Unsubscribe(st, c, p), c)
  }

  // ------------------------------------------------------------------
  // What the steps keep

  /** A new named child is the first in its parent's list; no other list of children changes. */
  lemma LinkNames<C>(v: View<C>, p: Path)
    requires p.Kid? && p.up in v && p !in v
    ensures var w := Link(v, p);
      && w[p].names == [] && w[p.up].names == (if p.seg.Name? then [p.seg.name] + v[p.up].names else v[p.up].names)
      && forall q | q in v && q != p.up :: w[q].names == v[q].names
  {
  }

  lemma LinkKeeps<C>(v: View<C>, p: Path)
    requires WellFormed(v) && p.Kid? && p.up in v && p !in v && Fits(p)
    requires CanonicalBut(v, p.up)
    ensures WellFormed(Link(v, p)) && CanonicalBut(Link(v, p), p)
    ensures forall q :: SubsAt(Link(v, p), q) == SubsAt(v, q)
  {
    var w := Link(v, p);
    forall q, s: bytes | q in w
      ensures Kid(q, Name(s)) in w <==> s in w[q].names
    {
      if q == p {
        assert Kid(p, Name(s)).up == p;
        assert Kid(p, Name(s)) !in v;
      }
    }
    forall q | q in w && q.Kid? && q != p
      ensures !Empty(w, q)
    {
      assert q in v;
      if q != p.up {
        assert !Empty(v, q);
      }
    }
  }

  lemma {:induction false} AboveIsShallower(q: Path, p: Path)
    ensures Above(q, p) ==> Depth(q) <= Depth(p)
  {
    if q != p && p.Kid? {
      AboveIsShallower(q, p.up);
    }
  }

  lemma {:induction false} TextPathAbove(parts: Topic, i: nat)
    requires i <= |parts|
    ensures Above(TextPath(parts[..i]), TextPath(parts))
    decreases |parts|
  {
    if i < |parts| {
      var up := parts[..|parts| - 1];
      TextPathAbove(up, i);
      assert up[..i] == parts[..i];
    } else {
      assert parts[..i] == parts;
    }
  }

  lemma {:induction false} AboveParent(q: Path, p: Path)
    requires q.Kid? && Above(q, p)
    ensures Above(q.up, p)
  {
    if q != p {
      AboveParent(q, p.up);
    } else {
      assert Above(q.up, p.up);
    }
  }

  lemma {:induction false} GrowKeeps<C>(v: View<C>, p: Path)
    requires WellFormed(v) && Canonical(v) && Fits(p)
    ensures WellFormed(Grow(v, p)) && CanonicalBut(Grow(v, p), p)
    ensures forall q :: SubsAt(Grow(v, p), q) == SubsAt(v, q)
    decreases p
  {
    if p !in v {
      GrowKeeps(v, p.up);
      GrowKeys(v, p.up);
      AboveIsShallower(p, p.up);
      LinkKeeps(Grow(v, p.up), p);
    }
  }

  /** Growing adds prefixes of the path, nothing else. */
  lemma {:induction false} GrowKeys<C>(v: View<C>, p: Path)
    requires WellFormed(v)
    ensures forall q :: q in Grow(v, p) <==> q in v || Above(q, p)
    decreases p
  {
    if p in v {
      forall q | Above(q, p) ensures q in v { PrefixIsLive(v, q, p); }
    } else {
      GrowKeys(v, p.up);
    }
  }

  /** One step of the walk that creates what is missing. */
  lemma GrowStep<C>(v: View<C>, p: Path, s: Seg)
    requires WellFormed(v)
    ensures var w, k := Grow(v, p), Kid(p, s); Grow(v, k) == if k in w then w else Link(w, k)
  {
    var k := Kid(p, s);
    GrowKeys(v, p);
    AboveIsShallower(k, p);
    if k in v {
      assert k.up in v;
    }
  }

  lemma GrowFurther<C>(v: View<C>, p: Path, s: Seg)
    requires WellFormed(v) && Canonical(v) && Fits(p)
    ensures Root in Grow(v, p) && Grow(Grow(v, p), Kid(p, s)) == Grow(v, Kid(p, s))
  {
    GrowKeeps(v, p);
    GrowStep(v, p, s);
    GrowStep(Grow(v, p), p, s);
  }

  lemma {:induction false} PrefixIsLive<C>(v: View<C>, q: Path, p: Path)
    requires WellFormed(v) && p in v && Above(q, p)
    ensures q in v
    decreases p
  {
    if q != p {
      PrefixIsLive(v, q, p.up);
    }
  }

  lemma {:induction false} RemoveFirstDistinct<T>(s: seq<T>, x: T)
    requires NoDuplicates(s)
    ensures NoDuplicates(RemoveFirst(s, x))
    ensures forall y :: y in RemoveFirst(s, x) <==> y in s && y != x
  {
    if s != [] {
      RemoveFirstDistinct(s[1..], x);
      HeadTail(s);
      assert s[0] !in s[1..];
    }
  }

  /** A name is either met in a list without duplicates now, or was met before, or neither. */
  lemma MemberStep<T>(s: seq<T>, i: nat, x: T)
    requires NoDuplicates(s) && i < |s|
    ensures x in s[..i + 1] <==> x in s[..i] || s[i] == x
    ensures s[i] == x ==> x !in s[..i]
  {
    Snoc(s, i);
  }

  lemma NothingBelowEmpty<C>(v: View<C>, p: Path, s: Seg)
    requires WellFormed(v) && p in v && Empty(v, p)
    ensures Kid(p, s) !in v
  {
    match s
    case Name(x) => assert Kid(p, Name(x)) in v <==> x in v[p].names;
    case Plus =>
    case Star =>
  }

  lemma NothingBelowAbsent<C>(v: View<C>, p: Path, s: Seg)
    requires Closed(v) && p !in v
    ensures Kid(p, s) !in v
  {
    assert Kid(p, s).up == p;
  }

  lemma UnlinkTree<C>(v: View<C>, p: Path)
    requires WellFormed(v) && p in v && p.Kid? && Empty(v, p)
    ensures p.up in v && WellFormed(Unlink(v, p))
  {
    var w := Unlink(v, p);
    assert Closed(w) by {
      forall q | q in w && q.Kid?
        ensures q.up in w
      {
        NothingBelowEmpty(v, p, q.seg);
        assert q == Kid(q.up, q.seg);
      }
    }
    if p.seg.Name? {
      RemoveFirstDistinct(v[p.up].names, p.seg.name);
    }
    assert Named(w) by {
      forall q, s: bytes | q in w
        ensures Kid(q, Name(s)) in w <==> s in w[q].names
      {
        assert Kid(q, Name(s)) in v <==> s in v[q].names;
      }
    }
  }

  lemma UnlinkKeeps<C>(v: View<C>, p: Path)
    requires WellFormed(v) && p in v && p.Kid? && Empty(v, p) && CanonicalBut(v, p)
    ensures p.up in v && WellFormed(Unlink(v, p)) && CanonicalBut(Unlink(v, p), p.up)
    ensures forall q :: SubsAt(Unlink(v, p), q) == SubsAt(v, q)
  {
    UnlinkTree(v, p);
    var w := Unlink(v, p);
    forall q | q in w && q.Kid? && q != p.up
      ensures !Empty(w, q)
    {
      assert !Empty(v, q);
      assert Kid(q, Plus) != p && Kid(q, Star) != p;
    }
  }

  lemma {:induction false} PruneKeeps<C>(v: View<C>, p: Path)
    requires WellFormed(v) && p in v && CanonicalBut(v, p)
    ensures WellFormed(Prune(v, p)) && Canonical(Prune(v, p))
    ensures forall q :: SubsAt(Prune(v, p), q) == SubsAt(v, q)
    ensures forall q | q in Prune(v, p) :: q in v
    decreases p
  {
    if p.Kid? && Empty(v, p) {
      UnlinkKeeps(v, p);
      PruneKeeps(Unlink(v, p), p.up);
    }
  }

  lemma RefIsLive<C>(st: Store<C>, c: C, i: nat)
    requires Agree(st) && c in st.refs && i < |st.refs[c]|
    ensures st.refs[c][i] in st.view && c in st.view[st.refs[c][i]].subs
  {
    var p := st.refs[c][i];
    assert multiset(st.refs[c])[p] > 0;
    assert multiset(SubsAt(st.view, p))[c] > 0;
  }

  lemma PushKeeps<C>(v: View<C>, c: C, p: Path)
    requires WellFormed(v) && CanonicalBut(v, p) && p in v
    ensures WellFormed(PushSub(v, p, c)) && Canonical(PushSub(v, p, c))
  {
    var w := PushSub(v, p, c);
    assert Named(w);
    forall q | q in w && q.Kid?
      ensures !Empty(w, q)
    {
      assert q != p ==> !Empty(v, q);
    }
  }

  lemma AgreeAfterPush<C>(st: Store<C>, after: Store<C>, c: C, p: Path)
    requires Agree(st) && c in st.refs
    requires after.refs == st.refs[c := [p] + st.refs[c]]
    requires forall q :: SubsAt(after.view, q) == if q == p then [c] + SubsAt(st.view, p) else SubsAt(st.view, q)
    ensures Agree(after)
  {
    forall d, q | d in after.refs
      ensures multiset(SubsAt(after.view, q))[d] == multiset(after.refs[d])[q]
    {
      assert multiset(SubsAt(st.view, q))[d] == multiset(st.refs[d])[q];
    }
    forall q, d | q in after.view && d in after.view[q].subs
      ensures d in after.refs
    {
      assert d in SubsAt(after.view, q);
      assert d == c || d in SubsAt(st.view, q);
    }
  }

  /** A client subscribes to `p` in its own list exactly if the node at `p` lists it. */
  lemma ListedBothSides<C>(st: Store<C>, c: C, p: Path)
    requires Agree(st) && c in st.refs
    ensures c in SubsAt(st.view, p) <==> p in st.refs[c]
  {
    assert multiset(SubsAt(st.view, p))[c] == multiset(st.refs[c])[p];
    assert c in SubsAt(st.view, p) <==> c in multiset(SubsAt(st.view, p));
    assert p in st.refs[c] <==> p in multiset(st.refs[c]);
  }

  lemma RefsAreLive<C>(st: Store<C>, c: C)
    requires Agree(st) && c in st.refs
    ensures forall p | p in st.refs[c] :: p in st.view
  {
    forall p | p in st.refs[c]
      ensures p in st.view
    {
      ListedBothSides(st, c, p);
    }
  }

  lemma SubscribeKeeps<C>(st: Store<C>, c: C, p: Path)
    requires Good(st) && c in st.refs && Fits(p)
    ensures Good(Subscribe(st, c, p))
  {
    GrowKeeps(st.view, p);
    PushKeeps(Grow(st.view, p), c, p);
    AgreeAfterPush(st, Subscribe(st, c, p), c, p);
  }

  lemma DropKeeps<C>(v: View<C>, c: C, p: Path)
    requires WellFormed(v) && Canonical(v) && p in v
    ensures WellFormed(DropSub(v, p, c)) && CanonicalBut(DropSub(v, p, c), p)
  {
    var d := DropSub(v, p, c);
    assert Named(d);
    forall q | q in d && q.Kid? && q != p
      ensures !Empty(d, q)
    {
      assert !Empty(v, q);
    }
  }

  /** Dropping one entry and pruning: the tree is canonical again, and exactly one
      subscriber list is one entry shorter. */
  lemma DropAndPrune<C>(v: View<C>, c: C, p: Path)
    requires WellFormed(v) && Canonical(v) && p in v
    ensures var w := Prune(DropSub(v, p, c), p);
      && WellFormed(w) && Canonical(w)
      && (forall q :: SubsAt(w, q) == if q == p then RemoveFirst(v[p].subs, c) else SubsAt(v, q))
  {
    DropKeeps(v, c, p);
    PruneKeeps(DropSub(v, p, c), p);
    var w := Prune(DropSub(v, p, c), p);
    forall q
      ensures SubsAt(w, q) == if q == p then RemoveFirst(v[p].subs, c) else SubsAt(v, q)
    {
      assert SubsAt(w, q) == SubsAt(DropSub(v, p, c), q);
    }
  }

  lemma CountAfterRemove<T>(s: seq<T>, x: T, y: T)
    ensures multiset(RemoveFirst(s, x))[y] == if y == x && x in s then multiset(s)[y] - 1 else multiset(s)[y]
    ensures y in RemoveFirst(s, x) ==> y in s
  {
    assert y in RemoveFirst(s, x) <==> multiset(RemoveFirst(s, x))[y] > 0;
  }

  lemma DropCounts<C>(st: Store<C>, c: C, p: Path, d: C, q: Path)
    requires Agree(st) && c in st.refs && d in st.refs && p in st.view && c in st.view[p].subs
    ensures var subs := if q == p then RemoveFirst(st.view[p].subs, c) else SubsAt(st.view, q);
      var refs := if d == c then RemoveFirst(st.refs[c], p) else st.refs[d];
      multiset(subs)[d] == multiset(refs)[q] && (d in subs ==> d in SubsAt(st.view, q))
  {
    assert multiset(SubsAt(st.view, q))[d] == multiset(st.refs[d])[q];
    CountAfterRemove(st.view[p].subs, c, d);
    CountAfterRemove(st.refs[c], p, q);
    ListedBothSides(st, c, p);
  }

  /** Agreement looks at subscriber lists only, not at the shape of the tree. */
  lemma AgreeAfterDrop<C>(st: Store<C>, after: Store<C>, c: C, p: Path)
    requires Agree(st) && c in st.refs && p in st.view && c in st.view[p].subs
    requires after.refs == st.refs[c := RemoveFirst(st.refs[c], p)]
    requires forall q :: SubsAt(after.view, q) == if q == p then RemoveFirst(st.view[p].subs, c) else SubsAt(st.view, q)
    ensures Agree(after)
  {
    forall d, q | d in after.refs
      ensures multiset(SubsAt(after.view, q))[d] == multiset(after.refs[d])[q]
    {
      DropCounts(st, c, p, d, q);
    }
    forall q, d | q in after.view && d in after.view[q].subs
      ensures d in after.refs
    {
      assert d in SubsAt(after.view, q);
      CountAfterRemove(st.view[p].subs, c, d);
      assert d in SubsAt(st.view, q);
    }
  }

  lemma UnsubscribeKeeps<C>(st: Store<C>, c: C, p: Path)
    requires Good(st) && c in st.refs && p in st.view && c in st.view[p].subs
    ensures Good(Unsubscribe(st, c, p))
  {
    DropAndPrune(st.view, c, p);
    AgreeAfterDrop(st, Unsubscribe(st, c, p), c, p);
  }

  lemma NewClientKeepsStore<C>(st: Store<C>, c: C)
    requires Good(st) && c !in st.refs
    ensures Good(Store(st.view, st.refs[c := []]))
  {
    var after := Store(st.view, st.refs[c := []]);
    forall d, p | d in after.refs
      ensures multiset(SubsAt(after.view, p))[d] == multiset(after.refs[d])[p]
    {
      assert d in st.refs ==> multiset(SubsAt(st.view, p))[d] == multiset(st.refs[d])[p];
      assert d !in SubsAt(st.view, p) || d in st.refs;
      assert d in SubsAt(st.view, p) <==> d in multiset(SubsAt(st.view, p));
    }
  }

  // ------------------------------------------------------------------
  // Main results

  /** The nodes of the trie are the root and the prefixes of live patterns. */
  lemma NodesAreLivePrefixes<C>(st: Store<C>, p: Path)
    requires Good(st)
    ensures p in st.view <==>
            p == Root || exists c, i | c in st.refs && 0 <= i < |st.refs[c]| :: Above(p, st.refs[c][i])
  {
    if p in st.view && p.Kid? {
      var q, c := SubscriberBelow(st, p);
      assert multiset(st.refs[c])[q] > 0;
      assert q in st.refs[c];
    }
    if c, i :| c in st.refs && 0 <= i < |st.refs[c]| && Above(p, st.refs[c][i]) {
      RefIsLive(st, c, i);
      PrefixIsLive(st.view, p, st.refs[c][i]);
    }
  }

  lemma {:induction false} SubscriberBelow<C>(st: Store<C>, p: Path) returns (q: Path, c: C)
    requires Good(st) && p in st.view && p.Kid?
    ensures Above(p, q) && c in st.refs && multiset(SubsAt(st.view, q))[c] > 0
    decreases MAX_SEGMENTS - Depth(p)
  {
    var e := st.view[p];
    if e.subs != [] {
      q, c := p, e.subs[0];
    } else {
      assert !Empty(st.view, p);
      var s := if e.names != [] then Name(e.names[0]) else if Kid(p, Plus) in st.view then Plus else Star;
      var k := Kid(p, s);
      assert Fits(k) && Depth(k) == Depth(p) + 1;
      q, c := SubscriberBelow(st, k);
      AboveParent(k, q);
    }
  }

  /** Unsubscribing straight after subscribing gives back the same trie and the same
      reference lists, every list in its old order. */
  lemma SubscribeThenUnsubscribe<C>(st: Store<C>, c: C, p: Path)
    requires Good(st) && c in st.refs && Fits(p)
    ensures Unsubscribe(Subscribe(st, c, p), c, p) == st
  {
    PushThenDrop(Grow(st.view, p), p, c);
    PruneGrow(st.view, p);
    RemoveHead(st.refs[c], p);
    LastUpdateWins(st.refs, c, [p] + st.refs[c], st.refs[c]);
  }

  lemma PushThenDrop<C>(v: View<C>, p: Path, c: C)
    requires p in v
    ensures DropSub(PushSub(v, p, c), p, c) == v
  {
    RemoveHead(v[p].subs, c);
  }

  lemma {:induction false} PruneGrow<C>(v: View<C>, p: Path)
    requires WellFormed(v) && Canonical(v) && Fits(p)
    ensures Prune(Grow(v, p), p) == v
    decreases p
  {
    if p !in v {
      var w := Grow(v, p.up);
      GrowKeeps(v, p.up);
      GrowKeys(v, p.up);
      AboveIsShallower(p, p.up);
      UnlinkLink(w, p);
      assert Kid(p, Plus) !in w && Kid(p, Star) !in w;
      PruneGrow(v, p.up);
    }
  }

  lemma UnlinkLink<C>(v: View<C>, p: Path)
    requires p.Kid? && p.up in v && p !in v
    ensures Unlink(Link(v, p), p) == v
  {
  }

  lemma CleanupStep<C>(st: Store<C>, c: C)
    requires Good(st) && c in st.refs && st.refs[c] != []
    ensures st.refs[c][0] in st.view
    ensures var mid := Unsubscribe(st, c, st.refs[c][0]);
      Good(mid) && mid.refs == st.refs[c := st.refs[c][1..]] && Cleanup(st, c) == Cleanup(mid, c)
  {
    RefIsLive(st, c, 0);
    UnsubscribeKeeps(st, c, st.refs[c][0]);
  }

  lemma {:induction false} CleanupKeeps<C>(st: Store<C>, c: C)
    requires Good(st) && c in st.refs
    ensures Good(Cleanup(st, c)) && Cleanup(st, c).refs == st.refs[c := []]
    decreases |st.refs[c]|
  {
    if st.refs[c] != [] {
      CleanupStep(st, c);
      CleanupKeeps(Unsubscribe(st, c, st.refs[c][0]), c);
      LastUpdateWins(st.refs, c, st.refs[c][1..], []);
    } else {
      LastUpdateWins(st.refs, c, [], []);
    }
  }

  lemma SameRefsSameEntries<C>(st: Store<C>, after: Store<C>, d: C, p: Path)
    requires Agree(st) && Agree(after) && st.refs.Keys == after.refs.Keys
    requires d in st.refs ==> after.refs[d] == st.refs[d]
    ensures multiset(SubsAt(after.view, p))[d] == multiset(SubsAt(st.view, p))[d]
  {
    if d in st.refs {
      assert multiset(SubsAt(st.view, p))[d] == multiset(st.refs[d])[p];
      assert multiset(SubsAt(after.view, p))[d] == multiset(after.refs[d])[p];
    } else {
      assert d !in SubsAt(st.view, p) && d !in SubsAt(after.view, p);
    }
  }

  /** Cleaning up a client removes that client's subscriptions and nothing else. */
  lemma CleanupRemovesOnly<C>(st: Store<C>, c: C)
    requires Good(st) && c in st.refs
    ensures var after := Cleanup(st, c);
      && Good(after)
      && after.refs == st.refs[c := []]
      && (forall p, d | d != c :: multiset(SubsAt(after.view, p))[d] == multiset(SubsAt(st.view, p))[d])
      && (forall p :: c !in SubsAt(after.view, p))
  {
    CleanupKeeps(st, c);
    var after := Cleanup(st, c);
    forall p
      ensures c !in SubsAt(after.view, p)
    {
      ListedBothSides(after, c, p);
    }
    forall p, d | d != c
      ensures multiset(SubsAt(after.view, p))[d] == multiset(SubsAt(st.view, p))[d]
    {
      SameRefsSameEntries(st, after, d, p);
    }
  }

  lemma NoElements<T>(s: seq<T>)
    ensures s == [] || exists x :: x in s
  {
    assert s == [] || s[0] in s;
  }

  /** With no references left, only a bare root is left. */
  lemma NoRefsNoNodes<C>(st: Store<C>)
    requires Good(st) && forall c | c in st.refs :: st.refs[c] == []
    ensures st.view == map[Root := Entry([], [])]
  {
    forall p | p in st.view
      ensures p == Root
    {
      NodesAreLivePrefixes(st, p);
    }
    var e := st.view[Root];
    assert forall x: bytes | x in e.names :: Kid(Root, Name(x)) in st.view;
    NoElements(e.names);
    assert forall d | d in st.refs :: multiset(SubsAt(st.view, Root))[d] == multiset(st.refs[d])[Root];
    assert forall d | d in e.subs :: d in multiset(SubsAt(st.view, Root));
    NoElements(e.subs);
    assert st.view.Keys == {Root};
  }
}
