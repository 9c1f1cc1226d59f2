/** The mutable topic trie: nodes with parent pointers, child lists, wildcard
    children and subscriber lists, and clients holding back-references. */
module TopicTrie {
  import opened Bytes
  import opened Topics
  import opened Patterns
  import opened Index
  import opened Search
  import opened Protocol

  /** `struct child` */
  datatype Child = Child(name: bytes, node: Node)

  /** `topic_node_t`; `link` is the pair of `ptype` and `pname`. */
  class Node {
    const parent: Node?
    const link: Seg
    ghost const path: Path
    var children: seq<Child>
    var plusChild: Node?
    var starChild: Node?
    var subscribers: seq<Client>

    constructor (parent: Node?, link: Seg, ghost path: Path)
      ensures this.parent == parent && this.link == link && this.path == path
      ensures children == [] && subscribers == [] && plusChild == null && starChild == null
    {
      this.parent, this.link, this.path := parent, link, path;
      children, subscribers, plusChild, starChild := [], [], null, null;
    }

    /** `node_is_empty` */
    predicate IsEmpty()
      reads this
    {
      subscribers == [] && children == [] && plusChild == null && starChild == null
    }
  }

  /** `client_t` */
  class Client {
    const id: bytes
    const readBuf: array<byte>
    var readBufLen: nat
    var fd: int
    var subscriptions: seq<Node>

    /** `client_create`. The buffer has one cell more than `READ_BUF_SIZE`, for the
        NUL written behind a payload that fills it. */
    constructor (fd: int, id: bytes)
      ensures this.fd == fd && this.id == id && readBufLen == 0 && subscriptions == []
      ensures fresh(readBuf) && readBuf.Length == READ_BUF_SIZE + 1
    {
      this.fd, this.id, readBufLen, subscriptions := fd, id, 0, [];
      readBuf := new byte[READ_BUF_SIZE + 1];
    }
  }

  class Trie {
    const root: Node
    /** The live nodes, by path. */
    ghost var at: map<Path, Node>
    /** Every node ever created, freed ones included. */
    ghost var nodes: set<Node>
    /** The value the heap structure stands for. */
    ghost var store: Store<Client>

    // ----------------------------------------------------------------
    // Invariant

    static ghost function Find(at: map<Path, Node>, p: Path): Node? {
      if p in at then at[p] else null
    }

    static ghost predicate ChildOk(at: map<Path, Node>, p: Path, c: Child, name: bytes) {
      c.name == name && Find(at, Kid(p, Name(name))) == c.node
    }

    /** `children` lists exactly the nodes below `p` that `names` names. */
    static ghost predicate ListsChildren(at: map<Path, Node>, p: Path, children: seq<Child>, names: seq<bytes>) {
      |children| == |names| && forall k | 0 <= k < |names| :: ChildOk(at, p, children[k], names[k])
    }

    /** Node `n` has the links and lists that entry `e` of the view gives the node at `p`. */
    static ghost predicate NodeOk(at: map<Path, Node>, p: Path, e: Entry<Client>, n: Node)
      reads n
    {
      && n.path == p
      && n.subscribers == e.subs
      && ListsChildren(at, p, n.children, e.names)
      && n.plusChild == Find(at, Kid(p, Plus))
      && n.starChild == Find(at, Kid(p, Star))
      && (p.Kid? ==> p.up in at && n.parent == at[p.up] && n.link == p.seg)
    }

    ghost predicate Shape()
      reads this, nodes
    {
      && at.Keys == store.view.Keys
      && Root in at && at[Root] == root
      && (forall p {:trigger at[p]} | p in at :: at[p] in nodes)
      && (forall p {:trigger NodeOk(at, p, store.view[p], at[p])} | p in at :: NodeOk(at, p, store.view[p], at[p]))
    }

    ghost predicate Inv()
      reads this, nodes
    {
      Shape() && Good(store)
    }

    /** The back-references `ns` lead to the live nodes at `ps`. */
    static ghost predicate Tied(at: map<Path, Node>, ns: seq<Node>, ps: seq<Path>) {
      |ns| == |ps| && forall i | 0 <= i < |ps| :: Find(at, ps[i]) == ns[i]
    }

    ghost predicate AllTied()
      reads this, store.refs.Keys`subscriptions
    {
      forall c {:trigger Tied(at, c.subscriptions, store.refs[c])} | c in store.refs ::
        Tied(at, c.subscriptions, store.refs[c])
    }

    ghost predicate Valid()
      reads this, nodes, store.refs.Keys`subscriptions
    {
      Inv() && AllTied()
    }

    ghost predicate Live(n: Node)
      reads this
    {
      Find(at, n.path) == n
    }

    /** Nodes at different paths are different. */
    lemma OthersAreOthers(n: Node)
      requires Shape() && Live(n)
      ensures n in nodes && NodeOk(at, n.path, store.view[n.path], n)
      ensures forall p | p in at && p != n.path :: at[p] != n
    {
      assert NodeOk(at, n.path, store.view[n.path], at[n.path]);
      forall p | p in at && p != n.path
        ensures at[p] != n
      {
        assert NodeOk(at, p, store.view[p], at[p]);
      }
    }

    // ----------------------------------------------------------------
    // Framing

    /** The set of live nodes changed at most at `k`. */
    twostate predicate ChangedAt(k: Path)
      reads this
    {
      forall q {:trigger Find(at, q)} | q != k :: Find(at, q) == Find(old(at), q)
    }

    /** Live nodes stay live under their old paths. */
    twostate predicate KeepsNodes()
      reads this
    {
      forall q | q in old(at) :: q in at && at[q] == old(at)[q]
    }

    /** Nodes are only ever created, and stay in the footprint when they are freed. */
    twostate predicate AddsNodes()
      reads this
    {
      old(nodes) <= nodes && forall m | m in nodes && m !in old(nodes) :: fresh(m)
    }

    /** The live nodes were live before, under the same paths. */
    twostate predicate LosesNodes()
      reads this
    {
      forall q | q in at :: q in old(at) && at[q] == old(at)[q]
    }

    /** A node that is neither at `k` nor next to it, and whose own lists did not change,
        is still fine. */
    twostate lemma Untouched(p: Path, new k: Path)
      requires old(Shape()) && ChangedAt(k)
      requires p in old(at) && p != k && p in at && at[p] == old(at)[p] && unchanged(at[p])
      requires p in store.view && store.view[p] == old(store.view)[p]
      requires (k.Kid? ==> k.up != p) && (p.Kid? ==> p.up != k)
      ensures NodeOk(at, p, store.view[p], at[p])
    {
      assert old(NodeOk(at, p, store.view[p], at[p]));
      assert forall s {:trigger Kid(p, s)} :: Find(at, Kid(p, s)) == Find(old(at), Kid(p, s));
      assert p.Kid? ==> Find(at, p.up) == Find(old(at), p.up);
      forall i | 0 <= i < |store.view[p].names|
        ensures ChildOk(at, p, at[p].children[i], store.view[p].names[i])
      {
        assert ChildOk(old(at), p, at[p].children[i], store.view[p].names[i]);
      }
    }

    /** What happens outside the trie does not disturb it. */
    twostate lemma Undisturbed()
      requires old(Valid()) && unchanged(this) && unchanged(nodes) && unchanged(store.refs.Keys`subscriptions)
      ensures Valid()
    {
    }

    // ----------------------------------------------------------------
    // Creating nodes

    constructor ()
      ensures Valid() && fresh(root)
      ensures at == map[Root := root] && nodes == {root}
      ensures store == Store(map[Root := Entry([], [])], map[])
    {
      root := new Node(null, Name([]), Root);
      new;
      at, nodes := map[Root := root], {root};
      store := Store(map[Root := Entry([], [])], map[]);
    }

    /** The effect on the heap of hanging a new node `n` below `parent`. */
    twostate predicate Linked(parent: Node, new n: Node)
      reads parent, n
    {
      && n.path.Kid? && n.path.up == parent.path && n.link == n.path.seg && n.parent == parent
      && n.IsEmpty()
      && parent.subscribers == old(parent.subscribers)
      && parent.children ==
         (if n.link.Name? then [Child(n.link.name, n)] + old(parent.children) else old(parent.children))
      && parent.plusChild == (if n.link.Plus? then n else old(parent.plusChild))
      && parent.starChild == (if n.link.Star? then n else old(parent.starChild))
    }

    /** The effect of hanging `n` below `parent` on all live nodes together. */
    twostate predicate Extended(parent: Node, new n: Node)
      reads this, parent, n
    {
      && old(Shape()) && Closed(old(store.view)) && old(Live(parent)) && n.path !in old(at)
      && Linked(parent, n)
      && at == old(at)[n.path := n] && nodes == old(nodes) + {n}
      && n.path.up in old(store.view) && store.view == Link(old(store.view), n.path)
    }

    twostate lemma LinkedParent(parent: Node, new n: Node)
      requires Extended(parent, n)
      ensures parent.path in store.view && Live(parent) && NodeOk(at, parent.path, store.view[parent.path], parent)
    {
      var p := parent.path;
      assert old(NodeOk(at, p, store.view[p], parent));
      var names := store.view[p].names;
      var shift := if n.link.Name? then 1 else 0;
      forall i | 0 <= i < |names|
        ensures ChildOk(at, p, parent.children[i], names[i])
      {
        if i >= shift {
          assert ChildOk(old(at), p, old(parent.children)[i - shift], old(store.view)[p].names[i - shift]);
        }
      }
    }

    static lemma NewNodeOk(at0: map<Path, Node>, v: View<Client>, n: Node)
      requires at0.Keys == v.Keys && Closed(v) && n.path !in v && n.IsEmpty()
      requires n.path.Kid? && Find(at0, n.path.up) == n.parent != null && n.link == n.path.seg
      ensures NodeOk(at0[n.path := n], n.path, Entry([], []), n)
    {
      NothingBelowAbsent(v, n.path, Plus);
      NothingBelowAbsent(v, n.path, Star);
    }

    static lemma NothingUnder(v: View<Client>, k: Path)
      requires Closed(v) && k !in v
      ensures forall p | p in v && p.Kid? :: p.up != k
    {
    }

    static lemma LinkedView(v: View<Client>, k: Path)
      requires k.Kid? && k.up in v
      ensures Link(v, k).Keys == v.Keys + {k}
      ensures forall p | p in v && p != k && p != k.up :: Link(v, k)[p] == v[p]
    {
    }

    /** Away from `k` and its parent nothing changed. */
    twostate predicate SameElsewhere(k: Path)
      reads this, nodes
    {
      && k.Kid? && ChangedAt(k) && at.Keys == store.view.Keys && Root in at && at[Root] == root
      && (forall p {:trigger at[p]} | p in at :: at[p] in nodes)
      && (forall p | p in at && p.Kid? :: p.up != k)
      && (forall p | p in at && p != k && p != k.up :: p in old(at) && at[p] == old(at)[p] && unchanged(old(at)[p]))
      && (forall p | p in at && p != k && p != k.up :: p in old(store.view) && store.view[p] == old(store.view)[p])
    }

    /** If also the two nodes around `k` are right, all is right. */
    twostate lemma RightAround(new k: Path)
      requires old(Shape()) && SameElsewhere(k)
      requires forall p | p in at && (p == k || p == k.up) :: NodeOk(at, p, store.view[p], at[p])
      ensures Shape()
    {
      forall p | p in at
        ensures NodeOk(at, p, store.view[p], at[p])
      {
        if p != k && p != k.up {
          assert Find(at, p) == Find(old(at), p);
          Untouched(p, k);
        }
      }
    }

    twostate lemma LinkChanges(parent: Node, new n: Node)
      requires Extended(parent, n)
      ensures ChangedAt(n.path) && Live(parent)
    {
    }

    twostate lemma LinkElsewhere(parent: Node, new n: Node)
      requires Extended(parent, n)
      requires forall p | p in old(at) && p != parent.path :: unchanged(old(at)[p])
      ensures SameElsewhere(n.path)
    {
      NothingUnder(old(store.view), n.path);
      LinkedView(old(store.view), n.path);
      LinkChanges(parent, n);
    }

    twostate lemma LinkedShape(parent: Node, new n: Node)
      requires Extended(parent, n)
      requires forall p | p in old(at) && p != parent.path :: unchanged(old(at)[p])
      ensures Shape()
    {
      LinkedParent(parent, n);
      NewNodeOk(old(at), old(store.view), n);
      LinkElsewhere(parent, n);
      RightAround(n.path);
    }

    /** What every step of the walk of `trie_subscribe` does to trie and client lists. */
    twostate predicate Grown(p: Path)
      reads this
    {
      && Root in old(store.view)
      && store == Store(Grow(old(store.view), p), old(store.refs))
      && KeepsNodes() && AddsNodes()
    }

    /** `node_create` and the linking of a new `+` child. */
    method AddPlusChild(parent: Node) returns (n: Node)
      requires Shape() && Closed(store.view) && Live(parent) && parent.plusChild == null
      modifies this`at, this`nodes, this`store, parent
      ensures Shape() && fresh(n) && n.path == Kid(parent.path, Plus)
      ensures at == old(at)[n.path := n] && nodes == old(nodes) + {n}
      ensures n.path.up in old(store.view) && store == Store(Link(old(store.view), n.path), old(store.refs))
    {
      OthersAreOthers(parent);
      n := new Node(parent, Plus, Kid(parent.path, Plus));
      parent.plusChild := n;
      at, nodes, store := at[n.path := n], nodes + {n}, Store(Link(store.view, n.path), store.refs);
      LinkedShape(parent, n);
    }

    /** `node_create` and the linking of a new `*` child. */
    method AddStarChild(parent: Node) returns (n: Node)
      requires Shape() && Closed(store.view) && Live(parent) && parent.starChild == null
      modifies this`at, this`nodes, this`store, parent
      ensures Shape() && fresh(n) && n.path == Kid(parent.path, Star)
      ensures at == old(at)[n.path := n] && nodes == old(nodes) + {n}
      ensures n.path.up in old(store.view) && store == Store(Link(old(store.view), n.path), old(store.refs))
    {
      OthersAreOthers(parent);
      n := new Node(parent, Star, Kid(parent.path, Star));
      parent.starChild := n;
      at, nodes, store := at[n.path := n], nodes + {n}, Store(Link(store.view, n.path), store.refs);
      LinkedShape(parent, n);
    }

    /** The creating half of `get_or_create_child`. */
    method AddNamedChild(parent: Node, name: bytes) returns (n: Node)
      requires Shape() && Closed(store.view) && Live(parent) && Kid(parent.path, Name(name)) !in at
      modifies this`at, this`nodes, this`store, parent
      ensures Shape() && fresh(n) && n.path == Kid(parent.path, Name(name))
      ensures at == old(at)[n.path := n] && nodes == old(nodes) + {n}
      ensures n.path.up in old(store.view) && store == Store(Link(old(store.view), n.path), old(store.refs))
    {
      OthersAreOthers(parent);
      n := new Node(parent, Name(name), Kid(parent.path, Name(name)));
      parent.children := [Child(name, n)] + parent.children;
      at, nodes, store := at[n.path := n], nodes + {n}, Store(Link(store.view, n.path), store.refs);
      LinkedShape(parent, n);
    }

    /** The scan of a child list by `strcmp`. */
    method FindChild(parent: Node, name: bytes) returns (n: Node?)
      requires Shape() && Closed(store.view) && Named(store.view) && Live(parent)
      ensures n == Find(at, Kid(parent.path, Name(name)))
    {
      ghost var p := parent.path;
      assert NodeOk(at, p, store.view[p], at[p]);
      var i := 0;
      while i < |parent.children|
        invariant i <= |parent.children|
        invariant forall j | 0 <= j < i :: parent.children[j].name != name
      {
        assert ChildOk(at, p, parent.children[i], store.view[p].names[i]);
        if parent.children[i].name == name {
          return parent.children[i].node;
        }
        i := i + 1;
      }
      forall j | 0 <= j < |store.view[p].names|
        ensures store.view[p].names[j] != name
      {
        assert ChildOk(at, p, parent.children[j], store.view[p].names[j]);
      }
      assert Kid(p, Name(name)) !in store.view;
      n := null;
    }

    method GetOrCreateChild(parent: Node, name: bytes) returns (n: Node)
      requires Shape() && WellFormed(store.view) && Live(parent)
      modifies this`at, this`nodes, this`store, parent
      ensures Shape() && Live(n) && n in nodes && n.path == Kid(parent.path, Name(name)) && Grown(n.path)
    {
      ghost var k := Kid(parent.path, Name(name));
      GrowStep(store.view, parent.path, Name(name));
      var found := FindChild(parent, name);
      if found != null {
        assert k in at && NodeOk(at, k, store.view[k], at[k]);
        n := found;
      } else {
        assert k !in at;
        n := AddNamedChild(parent, name);
      }
    }

    /** The `+` branch of the walk. */
    method GetOrCreatePlus(cur: Node) returns (next: Node)
      requires Shape() && WellFormed(store.view) && Live(cur)
      modifies this`at, this`nodes, this`store, cur
      ensures Shape() && Live(next) && next in nodes && next.path == Kid(cur.path, Plus) && Grown(next.path)
    {
      assert NodeOk(at, cur.path, store.view[cur.path], at[cur.path]);
      GrowStep(store.view, cur.path, Plus);
      if cur.plusChild == null {
        next := AddPlusChild(cur);
      } else {
        next := cur.plusChild;
        assert NodeOk(at, Kid(cur.path, Plus), store.view[Kid(cur.path, Plus)], at[Kid(cur.path, Plus)]);
      }
    }

    /** The `*` branch of the walk. */
    method GetOrCreateStar(cur: Node) returns (next: Node)
      requires Shape() && WellFormed(store.view) && Live(cur)
      modifies this`at, this`nodes, this`store, cur
      ensures Shape() && Live(next) && next in nodes && next.path == Kid(cur.path, Star) && Grown(next.path)
    {
      assert NodeOk(at, cur.path, store.view[cur.path], at[cur.path]);
      GrowStep(store.view, cur.path, Star);
      if cur.starChild == null {
        next := AddStarChild(cur);
      } else {
        next := cur.starChild;
        assert NodeOk(at, Kid(cur.path, Star), store.view[Kid(cur.path, Star)], at[Kid(cur.path, Star)]);
      }
    }

    /** One round of the loop that walks down and creates what is missing. */
    method Step(cur: Node, part: bytes) returns (next: Node)
      requires Shape() && WellFormed(store.view) && Live(cur)
      modifies this`at, this`nodes, this`store, cur
      ensures Shape() && Live(next) && next in nodes && Grown(next.path)
      ensures next.path == Kid(cur.path, if part == [43] then Plus else if part == [42] then Star else Name(part))
    {
      if part == PLUS_TEXT {
        next := GetOrCreatePlus(cur);
      } else if part == STAR_TEXT {
        next := GetOrCreateStar(cur);
      } else {
        next := GetOrCreateChild(cur, part);
      }
    }

    /** The whole walk of `trie_subscribe`. */
    method Walk(parts: Topic) returns (cur: Node)
      requires Inv() && |parts| <= MAX_SEGMENTS && forall tok | tok in parts :: CleanToken(tok)
      modifies this`at, this`nodes, this`store, nodes
      ensures Shape() && Live(cur) && cur.path == TextPath(parts) && Grown(cur.path)
      ensures forall c | c in old(store.refs) :: c.subscriptions == old(c.subscriptions)
    {
      ghost var v := store.view;
      assert NodeOk(at, Root, v[Root], root);
      cur := root;
      var i := 0;
      while i < |parts|
        invariant i <= |parts|
        invariant Shape() && Live(cur) && cur in nodes && cur.path == TextPath(parts[..i])
        invariant Grown(cur.path)
      {
        TextPathFits(parts[..i]);
        GrowKeeps(v, cur.path);
        GrowFurther(v, cur.path, ParseSeg(parts[i]));
        TextPathStep(parts, i);
        cur := Step(cur, parts[i]);
        i := i + 1;
      }
      Whole(parts);
    }

    /** Only the subscriber list of `n` changed. */
    twostate lemma Resubscribed(n: Node)
      requires old(Shape()) && old(Live(n)) && at == old(at) && nodes == old(nodes)
      requires forall p | p in at && p != n.path :: unchanged(at[p])
      requires n.children == old(n.children) && n.plusChild == old(n.plusChild) && n.starChild == old(n.starChild)
      requires store.view == old(store.view)[n.path := Entry(old(store.view)[n.path].names, n.subscribers)]
      ensures Shape()
    {
      forall p | p in at
        ensures NodeOk(at, p, store.view[p], at[p])
      {
        assert old(NodeOk(at, p, store.view[p], at[p]));
      }
    }

    /** Writing a subscriber list. */
    method Resubscribe(n: Node, subs: seq<Client>, ghost refs: map<Client, seq<Path>>)
      requires Shape() && Live(n)
      modifies this`store, n`subscribers
      ensures Shape() && n.path in old(store.view) && n.subscribers == subs
      ensures store == Store(old(store.view)[n.path := Entry(old(store.view)[n.path].names, subs)], refs)
    {
      OthersAreOthers(n);
      n.subscribers, store := subs, Store(store.view[n.path := Entry(store.view[n.path].names, subs)], refs);
      Resubscribed(n);
    }

    /** `node_add_subscriber` */
    method AddSubscriber(n: Node, cl: Client)
      requires Shape() && Live(n) && cl in store.refs
      modifies this`store, n, cl`subscriptions
      ensures Shape()
      ensures store == Store(PushSub(old(store.view), n.path, cl),
                             old(store.refs)[cl := [n.path] + old(store.refs)[cl]])
      ensures cl.subscriptions == [n] + old(cl.subscriptions)
      ensures forall c | c in old(store.refs) && c != cl :: c.subscriptions == old(c.subscriptions)
    {
      assert NodeOk(at, n.path, store.view[n.path], n);
      Resubscribe(n, [cl] + n.subscribers, store.refs[cl := [n.path] + store.refs[cl]]);
      cl.subscriptions := [n] + cl.subscriptions;
    }

    static lemma TiedMore(at0: map<Path, Node>, at1: map<Path, Node>, ns: seq<Node>, ps: seq<Path>)
      requires Tied(at0, ns, ps) && forall q | q in at0 :: q in at1 && at1[q] == at0[q]
      ensures Tied(at1, ns, ps)
    {
      assert forall i | 0 <= i < |ps| :: Find(at0, ps[i]) == ns[i];
    }

    static lemma TiedCons(at: map<Path, Node>, n: Node, ns: seq<Node>, ps: seq<Path>)
      requires Tied(at, ns, ps) && Find(at, n.path) == n
      ensures Tied(at, [n] + ns, [n.path] + ps)
    {
    }

    twostate lemma TiedAfterPush(cl: Client, new n: Node)
      requires old(AllTied()) && KeepsNodes() && Live(n) && cl in old(store.refs)
      requires store.refs == old(store.refs)[cl := [n.path] + old(store.refs)[cl]]
      requires cl.subscriptions == [n] + old(cl.subscriptions)
      requires forall c | c in old(store.refs) && c != cl :: c.subscriptions == old(c.subscriptions)
      ensures AllTied()
    {
      forall c | c in store.refs
        ensures Tied(at, c.subscriptions, store.refs[c])
      {
        TiedMore(old(at), at, old(c.subscriptions), old(store.refs)[c]);
        if c == cl {
          TiedCons(at, n, old(cl.subscriptions), old(store.refs)[cl]);
        }
      }
    }

    /** `trie_subscribe` after the pattern is split: walk, then attach. */
    method Attach(cl: Client, parts: Topic)
      requires Valid() && cl in store.refs
      requires |parts| <= MAX_SEGMENTS && forall tok | tok in parts :: CleanToken(tok)
      modifies this`at, this`nodes, this`store, nodes, cl`subscriptions
      ensures Shape() && AllTied()
      ensures Root in old(store.view) && store == Index.Subscribe(old(store), cl, TextPath(parts))
      ensures KeepsNodes() && AddsNodes()
    {
      var cur := Walk(parts);
      assert cl.subscriptions == old(cl.subscriptions);
      AddSubscriber(cur, cl);
      TiedAfterPush(cl, cur);
    }

    /** `trie_subscribe` */
    method Subscribe(cl: Client, pattern: bytes) returns (ok: bool)
      requires Valid() && cl in store.refs
      modifies this`at, this`nodes, this`store, nodes, cl`subscriptions
      ensures Valid()
      ensures ok <==> |Tokens(pattern)| <= MAX_SEGMENTS
      ensures ok ==> Root in old(store.view) && store == Index.Subscribe(old(store), cl, TextPath(Tokens(pattern)))
      ensures !ok ==> unchanged(this) && unchanged(old(nodes)) && unchanged(cl)
      ensures KeepsNodes() && AddsNodes()
    {
      var parts, more := Split(pattern);
      if more {
        return false;
      }
      TokensAreClean(pattern);
      TextPathFits(parts);
      SubscribeKeeps(store, cl, TextPath(parts));
      Attach(cl, parts);
      ok := true;
    }

    /** A new client starts without subscriptions. */
    ghost method Register(cl: Client)
      requires Valid() && cl !in store.refs && cl.subscriptions == []
      modifies this`store
      ensures Valid() && store == Store(old(store.view), old(store.refs)[cl := []])
    {
      NewClientKeepsStore(store, cl);
      store := Store(store.view, store.refs[cl := []]);
    }

    // ----------------------------------------------------------------
    // Removing entries and pruning

    static lemma CutChildren(at0: map<Path, Node>, p: Path, cs: seq<Child>, names: seq<bytes>, i: nat)
      requires ListsChildren(at0, p, cs, names) && i < |names| && NoDuplicates(names)
      ensures ListsChildren(at0 - {Kid(p, Name(names[i]))}, p, cs[..i] + cs[i + 1..], names[..i] + names[i + 1..])
    {
      var at1, ds, rest := at0 - {Kid(p, Name(names[i]))}, cs[..i] + cs[i + 1..], names[..i] + names[i + 1..];
      forall k | 0 <= k < |rest|
        ensures ChildOk(at1, p, ds[k], rest[k])
      {
        var j := if k < i then k else k + 1;
        assert ds[k] == cs[j] && rest[k] == names[j];
        assert ChildOk(at0, p, cs[j], names[j]) && names[j] != names[i];
      }
    }

    static lemma NamedGone(v: View<Client>, at0: map<Path, Node>, k: Path, cs: seq<Child>, i: nat)
      requires k.Kid? && k.seg.Name? && k in v && k.up in v && NoDuplicates(v[k.up].names)
      requires ListsChildren(at0, k.up, cs, v[k.up].names)
      requires i < |cs| && v[k.up].names[i] == k.seg.name && k.seg.name !in v[k.up].names[..i]
      ensures ListsChildren(at0 - {k}, k.up, cs[..i] + cs[i + 1..], Unlink(v, k)[k.up].names)
    {
      RemoveFirstAt(v[k.up].names, k.seg.name, i);
      CutChildren(at0, k.up, cs, v[k.up].names, i);
    }

    /** The scan for the child whose node is `n`. */
    static method ScanFor(cs: seq<Child>, n: Node) returns (k: nat)
      ensures k <= |cs| && (k < |cs| ==> cs[k].node == n) && forall j | 0 <= j < k :: cs[j].node != n
    {
      k := 0;
      while k < |cs| && cs[k].node != n
        invariant k <= |cs| && forall j | 0 <= j < k :: cs[j].node != n
      {
        k := k + 1;
      }
    }

    /** Where the node is, its name is, and not before. */
    lemma NamedWhereFound(parent: Node, n: Node, k: nat)
      requires Shape() && Live(parent) && Live(n) && n.path == Kid(parent.path, n.link)
      requires n.link.Name? && Named(store.view)
      requires k <= |parent.children| && (k < |parent.children| ==> parent.children[k].node == n)
      requires forall j | 0 <= j < k :: parent.children[j].node != n
      ensures var names := store.view[parent.path].names;
        k < |names| == |parent.children| && names[k] == n.link.name && n.link.name !in names[..k]
    {
      var p, names, cs := parent.path, store.view[parent.path].names, parent.children;
      assert NodeOk(at, p, store.view[p], parent);
      forall j | 0 <= j < |names|
        ensures cs[j].node == n <==> names[j] == n.link.name
      {
        assert ChildOk(at, p, cs[j], names[j]);
        var q := Kid(p, Name(names[j]));
        assert NodeOk(at, q, store.view[q], at[q]);
      }
      assert n.link.name in names;
    }

    /** Taking the child entry for `n` off the list. */
    method UnlinkNamedChild(parent: Node, n: Node) returns (ghost i: nat)
      requires Shape() && Live(parent) && Live(n) && n.path == Kid(parent.path, n.link)
      requires n.link.Name? && Named(store.view)
      modifies parent`children
      ensures i < |old(store.view)[parent.path].names|
      ensures old(store.view)[parent.path].names[i] == n.link.name
      ensures n.link.name !in old(store.view)[parent.path].names[..i]
      ensures i < |old(parent.children)| && parent.children == old(parent.children)[..i] + old(parent.children)[i + 1..]
    {
      var k := ScanFor(parent.children, n);
      NamedWhereFound(parent, n, k);
      i := k;
      parent.children := parent.children[..k] + parent.children[k + 1..];
    }

    /** The three ways to unlink the empty node `n` from its parent. */
    method UnlinkFromParent(parent: Node, n: Node)
      requires Shape() && WellFormed(store.view) && Live(parent) && Live(n)
      requires n.parent == parent && n.path.Kid? && n.path.up == parent.path && n.path.seg == n.link
      modifies parent
      ensures n.path.up in old(store.view) && n.path in old(store.view)
      ensures ListsChildren(at - {n.path}, parent.path, parent.children,
                            Unlink(old(store.view), n.path)[parent.path].names)
      ensures parent.subscribers == old(parent.subscribers)
      ensures parent.plusChild == if n.link.Plus? then null else old(parent.plusChild)
      ensures parent.starChild == if n.link.Star? then null else old(parent.starChild)
    {
      ghost var v, cs := store.view, parent.children;
      assert NodeOk(at, n.path, v[n.path], n);
      assert NodeOk(at, parent.path, v[parent.path], parent);
      assert ListsChildren(at, parent.path, cs, v[parent.path].names);
      if n.link.Name? {
        ghost var i := UnlinkNamedChild(parent, n);
        NamedGone(v, at, n.path, cs, i);
      } else {
        WildcardGone(v, at, n.path, cs);
        if n.link.Plus? {
          parent.plusChild := null;
        } else {
          parent.starChild := null;
        }
      }
    }

    /** A wildcard child is on no list. */
    static lemma WildcardGone(v: View<Client>, at0: map<Path, Node>, k: Path, cs: seq<Child>)
      requires k.Kid? && !k.seg.Name? && k in v && k.up in v && ListsChildren(at0, k.up, cs, v[k.up].names)
      ensures ListsChildren(at0 - {k}, k.up, cs, Unlink(v, k)[k.up].names)
    {
      var names := v[k.up].names;
      forall j | 0 <= j < |names|
        ensures ChildOk(at0 - {k}, k.up, cs[j], names[j])
      {
        assert ChildOk(at0, k.up, cs[j], names[j]);
      }
    }

    /** The effect on `parent` of unlinking its child at `k`. */
    twostate predicate Cut(parent: Node, new k: Path)
      reads this, parent
    {
      && k.Kid? && k.up == parent.path && k.up != k && at == old(at) - {k} && parent.path in store.view
      && ListsChildren(at, parent.path, parent.children, store.view[parent.path].names)
      && parent.subscribers == old(parent.subscribers)
      && parent.plusChild == (if k.seg.Plus? then null else old(parent.plusChild))
      && parent.starChild == (if k.seg.Star? then null else old(parent.starChild))
    }

    twostate lemma CutParent(parent: Node, new k: Path)
      requires Cut(parent, k)
      requires parent.path in old(store.view) && old(NodeOk(at, parent.path, store.view[parent.path], parent))
      requires store.view[parent.path].subs == old(store.view)[parent.path].subs
      requires parent.path.Kid? ==> parent.path.up != k
      ensures NodeOk(at, parent.path, store.view[parent.path], parent)
    {
    }

    twostate lemma CutChanges(parent: Node, new k: Path)
      requires Cut(parent, k) && old(Live(parent))
      ensures ChangedAt(k) && k !in at && Live(parent)
    {
    }

    /** The effect of unlinking the node at `k` on all live nodes together. */
    twostate predicate Shrunk(parent: Node, new k: Path)
      reads this, parent
    {
      && old(Shape()) && WellFormed(old(store.view)) && old(Live(parent))
      && k in old(store.view) && Empty(old(store.view), k)
      && Cut(parent, k) && nodes == old(nodes) && store.view == Unlink(old(store.view), k)
    }

    static lemma UnlinkedView(v: View<Client>, k: Path)
      requires k.Kid? && k in v && k.up in v && k.up != k
      ensures Unlink(v, k).Keys == v.Keys - {k} && Unlink(v, k)[k.up].subs == v[k.up].subs
      ensures forall p | p in v && p != k && p != k.up :: Unlink(v, k)[p] == v[p]
    {
    }

    static lemma NoneBelow(v: View<Client>, q: Path)
      requires WellFormed(v) && q in v && Empty(v, q)
      ensures forall p | p in v && p.Kid? :: p.up != q
    {
      forall p | p in v && p.Kid?
        ensures p.up != q
      {
        NothingBelowEmpty(v, q, p.seg);
        assert p == Kid(p.up, p.seg);
      }
    }

    twostate lemma ShrunkElsewhere(parent: Node, new k: Path)
      requires Shrunk(parent, k)
      requires forall p | p in old(at) && p != parent.path :: unchanged(old(at)[p])
      ensures SameElsewhere(k)
    {
      NoneBelow(old(store.view), k);
      UnlinkedView(old(store.view), k);
      CutChanges(parent, k);
    }

    twostate lemma ShrunkShape(parent: Node, new k: Path)
      requires Shrunk(parent, k)
      requires forall p | p in old(at) && p != parent.path :: unchanged(old(at)[p])
      ensures Shape()
    {
      ShrunkElsewhere(parent, k);
      NoneBelow(old(store.view), k);
      UnlinkedView(old(store.view), k);
      assert old(NodeOk(at, parent.path, store.view[parent.path], parent));
      CutParent(parent, k);
      CutChanges(parent, k);
      RightAround(k);
    }

    /** Unlinking and freeing one empty node. */
    method RemoveLeaf(n: Node) returns (parent: Node)
      requires Shape() && WellFormed(store.view) && Live(n) && n.path.Kid? && Empty(store.view, n.path)
      modifies this`at, this`store, nodes
      ensures Shape() && Live(parent) && parent.path == n.path.up && n.path.up in old(store.view)
      ensures store == Store(Unlink(old(store.view), n.path), old(store.refs)) && at == old(at) - {n.path}
      ensures forall c | c in old(store.refs) :: c.subscriptions == old(c.subscriptions)
    {
      assert NodeOk(at, n.path, store.view[n.path], n);
      parent := n.parent;
      assert NodeOk(at, n.path.up, store.view[n.path.up], parent);
      OthersAreOthers(parent);
      UnlinkFromParent(parent, n);
      at := at - {n.path};
      store := Store(Unlink(store.view, n.path), store.refs);
      ShrunkShape(parent, n.path);
    }

    /** `node_remove_if_empty` */
    method NodeRemoveIfEmpty(n: Node)
      requires Shape() && WellFormed(store.view) && Live(n)
      modifies this`at, this`store, nodes
      ensures Shape() && store == Store(Prune(old(store.view), n.path), old(store.refs))
      ensures LosesNodes()
      ensures forall c | c in old(store.refs) :: c.subscriptions == old(c.subscriptions)
      decreases n.path
    {
      assert NodeOk(at, n.path, store.view[n.path], n);
      if n == root || !n.IsEmpty() {
        assert NodeOk(at, Root, store.view[Root], root);
        return;
      }
      UnlinkTree(store.view, n.path);
      var parent := RemoveLeaf(n);
      NodeRemoveIfEmpty(parent);
    }

    /** Removing the first entry for `cl` from a subscriber list, if there is one. */
    method TakeSubscriber(n: Node, cl: Client) returns (ok: bool)
      requires Shape() && Live(n) && cl in store.refs
      modifies this`store, n`subscribers
      ensures Shape() && n.path in old(store.view)
      ensures ok <==> cl in SubsAt(old(store.view), n.path)
      ensures !ok ==> store == old(store) && n.subscribers == old(n.subscribers)
      ensures ok ==> store == Store(DropSub(old(store.view), n.path, cl),
                                    old(store.refs)[cl := RemoveFirst(old(store.refs)[cl], n.path)])
    {
      assert NodeOk(at, n.path, store.view[n.path], n);
      var i := 0;
      while i < |n.subscribers|
        invariant i <= |n.subscribers| && cl !in n.subscribers[..i]
      {
        if n.subscribers[i] == cl {
          RemoveFirstAt(n.subscribers, cl, i);
          ghost var refs := store.refs[cl := RemoveFirst(store.refs[cl], n.path)];
          Resubscribe(n, n.subscribers[..i] + n.subscribers[i + 1..], refs);
          return true;
        }
        i := i + 1;
      }
      ok := false;
    }

    /** The prune that follows the removal of an entry for `cl` in state `st`. */
    method PruneAfter(n: Node, cl: Client, ghost st: Store<Client>)
      requires Good(st) && cl in st.refs && n.path in st.view && cl in st.view[n.path].subs
      requires store == Store(DropSub(st.view, n.path, cl), st.refs[cl := RemoveFirst(st.refs[cl], n.path)])
      requires Shape() && Live(n)
      modifies this`at, this`store, nodes
      ensures Inv() && store == Index.Unsubscribe(st, cl, n.path) && LosesNodes()
      ensures forall c | c in old(store.refs) :: c.subscriptions == old(c.subscriptions)
    {
      DropKeeps(st.view, cl, n.path);
      UnsubscribeKeeps(st, cl, n.path);
      NodeRemoveIfEmpty(n);
    }

    /** `remove_subscriber_from_node`. The back-reference that answers to the removed
        entry is counted as gone from here on; the callers take it off its list. */
    method RemoveSubscriberFromNode(n: Node, cl: Client) returns (ok: bool)
      requires Inv() && Live(n) && cl in store.refs
      modifies this`at, this`store, nodes
      ensures Inv() && n.path in old(store.view)
      ensures ok <==> n.path in old(store.refs)[cl]
      ensures !ok ==> unchanged(this) && unchanged(nodes)
      ensures ok ==> store == Index.Unsubscribe(old(store), cl, n.path)
      ensures LosesNodes()
      ensures forall c | c in old(store.refs) :: c.subscriptions == old(c.subscriptions)
    {
      assert NodeOk(at, n.path, store.view[n.path], n);
      ListedBothSides(store, cl, n.path);
      ghost var st := store;
      ok := TakeSubscriber(n, cl);
      if ok {
        PruneAfter(n, cl, st);
      }
    }

    /** The walk of `trie_unsubscribe`, which creates nothing. */
    method Lookup(parts: Topic) returns (cur: Node?)
      requires Inv()
      ensures cur == Find(at, TextPath(parts))
    {
      cur := root;
      var i := 0;
      while i < |parts|
        invariant i <= |parts| && cur == Find(at, TextPath(parts[..i])) && cur != null
      {
        ghost var p := TextPath(parts[..i]);
        assert NodeOk(at, p, store.view[p], cur);
        TextPathStep(parts, i);
        if parts[i] == PLUS_TEXT {
          cur := cur.plusChild;
        } else if parts[i] == STAR_TEXT {
          cur := cur.starChild;
        } else {
          cur := FindChild(cur, parts[i]);
        }
        i := i + 1;
        if cur == null {
          MissingPrefix(parts, i);
          return;
        }
      }
      Whole(parts);
    }

    lemma MissingPrefix(parts: Topic, i: nat)
      requires Inv() && i <= |parts| && Find(at, TextPath(parts[..i])) == null
      ensures Find(at, TextPath(parts)) == null
    {
      TextPathAbove(parts, i);
      if TextPath(parts) in at {
        PrefixIsLive(store.view, TextPath(parts[..i]), TextPath(parts));
      }
    }

    /** Taking one reference off, on the heap and in the value, keeps the two in step. */
    static lemma {:induction false} TiedRemove(at: map<Path, Node>, ns: seq<Node>, ps: seq<Path>, n: Node, p: Path)
      requires Tied(at, ns, ps) && Find(at, p) == n
      requires forall q | q in at :: at[q].path == q
      ensures Tied(at, RemoveFirst(ns, n), RemoveFirst(ps, p))
    {
      if ps != [] {
        assert Find(at, ps[0]) == ns[0];
        assert ns[0] == n <==> ps[0] == p;
        assert Tied(at, ns[1..], ps[1..]) by {
          forall i | 0 <= i < |ps| - 1
            ensures Find(at, ps[1..][i]) == ns[1..][i]
          {
            assert Find(at, ps[i + 1]) == ns[i + 1];
          }
        }
        if ps[0] != p {
          TiedRemove(at, ns[1..], ps[1..], n, p);
          TiedCons(at, ns[0], RemoveFirst(ns[1..], n), RemoveFirst(ps[1..], p));
        }
      }
    }

    /** References stay tied while nodes go, as long as their own targets stay. */
    static lemma TiedLess(at0: map<Path, Node>, at1: map<Path, Node>, ns: seq<Node>, ps: seq<Path>)
      requires Tied(at0, ns, ps)
      requires forall q | q in at1 :: q in at0 && at1[q] == at0[q]
      requires forall p | p in ps :: p in at1
      ensures Tied(at1, ns, ps)
    {
      assert forall i | 0 <= i < |ps| :: Find(at0, ps[i]) == ns[i];
    }

    static lemma TiedRemoveLess(
      at0: map<Path, Node>, at1: map<Path, Node>, ns: seq<Node>, ps: seq<Path>, n: Node, p: Path)
      requires Tied(at0, ns, ps) && Find(at0, p) == n
      requires forall q | q in at0 :: at0[q].path == q
      requires forall q | q in at1 :: q in at0 && at1[q] == at0[q]
      requires forall q | q in RemoveFirst(ps, p) :: q in at1
      ensures Tied(at1, RemoveFirst(ns, n), RemoveFirst(ps, p))
    {
      TiedRemove(at0, ns, ps, n, p);
      TiedLess(at0, at1, RemoveFirst(ns, n), RemoveFirst(ps, p));
    }

    /** After a removal, every client but possibly `cl` is still tied. */
    twostate lemma TiedAfterDrop(cl: Client)
      requires old(AllTied()) && LosesNodes() && Agree(store) && at.Keys == store.view.Keys && cl in old(store.refs)
      requires store.refs.Keys == old(store.refs).Keys
      requires forall c | c in store.refs && c != cl ::
        c.subscriptions == old(c.subscriptions) && store.refs[c] == old(store.refs)[c]
      ensures forall c | c in store.refs && c != cl :: Tied(at, c.subscriptions, store.refs[c])
    {
      forall c | c in store.refs && c != cl
        ensures Tied(at, c.subscriptions, store.refs[c])
      {
        RefsAreLive(store, c);
        TiedLess(old(at), at, c.subscriptions, store.refs[c]);
      }
    }

    /** The loop of `trie_unsubscribe` that takes the back-reference off the client's list. */
    method DropReference(cl: Client, n: Node)
      modifies cl`subscriptions
      ensures cl.subscriptions == RemoveFirst(old(cl.subscriptions), n)
    {
      var i := 0;
      while i < |cl.subscriptions|
        invariant i <= |cl.subscriptions| && cl.subscriptions == old(cl.subscriptions)
        invariant n !in cl.subscriptions[..i]
      {
        if cl.subscriptions[i] == n {
          RemoveFirstAt(cl.subscriptions, n, i);
          cl.subscriptions := cl.subscriptions[..i] + cl.subscriptions[i + 1..];
          return;
        }
        i := i + 1;
      }
      Whole(cl.subscriptions);
    }

    twostate lemma TiedAfterUnsubscribe(cl: Client, new cur: Node)
      requires old(Shape()) && old(AllTied()) && LosesNodes() && Agree(store) && at.Keys == store.view.Keys
      requires cl in old(store.refs) && cur.path in old(at) && old(at)[cur.path] == cur
      requires store.refs == old(store.refs)[cl := RemoveFirst(old(store.refs)[cl], cur.path)]
      requires cl.subscriptions == RemoveFirst(old(cl.subscriptions), cur)
      requires forall c | c in old(store.refs) && c != cl :: c.subscriptions == old(c.subscriptions)
      ensures AllTied()
    {
      TiedAfterDrop(cl);
      PathsOfNodes();
      RefsAreLive(store, cl);
      assert old(Tied(at, cl.subscriptions, store.refs[cl]));
      TiedRemoveLess(old(at), at, old(cl.subscriptions), old(store.refs)[cl], cur, cur.path);
    }

    twostate lemma PathsOfNodes()
      requires old(Shape())
      ensures forall q | q in old(at) :: old(at)[q].path == q
    {
      forall q | q in old(at)
        ensures old(at)[q].path == q
      {
        assert old(NodeOk(at, q, store.view[q], at[q]));
      }
    }

    /** `trie_unsubscribe` after the walk: take the entry off the node, then the reference
        off the client. */
    method Detach(cl: Client, cur: Node) returns (ok: bool)
      requires Valid() && cl in store.refs && Live(cur)
      modifies this`at, this`store, nodes, cl`subscriptions
      ensures Inv() && AllTied() && LosesNodes() && cur.path in old(store.view)
      ensures ok <==> cur.path in old(store.refs)[cl]
      ensures ok ==> store == Index.Unsubscribe(old(store), cl, cur.path)
      ensures !ok ==> unchanged(this) && unchanged(nodes) && unchanged(cl)
    {
      ok := RemoveSubscriberFromNode(cur, cl);
      if ok {
        DropReference(cl, cur);
        TiedAfterUnsubscribe(cl, cur);
      }
    }

    /** `trie_unsubscribe` */
    method Unsubscribe(cl: Client, pattern: bytes) returns (ok: bool)
      requires Valid() && cl in store.refs
      modifies this`at, this`store, nodes, cl`subscriptions
      ensures Valid()
      ensures ok <==> |Tokens(pattern)| <= MAX_SEGMENTS && TextPath(Tokens(pattern)) in old(store.refs)[cl]
      ensures ok ==> TextPath(Tokens(pattern)) in old(store.view)
      ensures ok ==> store == Index.Unsubscribe(old(store), cl, TextPath(Tokens(pattern)))
      ensures !ok ==> unchanged(this) && unchanged(nodes) && unchanged(cl)
      ensures LosesNodes()
    {
      var parts, more := Split(pattern);
      if more {
        return false;
      }
      var cur := Lookup(parts);
      ListedBothSides(store, cl, TextPath(parts));
      if cur == null {
        return false;
      }
      NodeAt(TextPath(parts));
      ok := Detach(cl, cur);
    }

    lemma NodeAt(p: Path)
      requires Shape() && p in at
      ensures at[p].path == p && Live(at[p])
    {
      assert NodeOk(at, p, store.view[p], at[p]);
    }

    /** One round of the cleanup loop; `ns` is what is left of the client's list. */
    method DropNewest(cl: Client, n: Node, ghost ns: seq<Node>)
      requires Inv() && cl in store.refs && ns != [] && n == ns[0] && Tied(at, ns, store.refs[cl])
      modifies this`at, this`store, nodes
      ensures Inv() && LosesNodes() && old(store.refs)[cl] != [] && old(store.refs)[cl][0] in old(store.view)
      ensures store == Index.Unsubscribe(old(store), cl, old(store.refs)[cl][0])
      ensures Tied(at, ns[1..], store.refs[cl])
      ensures forall c | c in old(store.refs) :: c.subscriptions == old(c.subscriptions)
    {
      ghost var ps, at0 := store.refs[cl], at;
      PathsAgree(ns, ps);
      var ok := RemoveSubscriberFromNode(n, cl);
      RefsAreLive(store, cl);
      TiedRest(at0, at, ns, ps);
    }

    /** The loop of `cleanup_client_subscriptions`. The list itself is left alone; each
        node it leads to is still live when its turn comes. */
    method DropAll(cl: Client)
      requires Valid() && cl in store.refs
      modifies this`at, this`store, nodes
      ensures Inv() && LosesNodes() && store == Cleanup(old(store), cl) && store.refs == old(store.refs)[cl := []]
      ensures forall c | c in old(store.refs) :: c.subscriptions == old(c.subscriptions)
    {
      ghost var st, all := store, cl.subscriptions;
      Whole(all);
      CleanupKeeps(st, cl);
      var i := 0;
      while i < |cl.subscriptions|
        invariant i <= |all| && cl.subscriptions == all
        invariant Inv() && LosesNodes() && cl in store.refs && Cleanup(store, cl) == Cleanup(st, cl)
        invariant Tied(at, all[i..], store.refs[cl])
        invariant forall c | c in st.refs :: c in store.refs && c.subscriptions == old(c.subscriptions)
      {
        SliceStep(all, i);
        DropNewest(cl, cl.subscriptions[i], all[i..]);
        i := i + 1;
      }
    }

    /** `cl->subscriptions = NULL` */
    method ClearList(cl: Client)
      requires Inv()
      modifies cl`subscriptions
      ensures Inv() && cl.subscriptions == []
      ensures forall c | c in old(store.refs) && c != cl :: c.subscriptions == old(c.subscriptions)
    {
      cl.subscriptions := [];
    }

    twostate lemma TiedAfterCleanup(cl: Client)
      requires old(AllTied()) && LosesNodes() && Agree(store) && at.Keys == store.view.Keys && cl in old(store.refs)
      requires store.refs == old(store.refs)[cl := []] && cl.subscriptions == []
      requires forall c | c in old(store.refs) && c != cl :: c.subscriptions == old(c.subscriptions)
      ensures AllTied()
    {
      TiedAfterDrop(cl);
    }

    /** `cleanup_client_subscriptions` */
    method CleanupClientSubscriptions(cl: Client)
      requires Valid() && cl in store.refs
      modifies this`at, this`store, nodes, cl`subscriptions
      ensures Valid() && store == Cleanup(old(store), cl)
      ensures LosesNodes()
    {
      DropAll(cl);
      ClearList(cl);
      TiedAfterCleanup(cl);
    }

    lemma PathsAgree(ns: seq<Node>, ps: seq<Path>)
      requires Inv() && Tied(at, ns, ps) && ns != []
      ensures ps != [] && ns[0].path == ps[0] && Live(ns[0])
    {
      assert Find(at, ps[0]) == ns[0];
      assert NodeOk(at, ps[0], store.view[ps[0]], at[ps[0]]);
    }

    static lemma TiedRest(at0: map<Path, Node>, at1: map<Path, Node>, ns: seq<Node>, ps: seq<Path>)
      requires Tied(at0, ns, ps) && ns != []
      requires forall q | q in at1 :: q in at0 && at1[q] == at0[q]
      requires forall q | q in ps[1..] :: q in at1
      ensures Tied(at1, ns[1..], ps[1..])
    {
      forall i | 0 <= i < |ps| - 1
        ensures Find(at1, ps[1..][i]) == ns[1..][i]
      {
        assert Find(at0, ps[i + 1]) == ns[i + 1];
        assert ps[i + 1] == ps[1..][i];
      }
    }

    // ----------------------------------------------------------------
    // Publishing

    /** The client entries copied to the front of the result list. */
    method PushAll(list: seq<Client>, out: seq<Client>) returns (all: seq<Client>)
      ensures all == Reversed(list) + out
    {
      all := out;
      var i := 0;
      Whole(list);
      AppendNothing(out);
      while i < |list|
        invariant i <= |list| && all == Reversed(list[..i]) + out
      {
        ReversedStep(list, i, out);
        all := [list[i]] + all;
        i := i + 1;
      }
    }

    /** The loop that lets a `*` eat levels. */
    method CollectStar(k: Node, T: Topic, idx: nat, out: seq<Client>) returns (all: seq<Client>)
      requires Inv() && Live(k) && idx <= |T|
      ensures all == Eaten(store.view, k.path, T[idx..], out)
      decreases MAX_SEGMENTS - Depth(k.path), 2
    {
      all := out;
      var j := idx;
      while j < |T|
        invariant idx <= j <= |T|
        invariant Eaten(store.view, k.path, T[j..], all) == Eaten(store.view, k.path, T[idx..], out)
      {
        EatenStep(store.view, k.path, T, j, all);
        all := Collect(k, T, j, all);
        j := j + 1;
      }
    }

    lemma ChildIsLive(n: Node, i: nat)
      requires Inv() && Live(n) && i < |n.children|
      ensures ghost var c := n.children[i];
        Live(c.node) && c.node.path == Kid(n.path, Name(c.name)) && Fits(c.node.path)
    {
      ghost var p := n.path;
      assert NodeOk(at, p, store.view[p], n);
      assert ChildOk(at, p, n.children[i], store.view[p].names[i]);
      ghost var k := Kid(p, Name(n.children[i].name));
      assert NodeOk(at, k, store.view[k], at[k]);
    }

    /** The loop over the named children, of which at most one has the right name. */
    method CollectExact(n: Node, T: Topic, idx: nat, out: seq<Client>) returns (all: seq<Client>)
      requires Inv() && Live(n) && idx < |T|
      ensures all == Collected(store.view, Kid(n.path, Name(T[idx])), T[idx + 1..], out)
      decreases MAX_SEGMENTS - Depth(n.path), 0
    {
      ghost var p, names, k := n.path, store.view[n.path].names, Kid(n.path, Name(T[idx]));
      assert NodeOk(at, p, store.view[p], n);
      all := out;
      var i := 0;
      while i < |n.children|
        invariant i <= |n.children|
        invariant all == if T[idx] in names[..i] then Collected(store.view, k, T[idx + 1..], out) else out
      {
        assert ChildOk(at, p, n.children[i], names[i]);
        MemberStep(names, i, T[idx]);
        if n.children[i].name == T[idx] {
          ChildIsLive(n, i);
          all := Collect(n.children[i].node, T, idx + 1, all);
        }
        i := i + 1;
      }
      Whole(names);
    }

    /** The `*` part of `collect`: zero levels, then eaten levels. */
    method CollectViaStar(n: Node, T: Topic, idx: nat, out: seq<Client>) returns (all: seq<Client>)
      requires Inv() && Live(n) && idx <= |T|
      ensures ghost var k := Kid(n.path, Star); all == Eaten(store.view, k, T[idx..], Pushed(store.view, k, out))
      decreases MAX_SEGMENTS - Depth(n.path), 0
    {
      ghost var v, k := store.view, Kid(n.path, Star);
      assert NodeOk(at, n.path, v[n.path], n);
      all := out;
      if n.starChild != null {
        assert NodeOk(at, k, v[k], n.starChild) && Fits(k);
        all := PushAll(n.starChild.subscribers, all);
        all := CollectStar(n.starChild, T, idx, all);
      } else {
        NothingEaten(v, k, T[idx..], out);
      }
    }

    /** The `+` part of `collect`. */
    method CollectViaPlus(n: Node, T: Topic, idx: nat, out: seq<Client>) returns (all: seq<Client>)
      requires Inv() && Live(n) && idx < |T|
      ensures all == Collected(store.view, Kid(n.path, Plus), T[idx + 1..], out)
      decreases MAX_SEGMENTS - Depth(n.path), 0
    {
      ghost var k := Kid(n.path, Plus);
      assert NodeOk(at, n.path, store.view[n.path], n);
      all := out;
      if n.plusChild != null {
        assert NodeOk(at, k, store.view[k], n.plusChild) && Fits(k);
        all := Collect(n.plusChild, T, idx + 1, all);
      }
    }

    /** `collect` */
    method Collect(n: Node, T: Topic, idx: nat, out: seq<Client>) returns (all: seq<Client>)
      requires Inv() && Live(n) && idx <= |T|
      ensures all == Collected(store.view, n.path, T[idx..], out)
      decreases MAX_SEGMENTS - Depth(n.path), 1
    {
      assert NodeOk(at, n.path, store.view[n.path], n);
      all := CollectViaStar(n, T, idx, out);
      if idx == |T| {
        all := PushAll(n.subscribers, all);
        return;
      }
      SliceStep(T, idx);
      all := CollectExact(n, T, idx, all);
      all := CollectViaPlus(n, T, idx, all);
    }

    /** The segments `trie_publish` searches for: 64 at most. */
    static function TopicOf(text: bytes): Topic {
      if |Tokens(text)| > MAX_SEGMENTS then Tokens(text)[..MAX_SEGMENTS] else Tokens(text)
    }

    /** The loop over the collected list: each of the first 1024 distinct clients is sent
        the packet when it comes up for the first time. */
    method SendDistinct(raw: seq<Client>, buf: bytes) returns (seen: seq<Client>, sends: seq<Sending>)
      ensures seen == Shortened(Distinct(raw))
      ensures |sends| == |seen|
      ensures forall i | 0 <= i < |seen| :: sends[i] == Sending(seen[i].fd, Msg(MSG_PUBLISH, buf))
    {
      seen, sends := [], [];
      var i := 0;
      Whole(raw);
      while i < |raw|
        invariant i <= |raw| && seen == Shortened(Distinct(raw[..i]))
        invariant |sends| == |seen|
        invariant forall j | 0 <= j < |seen| :: sends[j] == Sending(seen[j].fd, Msg(MSG_PUBLISH, buf))
      {
        var dup, k := false, 0;
        while k < |seen| && !dup
          invariant k <= |seen|
          invariant dup <==> raw[i] in seen[..k]
          invariant forall j | 0 <= j < |seen| :: sends[j] == Sending(seen[j].fd, Msg(MSG_PUBLISH, buf))
        {
          Snoc(seen, k);
          dup := seen[k] == raw[i];
          k := k + 1;
        }
        Whole(seen);
        DistinctStep(raw, i);
        if !dup && |seen| < MAX_RECEIVERS {
          seen, sends := seen + [raw[i]], sends + [Sending(raw[i].fd, Msg(MSG_PUBLISH, buf))];
        }
        i := i + 1;
      }
    }

    /** `trie_publish`: one send attempt for each client of the audience, in its order and
        on the socket it has at the moment. */
    method Publish(topic: bytes, buf: bytes) returns (seen: seq<Client>, sends: seq<Sending>)
      requires Inv()
      ensures seen == Audience(store.view, TopicOf(topic))
      ensures |sends| == |seen|
      ensures forall i | 0 <= i < |seen| :: sends[i] == Sending(seen[i].fd, Msg(MSG_PUBLISH, buf))
      ensures NoDuplicates(seen) && forall c | c in seen :: c in Receivers(store, TopicOf(topic))
      ensures ghost var all := Receivers(store, TopicOf(topic));
        |seen| == if |all| < MAX_RECEIVERS then |all| else MAX_RECEIVERS
    {
      var parts, more := Split(topic);
      assert NodeOk(at, Root, store.view[Root], root);
      var raw := Collect(root, parts, 0, []);
      Whole(parts);
      seen, sends := SendDistinct(raw, buf);
      AudienceMeans(store, parts);
    }
  }
}
