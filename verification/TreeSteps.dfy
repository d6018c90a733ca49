/** The moves of an insertion on the pages: each takes a state of the pages in which one place of the
    tree is being worked on to the next such state. */
module TreeSteps {
  import opened Basics
  import opened ByteStrings
  import opened Nodes
  import opened Trees
  import opened TreeInsert

  /** The open place holds `t`. `slack` are the pages outside the tree. */
  ghost predicate Settled(pages: Pages, c: Ctx, t: Tree, h: nat, slack: multiset<nat>) {
    && CtxOk(c, h) && CtxMatches(pages, c, t.id) && Matches(pages, t)
    && Wf(t, h, HoleLo(c), HoleHi(c), c.Top?)
    && CtxIds(c) + Ids(t) + slack == multiset(pages.Keys)
  }

  /** The open place is torn in two, with `key` between the halves. */
  ghost predicate Rising(pages: Pages, c: Ctx, l: Tree, r: Tree, key: ByteString, h: nat, slack: multiset<nat>) {
    && Halves(c, l, r, key, h) && CtxMatches(pages, c, l.id) && Matches(pages, l) && Matches(pages, r)
    && CtxIds(c) + Ids(l) + Ids(r) + slack == multiset(pages.Keys)
  }

  /** Every page occurs once. */
  lemma Once(pages: Pages, a: multiset<nat>, b: multiset<nat>, rest: multiset<nat>)
    requires a + b + rest == multiset(pages.Keys)
    ensures forall x | x in a :: x in pages && x !in b
    ensures forall x | x in b :: x in pages && x !in a
  {
    forall x | x in a + b ensures x in pages && (x !in a || x !in b) {
      assert (a + b + rest)[x] == a[x] + b[x] + rest[x];
      assert multiset(pages.Keys)[x] == if x in pages.Keys then 1 else 0;
    }
  }

  ghost function Below(c: Ctx, l: Tree, r: Tree): multiset<nat>
    requires c.In?
  {
    IdsAll(c.left) + Ids(l) + Ids(r) + IdsAll(c.right)
  }

  /** The page of the open place occurs nowhere else. */
  lemma Apart(pages: Pages, pages2: Pages, c: Ctx, l: Tree, r: Tree, slack: multiset<nat>)
    requires c.In? && CtxIds(c) + Ids(l) + Ids(r) + slack == multiset(pages.Keys)
    requires forall id | id in pages && id != c.id :: id in pages2 && pages2[id] == pages[id]
    ensures Agree(pages, pages2, Below(c, l, r)) && Agree(pages, pages2, CtxIds(c.up))
    ensures CtxIds(c.up) + (multiset{c.id} + Below(c, l, r)) + slack == multiset(pages.Keys)
  {
    var below := Below(c, l, r);
    assert multiset{c.id} + (CtxIds(c.up) + below) + slack == multiset(pages.Keys);
    Once(pages, multiset{c.id}, CtxIds(c.up) + below, slack);
    assert c.id in multiset{c.id};
    forall id | id in below || id in CtxIds(c.up) ensures id != c.id {
      assert id in CtxIds(c.up) + below;
    }
  }

  lemma NewKey(pages: Pages, id: nat, page: NodePage)
    requires id !in pages
    ensures multiset(pages[id := page].Keys) == multiset(pages.Keys) + multiset{id}
  {
    assert pages[id := page].Keys == pages.Keys + {id};
  }

  lemma SameKeys(pages: Pages, id: nat, page: NodePage)
    requires id in pages
    ensures multiset(pages[id := page].Keys) == multiset(pages.Keys)
  {
    assert pages[id := page].Keys == pages.Keys;
  }

  lemma SettledTree(pages: Pages, c: Ctx, t: Tree, h: nat, slack: multiset<nat>)
    requires Settled(pages, c, t, h, slack)
    ensures Matches(pages, Plug(c, t)) && Wf(Plug(c, t), h + Depth(c), 0.0, 1.0, true)
    ensures Ids(Plug(c, t)) + slack == multiset(pages.Keys)
    ensures Flat(Plug(c, t)) == Before(c) + Flat(t) + After(c)
    ensures LeafIds(Plug(c, t)) == LeavesBefore(c) + LeafIds(t) + LeavesAfter(c)
  {
    hide CtxOk, CtxMatches, Matches, Wf, Rank;
    PlugMatches(pages, c, t);
    PlugWf(c, t, h);
    PlugIds(c, t);
    PlugFlat(c, t);
    PlugLeaves(c, t);
  }

  lemma {:induction false} PlugRoot(c: Ctx, t: Tree)
    ensures Plug(c, t).id == if c.Top? then t.id else Path(c)[0]
  {
    if c.In? {
      PlugRoot(c.up, Node(c.id, c.keys, c.left + [t] + c.right));
    }
  }

  /** Children of a page that is rewritten still match. */
  lemma WideFrame(pages: Pages, pages2: Pages, c: Ctx, l: Tree, r: Tree)
    requires c.In? && CtxMatches(pages, c, l.id) && Matches(pages, l) && Matches(pages, r)
    requires Agree(pages, pages2, Below(c, l, r))
    ensures var kids := WideKids(c, l, r); forall i | 0 <= i < |kids| :: Matches(pages2, kids[i])
  {
    hide Matches, CtxMatches, Agree, Ids, IdsAll, KidIds;
    var kids := WideKids(c, l, r);
    var n, below := |c.left|, Below(c, l, r);
    CtxKid(pages, c, l.id);
    forall i | 0 <= i < |kids| ensures Matches(pages, kids[i]) && Ids(kids[i]) <= below {
      if i < n {
        IdIn(c.left, i);
        assert kids[i] == c.left[i];
      } else if i > n + 1 {
        IdIn(c.right, i - n - 2);
        assert kids[i] == c.right[i - n - 2];
      }
    }
    forall i | 0 <= i < |kids| ensures Matches(pages2, kids[i]) {
      AgreeSub(pages, pages2, Ids(kids[i]), below);
      FrameMatches(pages, pages2, kids[i]);
    }
  }

  lemma AgreeSub(pages: Pages, pages2: Pages, a: multiset<nat>, b: multiset<nat>)
    requires Agree(pages, pages2, b) && a <= b
    ensures Agree(pages, pages2, a)
  {
  }

  lemma CtxKid(pages: Pages, c: Ctx, hole: nat)
    requires c.In? && CtxMatches(pages, c, hole)
    ensures forall i | 0 <= i < |c.left| :: Matches(pages, c.left[i])
    ensures forall i | 0 <= i < |c.right| :: Matches(pages, c.right[i])
    ensures c.id in pages && pages[c.id] == InnerPage(c.keys, KidIds(c.left) + [hole] + KidIds(c.right))
    ensures CtxMatches(pages, c.up, c.id)
  {
  }

  /** A page with room takes the new child and the tree is whole again. */
  lemma Absorb(pages: Pages, c: Ctx, l: Tree, r: Tree, key: ByteString, h: nat, slack: multiset<nat>)
    requires c.In? && Rising(pages, c, l, r, key, h, slack) && InnerHasSpace(c.keys, key)
    ensures c.id in pages && GoodInner(pages[c.id])
    ensures Settled(pages[c.id := InnerInsert(pages[c.id], key, r.id)], c.up,
                    Node(c.id, WideKeys(c, key), WideKids(c, l, r)), h + 1, slack)
  {
    hide CtxOk, CtxMatches, Matches, Rank, Less, InnerUsed, LowerBound, Wf, SortedKeys, CtxIds, Ids, IdsAll;
    CtxKid(pages, c, l.id);
    CtxFacts(c, h);
    WidePage(c, l, r, key, h);
    var page := InnerInsert(pages[c.id], key, r.id);
    var pages2 := pages[c.id := page];
    var t := Node(c.id, WideKeys(c, key), WideKids(c, l, r));
    SameKeys(pages, c.id, page);
    Apart(pages, pages2, c, l, r, slack);
    WideFrame(pages, pages2, c, l, r);
    NodeMatches(pages2, t);
    FrameCtx(pages, pages2, c.up, c.id);
    WideWf(c, l, r, key, h);
    Inserted(c.keys[..|c.left|], key, c.keys[|c.left|..]);
    assert c.keys[..|c.left|] + c.keys[|c.left|..] == c.keys;
    WfNode(t, h + 1, c.lo, c.hi, c.up.Top?);
    NodeIds(c, l, r, key);
  }

  lemma NodeIds(c: Ctx, l: Tree, r: Tree, key: ByteString)
    requires c.In? && |c.left| <= |c.keys|
    ensures Ids(Node(c.id, WideKeys(c, key), WideKids(c, l, r))) == multiset{c.id} + Below(c, l, r)
  {
    WideContents(c, l, r);
  }

  lemma NodeMatches(pages: Pages, t: Tree)
    requires t.Node? && t.id in pages && pages[t.id] == InnerPage(t.keys, KidIds(t.kids))
    requires forall i | 0 <= i < |t.kids| :: Matches(pages, t.kids[i])
    ensures Matches(pages, t)
  {
  }

  lemma WfNode(t: Tree, h: nat, lo: real, hi: real, root: bool)
    requires t.Node? && h > 0 && WfKids(t.keys, t.kids, h - 1, lo, hi)
    requires |t.keys| >= (if root then 1 else 2) && InnerUsed(t.keys) <= INNER_SIZE
    ensures Wf(t, h, lo, hi, root)
  {
  }

  ghost function CutLeftTree(c: Ctx, l: Tree, r: Tree, key: ByteString): Tree
    requires c.In? && |c.left| + |c.right| == |c.keys| && CutAt(c, key) < |WideKeys(c, key)|
  {
    Node(c.id, WideKeys(c, key)[..CutAt(c, key)], WideKids(c, l, r)[..CutAt(c, key) + 1])
  }

  ghost function CutRightTree(c: Ctx, l: Tree, r: Tree, key: ByteString, id: nat): Tree
    requires c.In? && |c.left| + |c.right| == |c.keys| && CutAt(c, key) < |WideKeys(c, key)|
  {
    Node(id, WideKeys(c, key)[CutAt(c, key) + 1..], WideKids(c, l, r)[CutAt(c, key) + 1..])
  }

  function TwoPages(pages: Pages, x: nat, a: NodePage, y: nat, b: NodePage): Pages {
    pages[x := a][y := b]
  }

  /** A full page splits; the place above it is torn in two instead. */
  lemma SplitUp(pages: Pages, c: Ctx, l: Tree, r: Tree, key: ByteString, h: nat, slack: multiset<nat>, id: nat)
    requires c.In? && Rising(pages, c, l, r, key, h, slack) && !InnerHasSpace(c.keys, key) && id !in pages
    ensures c.id in pages && GoodInner(pages[c.id]) && InnerSplitAt(pages[c.id].keys) < |pages[c.id].keys|
    ensures |c.left| + |c.right| == |c.keys| && CutAt(c, key) < |WideKeys(c, key)|
    ensures var (a, mid, b) := InnerSplit(pages[c.id], key, r.id);
      Rising(TwoPages(pages, c.id, a, id, b), c.up, CutLeftTree(c, l, r, key), CutRightTree(c, l, r, key, id), mid,
             h + 1, slack)
  {
    hide CtxOk, CtxMatches, Matches, Rank, Less, InnerUsed, LowerBound, InnerSplitAt, Wf, SortedKeys, CtxIds, Ids,
         IdsAll, Agree, Below, InnerSplit;
    CtxKid(pages, c, l.id);
    CtxFacts(c, h);
    CutFits(c, key, h);
    SplitIsCut(c, l, r, key, h);
    var keys, kids, q := WideKeys(c, key), WideKids(c, l, r), CutAt(c, key);
    var (a, mid, b) := InnerSplit(pages[c.id], key, r.id);
    var pages2 := pages[c.id := a][id := b];
    var tl, tr := CutLeftTree(c, l, r, key), CutRightTree(c, l, r, key, id);
    WideWf(c, l, r, key, h);
    CutWf(keys, kids, h, c.lo, c.hi, q);
    WfNode(tl, h + 1, c.lo, Rank(mid), false);
    WfNode(tr, h + 1, Rank(mid), c.hi, false);
    Apart(pages, pages2, c, l, r, slack);
    WideFrame(pages, pages2, c, l, r);
    FrameCtx(pages, pages2, c.up, c.id);
    CutMatches(pages2, keys, kids, q, c.id, id);
    CutIds(c, l, r, key, id);
    NewKey(pages[c.id := a], id, b);
    SameKeys(pages, c.id, a);
    SumUp(CtxIds(c.up), Ids(tl), Ids(tr), slack, multiset{c.id} + Below(c, l, r), multiset{id});
  }

  lemma SumUp(up: multiset<nat>, x: multiset<nat>, y: multiset<nat>, slack: multiset<nat>, z: multiset<nat>,
              id: multiset<nat>)
    requires x + y == z + id
    ensures up + x + y + slack == (up + z + slack) + id
  {
    assert up + x + y + slack == up + (x + y) + slack;
  }

  lemma CutMatches(pages: Pages, keys: seq<ByteString>, kids: seq<Tree>, q: nat, a: nat, b: nat)
    requires |kids| == |keys| + 1 && q < |keys| && forall i | 0 <= i < |kids| :: Matches(pages, kids[i])
    requires a in pages && pages[a] == InnerPage(keys[..q], KidIds(kids)[..q + 1])
    requires b in pages && pages[b] == InnerPage(keys[q + 1..], KidIds(kids)[q + 1..])
    ensures Matches(pages, Node(a, keys[..q], kids[..q + 1])) && Matches(pages, Node(b, keys[q + 1..], kids[q + 1..]))
  {
    hide Matches;
    assert KidIds(kids)[..q + 1] == KidIds(kids[..q + 1]) && KidIds(kids)[q + 1..] == KidIds(kids[q + 1..]);
    NodeMatches(pages, Node(a, keys[..q], kids[..q + 1]));
    NodeMatches(pages, Node(b, keys[q + 1..], kids[q + 1..]));
  }

  lemma CutIds(c: Ctx, l: Tree, r: Tree, key: ByteString, id: nat)
    requires c.In? && |c.left| + |c.right| == |c.keys| && CutAt(c, key) < |WideKeys(c, key)|
    ensures Ids(CutLeftTree(c, l, r, key)) + Ids(CutRightTree(c, l, r, key, id))
         == multiset{c.id} + Below(c, l, r) + multiset{id}
  {
    var kids, q := WideKids(c, l, r), CutAt(c, key);
    assert kids == kids[..q + 1] + kids[q + 1..];
    AllAppend(kids[..q + 1], kids[q + 1..]);
    WideContents(c, l, r);
  }

  lemma CutContents(c: Ctx, l: Tree, r: Tree, key: ByteString, id: nat)
    requires c.In? && |c.left| + |c.right| == |c.keys| && CutAt(c, key) < |WideKeys(c, key)|
    ensures var tl, tr := CutLeftTree(c, l, r, key), CutRightTree(c, l, r, key, id);
      && Flat(tl) + Flat(tr) == FlatAll(c.left) + (Flat(l) + Flat(r)) + FlatAll(c.right)
      && LeafIds(tl) + LeafIds(tr) == LeafIdsAll(c.left) + (LeafIds(l) + LeafIds(r)) + LeafIdsAll(c.right)
  {
    var kids, q := WideKids(c, l, r), CutAt(c, key);
    assert kids == kids[..q + 1] + kids[q + 1..];
    AllAppend(kids[..q + 1], kids[q + 1..]);
    WideContents(c, l, r);
  }

  /** The root keeps its page: what it held moves to a new one. */
  ghost function Moved(t: Tree, id: nat): Tree {
    match t
    case Leaf(_, entries) => Leaf(id, entries)
    case Node(_, keys, kids) => Node(id, keys, kids)
  }

  lemma MovedWf(t: Tree, id: nat, h: nat, lo: real, hi: real, root: bool)
    requires Wf(t, h, lo, hi, root)
    ensures Wf(Moved(t, id), h, lo, hi, root) && Flat(Moved(t, id)) == Flat(t)
  {
  }

  lemma GrowRoot(pages: Pages, pages2: Pages, l: Tree, r: Tree, key: ByteString, h: nat, slack: multiset<nat>, id: nat)
    requires Rising(pages, Top, l, r, key, h, slack) && id !in pages
    requires pages2.Keys == pages.Keys + {id}
    requires Matches(pages2, r) && Agree(pages, pages2, Ids(l) - multiset{l.id})
    requires pages2[l.id] == InnerPage([key], [id, r.id])
    requires if l.Leaf? then pages2[id].LeafPage? && pages2[id].entries == l.entries else pages2[id] == pages[l.id]
    ensures Settled(pages2, Top, Node(l.id, [key], [Moved(l, id), r]), h + 1, slack)
    ensures Flat(Node(l.id, [key], [Moved(l, id), r])) == Flat(l) + Flat(r)
    ensures l.Node? ==> LeafIds(Node(l.id, [key], [Moved(l, id), r])) == LeafIds(l) + LeafIds(r)
    ensures l.Leaf? ==> LeafIds(Node(l.id, [key], [Moved(l, id), r])) == [id] + LeafIds(r)
  {
    hide Rank, Less, Wf, Matches, Agree, CtxMatches, LeafIds, Flat, Halves;
    var m := Moved(l, id);
    var t := Node(l.id, [key], [m, r]);
    GrowHalves(l, r, key, h, id);
    InPages(pages, l);
    GrowIds(pages, pages2, l, r, slack, id);
    MovedMatches(pages, pages2, l, id);
    assert KidIds([m, r]) == [id, r.id];
    assert t.kids[0] == m && t.kids[1] == r;
    NodeMatches(pages2, t);
    GrowContents(l, r, key, id);
    TopIs(pages2, h + 1, t.id);
  }

  lemma InPages(pages: Pages, t: Tree)
    requires Matches(pages, t)
    ensures t.id in pages
  {
  }

  lemma TopIs(pages: Pages, h: nat, id: nat)
    ensures CtxOk(Top, h) && CtxMatches(pages, Top, id) && CtxIds(Top) == multiset{} && HoleLo(Top) == 0.0
    ensures HoleHi(Top) == 1.0
  {
  }

  lemma GrowHalves(l: Tree, r: Tree, key: ByteString, h: nat, id: nat)
    requires Halves(Top, l, r, key, h)
    ensures Wf(Node(l.id, [key], [Moved(l, id), r]), h + 1, 0.0, 1.0, true)
  {
    hide Rank, Less, Wf;
    MovedWf(l, id, h, 0.0, Rank(key), false);
    InnerUsedOne(key);
    WfNode(Node(l.id, [key], [Moved(l, id), r]), h + 1, 0.0, 1.0, true);
  }

  lemma GrowContents(l: Tree, r: Tree, key: ByteString, id: nat)
    ensures Flat(Node(l.id, [key], [Moved(l, id), r])) == Flat(l) + Flat(r)
    ensures l.Node? ==> LeafIds(Node(l.id, [key], [Moved(l, id), r])) == LeafIds(l) + LeafIds(r)
    ensures l.Leaf? ==> LeafIds(Node(l.id, [key], [Moved(l, id), r])) == [id] + LeafIds(r)
  {
    var m := Moved(l, id);
    assert [m, r] == [m] + [r];
    AllAppend([m], [r]);
    AllOne(m);
    AllOne(r);
  }

  lemma MovedMatches(pages: Pages, pages2: Pages, t: Tree, id: nat)
    requires Matches(pages, t) && Agree(pages, pages2, Ids(t) - multiset{t.id}) && id in pages2
    requires if t.Leaf? then pages2[id].LeafPage? && pages2[id].entries == t.entries else pages2[id] == pages[t.id]
    ensures Matches(pages2, Moved(t, id))
  {
    if t.Node? {
      forall i | 0 <= i < |t.kids| ensures Matches(pages2, t.kids[i]) {
        IdIn(t.kids, i);
        FrameMatches(pages, pages2, t.kids[i]);
      }
    }
  }

  lemma GrowIds(pages: Pages, pages2: Pages, l: Tree, r: Tree, slack: multiset<nat>, id: nat)
    requires Ids(l) + Ids(r) + slack == multiset(pages.Keys) && id !in pages && pages2.Keys == pages.Keys + {id}
    ensures Ids(Node(l.id, [], [Moved(l, id), r])) + slack == multiset(pages2.Keys)
  {
    var m := Moved(l, id);
    TwoIds(m, r);
    MovedIds(l, id);
    GrowSum(Ids(l), Ids(m), Ids(r), slack, multiset{l.id}, multiset{id});
    assert multiset(pages2.Keys) == multiset(pages.Keys) + multiset{id};
  }

  lemma TwoIds(m: Tree, r: Tree)
    ensures IdsAll([m, r]) == Ids(m) + Ids(r)
  {
    assert [m, r] == [m] + [r];
    AllAppend([m], [r]);
    AllOne(m);
    AllOne(r);
  }

  lemma GrowSum(l: multiset<nat>, m: multiset<nat>, r: multiset<nat>, slack: multiset<nat>, was: multiset<nat>,
                id: multiset<nat>)
    requires was + m == l + id
    ensures was + (m + r) + slack == (l + r + slack) + id
  {
    assert was + (m + r) + slack == (was + m) + r + slack;
  }

  lemma MovedIds(t: Tree, id: nat)
    ensures multiset{t.id} + Ids(Moved(t, id)) == Ids(t) + multiset{id}
  {
  }

  // ------------------------------------------------------------------ links between leaves

  ghost predicate LinkOk(pages: Pages, id: nat) {
    id == INVALID || (id in pages && pages[id].LeafPage?)
  }

  ghost predicate LeafLinked(pages: Pages, id: nat) {
    id in pages && pages[id].LeafPage? && LinkOk(pages, pages[id].prev) && LinkOk(pages, pages[id].next)
  }

  /** Links lead to leaves or nowhere, and never to the root. */
  ghost predicate Linked(pages: Pages, leaves: seq<nat>, root: nat) {
    && INVALID !in pages
    && forall i | 0 <= i < |leaves| ::
         LeafLinked(pages, leaves[i]) && pages[leaves[i]].prev != root && pages[leaves[i]].next != root
  }

  /** No leaf that was there is written. */
  ghost predicate LeavesKept(was: Pages, now: Pages) {
    forall id | id in was && was[id].LeafPage? :: id in now && now[id] == was[id]
  }

  /** Following the links to the right visits these leaves and no others. */
  ghost predicate Chain(pages: Pages, leaves: seq<nat>) {
    forall i {:trigger leaves[i]} | 0 <= i < |leaves| :: leaves[i] in pages && pages[leaves[i]].LeafPage?
      && pages[leaves[i]].next == (if i + 1 < |leaves| then leaves[i + 1] else INVALID)
  }

  /** Rewriting inner pages and adding pages leaves the links alone. */
  lemma InnerKeepsLinks(pages: Pages, pages2: Pages, leaves: seq<nat>, root: nat)
    requires forall id | id in pages && pages[id].LeafPage? :: id in pages2 && pages2[id] == pages[id]
    requires INVALID !in pages2
    ensures Linked(pages, leaves, root) ==> Linked(pages2, leaves, root)
    ensures Chain(pages, leaves) ==> Chain(pages2, leaves)
  {
  }

  /** So does giving a leaf other entries. */
  lemma EntriesKeepLinks(pages: Pages, id: nat, entries: seq<Entry>, leaves: seq<nat>, root: nat)
    requires id in pages && pages[id].LeafPage?
    ensures var pages2 := pages[id := pages[id].(entries := entries)];
      && (Linked(pages, leaves, root) ==> Linked(pages2, leaves, root))
      && (Chain(pages, leaves) ==> Chain(pages2, leaves))
  {
  }

  /** A leaf in the open place gets other entries. */
  lemma Rewrite(pages: Pages, c: Ctx, leaf: Tree, slack: multiset<nat>, entries: seq<Entry>)
    requires leaf.Leaf? && CtxMatches(pages, c, leaf.id) && Matches(pages, leaf)
    requires CtxIds(c) + Ids(leaf) + slack == multiset(pages.Keys)
    ensures leaf.id in pages && pages[leaf.id].LeafPage?
    ensures var pages2 := pages[leaf.id := pages[leaf.id].(entries := entries)];
      && CtxMatches(pages2, c, leaf.id) && Matches(pages2, Leaf(leaf.id, entries))
      && CtxIds(c) + Ids(Leaf(leaf.id, entries)) + slack == multiset(pages2.Keys)
  {
    hide CtxMatches;
    var pages2 := pages[leaf.id := pages[leaf.id].(entries := entries)];
    SameKeys(pages, leaf.id, pages2[leaf.id]);
    Once(pages, CtxIds(c), Ids(leaf), slack);
    assert leaf.id in Ids(leaf);
    FrameCtx(pages, pages2, c, leaf.id);
  }

  /** The state after a leaf split and before the tree above it knows. */
  ghost predicate Strung(pages: Pages, c: Ctx, l: Tree, r: Tree, root: nat) {
    && l.Leaf? && r.Leaf? && INVALID !in pages
    && if c.In? then Linked(pages, LeavesBefore(c) + [l.id, r.id] + LeavesAfter(c), root)
       else l.id == root && LeafLinked(pages, l.id) && LeafLinked(pages, r.id)
            && pages[l.id].prev != root && pages[l.id].next == r.id && pages[r.id].next != root
  }

  ghost function SplitPages(pages: Pages, id: nat, right: nat, a: seq<Entry>, b: seq<Entry>): Pages
    requires id in pages && pages[id].LeafPage?
  {
    pages[right := LeafPage(b, id, pages[id].next)][id := LeafPage(a, pages[id].prev, right)]
  }

  lemma SplitLeaf(pages: Pages, c: Ctx, leaf: Tree, slack: multiset<nat>, key: ByteString, value: ByteString,
                  right: nat)
    requires leaf.Leaf? && CtxOk(c, 0) && CtxMatches(pages, c, leaf.id) && Matches(pages, leaf)
    requires c.In? ==> |c.left| <= |c.keys|
    requires CtxIds(c) + Ids(leaf) + slack == multiset(pages.Keys) && right !in pages
    requires Sorted(leaf.entries, HoleLo(c), HoleHi(c)) && LeafUsed(leaf.entries) <= LEAF_SIZE
    requires HoleLo(c) <= Rank(key) < HoleHi(c) && Absent(leaf.entries, key) && !LeafHasSpace(leaf.entries, key, value)
    ensures 0 < LeafSplitAt(leaf.entries) && leaf.id in pages && pages[leaf.id].LeafPage?
    ensures var (a, b) := LeafSplit(leaf.entries, key, value);
      && b != [] && a + b == LeafInsert(leaf.entries, key, value)
      && Rising(SplitPages(pages, leaf.id, right, a, b), c, Leaf(leaf.id, a), Leaf(right, b), b[0].key, 0, slack)
  {
    hide CtxMatches, CtxOk, Sorted, Rank, Less, LeafUsed, LeafSplitAt, LeafSplit, LeafInsert, LeafHasSpace, CtxIds,
         Absent, Wf;
    LeafSplitSorted(leaf.entries, key, value, HoleLo(c), HoleHi(c));
    var (a, b) := LeafSplit(leaf.entries, key, value);
    var pages2 := SplitPages(pages, leaf.id, right, a, b);
    Once(pages, CtxIds(c), Ids(leaf), slack);
    assert leaf.id in Ids(leaf);
    FrameCtx(pages, pages2, c, leaf.id);
    NewKey(pages, right, LeafPage(b, leaf.id, pages[leaf.id].next));
    assert pages2.Keys == pages[right := LeafPage(b, leaf.id, pages[leaf.id].next)].Keys;
    LeafWf(Leaf(leaf.id, a), HoleLo(c), Rank(b[0].key));
    LeafWf(Leaf(right, b), Rank(b[0].key), HoleHi(c));
  }

  lemma LeafWf(t: Tree, lo: real, hi: real)
    requires t.Leaf? && Sorted(t.entries, lo, hi) && LeafUsed(t.entries) <= LEAF_SIZE && t.entries != []
    ensures Wf(t, 0, lo, hi, false)
  {
  }

  lemma SplitLinks(pages: Pages, c: Ctx, id: nat, slack: multiset<nat>, right: nat, a: seq<Entry>, b: seq<Entry>,
                   root: nat)
    requires id in pages && pages[id].LeafPage? && right !in pages && right != INVALID && root in pages
    requires CtxIds(c) + multiset{id} + slack == multiset(pages.Keys)
    requires Linked(pages, LeavesBefore(c) + [id] + LeavesAfter(c), root)
    requires if c.Top? then id == root else pages[root].InnerPage?
    ensures Strung(SplitPages(pages, id, right, a, b), c, Leaf(id, a), Leaf(right, b), root)
  {
    hide CtxIds, LeavesBefore, LeavesAfter;
    if c.In? {
      LinksSplit(pages, LeavesBefore(c), id, LeavesAfter(c), right, a, b, root);
    } else {
      assert LeavesBefore(c) + [id] + LeavesAfter(c) == LeavesBefore(c) + [id] + LeavesAfter(c);
      LinksSplitRoot(pages, LeavesBefore(c), id, LeavesAfter(c), right, a, b);
    }
  }

  lemma LinksSplit(pages: Pages, x: seq<nat>, id: nat, y: seq<nat>, right: nat, a: seq<Entry>, b: seq<Entry>, root: nat)
    requires id in pages && pages[id].LeafPage? && right !in pages && right != INVALID && root in pages && id != root
    requires Linked(pages, x + [id] + y, root)
    ensures Linked(SplitPages(pages, id, right, a, b), x + [id, right] + y, root)
  {
    var was, now := x + [id] + y, x + [id, right] + y;
    var pages2 := SplitPages(pages, id, right, a, b);
    var n := |x|;
    assert was[n] == id;
    forall i | 0 <= i < |now|
      ensures LeafLinked(pages2, now[i]) && pages2[now[i]].prev != root && pages2[now[i]].next != root
    {
      if i != n && i != n + 1 {
        assert now[i] == was[if i < n then i else i - 1];
      }
    }
  }

  lemma LinksSplitRoot(pages: Pages, x: seq<nat>, id: nat, y: seq<nat>, right: nat, a: seq<Entry>, b: seq<Entry>)
    requires id in pages && pages[id].LeafPage? && right !in pages && right != INVALID
    requires Linked(pages, x + [id] + y, id)
    ensures var pages2 := SplitPages(pages, id, right, a, b);
      && INVALID !in pages2 && LeafLinked(pages2, id) && LeafLinked(pages2, right)
      && pages2[id].prev != id && pages2[id].next == right && pages2[right].next != id
  {
    assert (x + [id] + y)[|x|] == id;
    assert LeafLinked(pages, id);
  }

  lemma {:induction false} LeavesAre(t: Tree)
    ensures multiset(LeafIds(t)) <= Ids(t)
    decreases t, 1
  {
    if t.Node? {
      LeavesAreAll(t.kids);
    }
  }

  lemma {:induction false} LeavesAreAll(kids: seq<Tree>)
    ensures multiset(LeafIdsAll(kids)) <= IdsAll(kids)
    decreases kids, 0
  {
    if kids != [] {
      LeavesAre(kids[0]);
      LeavesAreAll(kids[1..]);
    }
  }

  lemma {:induction false} CtxLeavesAre(c: Ctx)
    ensures multiset(LeavesBefore(c) + LeavesAfter(c)) <= CtxIds(c)
  {
    hide LeafIdsAll, IdsAll;
    if c.In? {
      CtxLeavesAre(c.up);
      LeavesAreAll(c.left);
      LeavesAreAll(c.right);
      var a, b, x, y := LeavesBefore(c.up), LeavesAfter(c.up), LeafIdsAll(c.left), LeafIdsAll(c.right);
      assert multiset((a + x) + (y + b)) == multiset(a + b) + multiset(x) + multiset(y);
    }
  }

  /** A split leaf stays where it was in the chain, with the new leaf behind it. */
  lemma SplitChain(pages: Pages, c: Ctx, id: nat, slack: multiset<nat>, right: nat, a: seq<Entry>, b: seq<Entry>)
    requires id in pages && pages[id].LeafPage? && right !in pages
    requires CtxIds(c) + multiset{id} + slack == multiset(pages.Keys)
    requires Chain(pages, LeavesBefore(c) + [id] + LeavesAfter(c))
    ensures Chain(SplitPages(pages, id, right, a, b), LeavesBefore(c) + [id, right] + LeavesAfter(c))
  {
    hide CtxIds, LeavesBefore, LeavesAfter, Chain;
    var x, y := LeavesBefore(c), LeavesAfter(c);
    CtxLeavesAre(c);
    Once(pages, CtxIds(c), multiset{id}, slack);
    assert id in multiset{id};
    forall i | 0 <= i < |x + y| ensures (x + y)[i] != id {
      assert (x + y)[i] in multiset(x + y);
    }
    forall i | 0 <= i < |x| ensures x[i] != id {
      assert x[i] == (x + y)[i];
    }
    forall i | 0 <= i < |y| ensures y[i] != id {
      assert y[i] == (x + y)[|x| + i];
    }
    ChainSplit(pages, x, id, y, right, a, b);
  }

  lemma ChainSplit(pages: Pages, x: seq<nat>, id: nat, y: seq<nat>, right: nat, a: seq<Entry>, b: seq<Entry>)
    requires id in pages && pages[id].LeafPage? && right !in pages && Chain(pages, x + [id] + y)
    requires (forall i | 0 <= i < |x| :: x[i] != id) && (forall i | 0 <= i < |y| :: y[i] != id)
    ensures Chain(SplitPages(pages, id, right, a, b), x + [id, right] + y)
  {
    var pages2 := SplitPages(pages, id, right, a, b);
    var was, now, n := x + [id] + y, x + [id, right] + y, |x|;
    forall i {:trigger now[i]} | 0 <= i < |now|
      ensures now[i] in pages2 && pages2[now[i]].LeafPage?
      ensures pages2[now[i]].next == (if i + 1 < |now| then now[i + 1] else INVALID)
    {
      if i < n {
        assert now[i] == was[i] == x[i] && now[i + 1] == was[i + 1];
        assert pages[was[i]].next == was[i + 1];
      } else if i == n {
        assert now[n + 1] == right;
      } else if i == n + 1 {
        assert was[n] == id && (|y| > 0 ==> was[n + 1] == y[0] == now[n + 2]);
        assert pages[id].next == (if |y| > 0 then y[0] else INVALID);
      } else {
        assert now[i] == was[i - 1] == y[i - n - 2] && (i + 1 < |now| ==> now[i + 1] == was[i]);
        assert pages[was[i - 1]].next == (if i < |was| then was[i] else INVALID);
      }
    }
  }
}
