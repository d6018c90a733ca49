/** The tree behind the pages: which page has which children, in which order, and what is found
    below it. A tree with one place left open (`Ctx`) is the path from the root to that place. */
module Trees {
  import opened ByteStrings
  import opened Nodes

  type Pages = map<nat, NodePage>

  datatype Tree =
    | Leaf(id: nat, entries: seq<Entry>)
    | Node(id: nat, keys: seq<ByteString>, kids: seq<Tree>)

  function KidIds(kids: seq<Tree>): seq<nat> {
    seq(|kids|, i requires 0 <= i < |kids| => kids[i].id)
  }

  /** The pages hold this tree. */
  ghost predicate Matches(pages: Pages, t: Tree) {
    t.id in pages &&
    match t
    case Leaf(id, entries) => pages[id].LeafPage? && pages[id].entries == entries
    case Node(id, keys, kids) =>
      pages[id] == InnerPage(keys, KidIds(kids)) && forall i | 0 <= i < |kids| :: Matches(pages, kids[i])
  }

  /** All entries of a tree, from left to right. */
  ghost function Flat(t: Tree): seq<Entry> {
    match t
    case Leaf(_, entries) => entries
    case Node(_, _, kids) => FlatAll(kids)
  }

  ghost function FlatAll(kids: seq<Tree>): seq<Entry> {
    if kids == [] then [] else Flat(kids[0]) + FlatAll(kids[1..])
  }

  /** The pages a tree occupies. */
  ghost function Ids(t: Tree): multiset<nat> {
    match t
    case Leaf(id, _) => multiset{id}
    case Node(id, _, kids) => multiset{id} + IdsAll(kids)
  }

  ghost function IdsAll(kids: seq<Tree>): multiset<nat> {
    if kids == [] then multiset{} else Ids(kids[0]) + IdsAll(kids[1..])
  }

  ghost function LeafIds(t: Tree): seq<nat> {
    match t
    case Leaf(id, _) => [id]
    case Node(_, _, kids) => LeafIdsAll(kids)
  }

  ghost function LeafIdsAll(kids: seq<Tree>): seq<nat> {
    if kids == [] then [] else LeafIds(kids[0]) + LeafIdsAll(kids[1..])
  }

  lemma {:induction false} AllAppend(a: seq<Tree>, b: seq<Tree>)
    ensures FlatAll(a + b) == FlatAll(a) + FlatAll(b)
    ensures IdsAll(a + b) == IdsAll(a) + IdsAll(b)
    ensures LeafIdsAll(a + b) == LeafIdsAll(a) + LeafIdsAll(b)
  {
    if a == [] {
      assert a + b == b;
    } else {
      assert (a + b)[1..] == a[1..] + b;
      AllAppend(a[1..], b);
    }
  }

  lemma AllOne(t: Tree)
    ensures FlatAll([t]) == Flat(t) && IdsAll([t]) == Ids(t) && LeafIdsAll([t]) == LeafIds(t)
  {
    assert [t][1..] == [];
  }

  lemma AllAround(a: seq<Tree>, t: Tree, b: seq<Tree>)
    ensures FlatAll(a + [t] + b) == FlatAll(a) + Flat(t) + FlatAll(b)
    ensures IdsAll(a + [t] + b) == IdsAll(a) + Ids(t) + IdsAll(b)
    ensures LeafIdsAll(a + [t] + b) == LeafIdsAll(a) + LeafIds(t) + LeafIdsAll(b)
  {
    AllAppend(a + [t], b);
    AllAppend(a, [t]);
    AllOne(t);
  }

  // ------------------------------------------------------------------ order and shape

  ghost function Low(keys: seq<ByteString>, lo: real, i: nat): real
    requires i <= |keys|
  {
    if i == 0 then lo else Rank(keys[i - 1])
  }

  ghost function High(keys: seq<ByteString>, hi: real, i: nat): real
    requires i <= |keys|
  {
    if i == |keys| then hi else Rank(keys[i])
  }

  /** Ascending, and within `[lo, hi)`. */
  ghost predicate Sorted(entries: seq<Entry>, lo: real, hi: real) {
    && (forall i | 0 <= i < |entries| :: lo <= Rank(entries[i].key) < hi)
    && (forall i, j | 0 <= i < j < |entries| :: Rank(entries[i].key) < Rank(entries[j].key))
  }

  ghost predicate SortedKeys(keys: seq<ByteString>, lo: real, hi: real) {
    && lo < hi
    && (forall i | 0 <= i < |keys| :: lo < Rank(keys[i]) < hi)
    && Ascending(keys)
  }

  /** A search tree of height `h` for keys within `[lo, hi)`, every leaf at the same depth, every page
      within its size. Only the root may be an empty leaf or have a single separator. */
  ghost predicate Wf(t: Tree, h: nat, lo: real, hi: real, root: bool)
    decreases t
  {
    match t
    case Leaf(_, entries) =>
      h == 0 && Sorted(entries, lo, hi) && LeafUsed(entries) <= LEAF_SIZE && (root || entries != [])
    case Node(_, keys, kids) =>
      && h > 0 && |keys| >= (if root then 1 else 2) && InnerUsed(keys) <= INNER_SIZE
      && |kids| == |keys| + 1 && SortedKeys(keys, lo, hi)
      && forall i | 0 <= i < |kids| :: Wf(kids[i], h - 1, Low(keys, lo, i), High(keys, hi, i), false)
  }

  ghost predicate WfKids(keys: seq<ByteString>, kids: seq<Tree>, h: nat, lo: real, hi: real) {
    && |kids| == |keys| + 1 && SortedKeys(keys, lo, hi)
    && forall i | 0 <= i < |kids| :: Wf(kids[i], h, Low(keys, lo, i), High(keys, hi, i), false)
  }

  lemma {:induction false} WfWiden(t: Tree, h: nat, lo: real, hi: real, lo2: real, hi2: real)
    requires Wf(t, h, lo, hi, false) && lo2 <= lo && hi <= hi2
    ensures Wf(t, h, lo2, hi2, false)
    decreases t
  {
    hide Rank, Less;
    if t.Node? {
      forall i | 0 <= i < |t.kids| ensures Wf(t.kids[i], h - 1, Low(t.keys, lo2, i), High(t.keys, hi2, i), false) {
        WfWiden(t.kids[i], h - 1, Low(t.keys, lo, i), High(t.keys, hi, i), Low(t.keys, lo2, i), High(t.keys, hi2, i));
      }
    }
  }

  lemma SortedAppend(a: seq<Entry>, b: seq<Entry>, lo: real, mid: real, hi: real)
    requires Sorted(a, lo, mid) && Sorted(b, mid, hi) && lo <= mid <= hi
    ensures Sorted(a + b, lo, hi)
  {
    hide Rank, Less;
  }

  lemma {:induction false} FlatSorted(t: Tree, h: nat, lo: real, hi: real, root: bool)
    requires Wf(t, h, lo, hi, root)
    ensures Sorted(Flat(t), lo, hi)
    decreases t
  {
    hide Rank, Less;
    if t.Node? {
      forall i | 0 <= i < |t.kids| ensures Sorted(Flat(t.kids[i]), Low(t.keys, lo, i), High(t.keys, hi, i)) {
        FlatSorted(t.kids[i], h - 1, Low(t.keys, lo, i), High(t.keys, hi, i), false);
      }
      FlatAllSorted(t.keys, t.kids, lo, hi, |t.kids|);
      assert t.kids[..|t.kids|] == t.kids;
    }
  }

  lemma {:induction false} FlatAllSorted(keys: seq<ByteString>, kids: seq<Tree>, lo: real, hi: real, k: nat)
    requires |kids| == |keys| + 1 && SortedKeys(keys, lo, hi) && 1 <= k <= |kids|
    requires forall i | 0 <= i < |kids| :: Sorted(Flat(kids[i]), Low(keys, lo, i), High(keys, hi, i))
    ensures Sorted(FlatAll(kids[..k]), lo, High(keys, hi, k - 1))
  {
    hide Rank, Less;
    if k == 1 {
      assert kids[..1] == [kids[0]];
      AllOne(kids[0]);
    } else {
      FlatAllSorted(keys, kids, lo, hi, k - 1);
      assert kids[..k] == kids[..k - 1] + [kids[k - 1]];
      AllAppend(kids[..k - 1], [kids[k - 1]]);
      AllOne(kids[k - 1]);
      SortedAppend(FlatAll(kids[..k - 1]), Flat(kids[k - 1]), lo, High(keys, hi, k - 2), High(keys, hi, k - 1));
    }
  }

  // ------------------------------------------------------------------ frames

  ghost predicate Agree(pages: Pages, pages2: Pages, ids: multiset<nat>) {
    forall id | id in ids && id in pages :: id in pages2 && pages2[id] == pages[id]
  }

  lemma {:induction false} IdIn(kids: seq<Tree>, i: nat)
    requires i < |kids|
    ensures Ids(kids[i]) <= IdsAll(kids)
  {
    if i > 0 {
      IdIn(kids[1..], i - 1);
    }
  }

  lemma {:induction false} FrameMatches(pages: Pages, pages2: Pages, t: Tree)
    requires Matches(pages, t) && Agree(pages, pages2, Ids(t))
    ensures Matches(pages2, t)
    decreases t
  {
    assert t.id in Ids(t);
    if t.Node? {
      forall i | 0 <= i < |t.kids| ensures Matches(pages2, t.kids[i]) {
        IdIn(t.kids, i);
        FrameMatches(pages, pages2, t.kids[i]);
      }
    }
  }

  // ------------------------------------------------------------------ a tree with an open place

  /** The innermost page comes first. `lo` and `hi` are the bounds of that page. */
  datatype Ctx = Top | In(up: Ctx, id: nat, keys: seq<ByteString>, left: seq<Tree>, right: seq<Tree>,
                          lo: real, hi: real)

  ghost function Plug(ctx: Ctx, t: Tree): Tree {
    match ctx
    case Top => t
    case In(up, id, keys, left, right, _, _) => Plug(up, Node(id, keys, left + [t] + right))
  }

  ghost function Depth(ctx: Ctx): nat {
    if ctx.Top? then 0 else 1 + Depth(ctx.up)
  }

  /** The pages on the path, root first. */
  ghost function Path(ctx: Ctx): seq<nat> {
    if ctx.Top? then [] else Path(ctx.up) + [ctx.id]
  }

  ghost function HoleLo(ctx: Ctx): real
    requires ctx.In? ==> |ctx.left| <= |ctx.keys|
  {
    if ctx.Top? then 0.0 else Low(ctx.keys, ctx.lo, |ctx.left|)
  }

  ghost function HoleHi(ctx: Ctx): real
    requires ctx.In? ==> |ctx.left| <= |ctx.keys|
  {
    if ctx.Top? then 1.0 else High(ctx.keys, ctx.hi, |ctx.left|)
  }

  ghost function Before(ctx: Ctx): seq<Entry> {
    if ctx.Top? then [] else Before(ctx.up) + FlatAll(ctx.left)
  }

  ghost function After(ctx: Ctx): seq<Entry> {
    if ctx.Top? then [] else FlatAll(ctx.right) + After(ctx.up)
  }

  ghost function CtxIds(ctx: Ctx): multiset<nat> {
    if ctx.Top? then multiset{} else CtxIds(ctx.up) + multiset{ctx.id} + IdsAll(ctx.left) + IdsAll(ctx.right)
  }

  ghost function LeavesBefore(ctx: Ctx): seq<nat> {
    if ctx.Top? then [] else LeavesBefore(ctx.up) + LeafIdsAll(ctx.left)
  }

  ghost function LeavesAfter(ctx: Ctx): seq<nat> {
    if ctx.Top? then [] else LeafIdsAll(ctx.right) + LeavesAfter(ctx.up)
  }

  /** Whatever fits the open place, a tree of height `h`, makes the whole a search tree. */
  ghost predicate CtxOk(ctx: Ctx, h: nat) {
    ctx.Top? ||
    (&& |ctx.left| + |ctx.right| == |ctx.keys| >= (if ctx.up.Top? then 1 else 2)
     && InnerUsed(ctx.keys) <= INNER_SIZE && SortedKeys(ctx.keys, ctx.lo, ctx.hi)
     && CtxOk(ctx.up, h + 1) && ctx.lo == HoleLo(ctx.up) && ctx.hi == HoleHi(ctx.up)
     && (forall i | 0 <= i < |ctx.left| ::
         Wf(ctx.left[i], h, Low(ctx.keys, ctx.lo, i), High(ctx.keys, ctx.hi, i), false))
     && (forall i | 0 <= i < |ctx.right| ::
           Wf(ctx.right[i], h, Low(ctx.keys, ctx.lo, |ctx.left| + 1 + i),
              High(ctx.keys, ctx.hi, |ctx.left| + 1 + i), false)))
  }

  ghost predicate CtxMatches(pages: Pages, ctx: Ctx, hole: nat) {
    ctx.Top? ||
    (&& ctx.id in pages && pages[ctx.id] == InnerPage(ctx.keys, KidIds(ctx.left) + [hole] + KidIds(ctx.right))
     && (forall i | 0 <= i < |ctx.left| :: Matches(pages, ctx.left[i]))
     && (forall i | 0 <= i < |ctx.right| :: Matches(pages, ctx.right[i]))
     && CtxMatches(pages, ctx.up, ctx.id))
  }

  lemma Regroup<T>(a: seq<T>, b: seq<T>, c: seq<T>, d: seq<T>, e: seq<T>)
    ensures a + (b + c + d) + e == (a + b) + c + (d + e)
  {
  }

  lemma {:induction false} PlugFlat(ctx: Ctx, t: Tree)
    ensures Flat(Plug(ctx, t)) == Before(ctx) + Flat(t) + After(ctx)
  {
    if ctx.In? {
      AllAround(ctx.left, t, ctx.right);
      PlugFlat(ctx.up, Node(ctx.id, ctx.keys, ctx.left + [t] + ctx.right));
      Regroup(Before(ctx.up), FlatAll(ctx.left), Flat(t), FlatAll(ctx.right), After(ctx.up));
    }
  }

  lemma {:induction false} PlugIds(ctx: Ctx, t: Tree)
    ensures Ids(Plug(ctx, t)) == CtxIds(ctx) + Ids(t)
  {
    if ctx.In? {
      AllAround(ctx.left, t, ctx.right);
      PlugIds(ctx.up, Node(ctx.id, ctx.keys, ctx.left + [t] + ctx.right));
    }
  }

  lemma {:induction false} PlugLeaves(ctx: Ctx, t: Tree)
    ensures LeafIds(Plug(ctx, t)) == LeavesBefore(ctx) + LeafIds(t) + LeavesAfter(ctx)
  {
    if ctx.In? {
      AllAround(ctx.left, t, ctx.right);
      PlugLeaves(ctx.up, Node(ctx.id, ctx.keys, ctx.left + [t] + ctx.right));
      Regroup(LeavesBefore(ctx.up), LeafIdsAll(ctx.left), LeafIds(t), LeafIdsAll(ctx.right), LeavesAfter(ctx.up));
    }
  }

  lemma {:induction false} PlugMatches(pages: Pages, ctx: Ctx, t: Tree)
    requires CtxMatches(pages, ctx, t.id) && Matches(pages, t)
    ensures Matches(pages, Plug(ctx, t))
  {
    if ctx.In? {
      var kids := ctx.left + [t] + ctx.right;
      assert KidIds(kids) == KidIds(ctx.left) + [t.id] + KidIds(ctx.right);
      PlugMatches(pages, ctx.up, Node(ctx.id, ctx.keys, kids));
    }
  }

  lemma KidsAround(ctx: Ctx, t: Tree, h: nat)
    requires ctx.In? && CtxOk(ctx, h) && Wf(t, h, HoleLo(ctx), HoleHi(ctx), false)
    ensures WfKids(ctx.keys, ctx.left + [t] + ctx.right, h, ctx.lo, ctx.hi)
  {
    hide Rank, Less, Wf, SortedKeys;
    var kids := ctx.left + [t] + ctx.right;
    forall i | 0 <= i < |kids| ensures Wf(kids[i], h, Low(ctx.keys, ctx.lo, i), High(ctx.keys, ctx.hi, i), false) {
      if i > |ctx.left| {
        assert kids[i] == ctx.right[i - |ctx.left| - 1];
      }
    }
  }

  lemma {:induction false} PlugWf(ctx: Ctx, t: Tree, h: nat)
    requires CtxOk(ctx, h) && Wf(t, h, HoleLo(ctx), HoleHi(ctx), ctx.Top?)
    ensures Wf(Plug(ctx, t), h + Depth(ctx), 0.0, 1.0, true)
  {
    hide Rank, Less;
    if ctx.In? {
      KidsAround(ctx, t, h);
      PlugWf(ctx.up, Node(ctx.id, ctx.keys, ctx.left + [t] + ctx.right), h + 1);
    }
  }

  lemma {:induction false} CtxSorted(ctx: Ctx, h: nat)
    requires CtxOk(ctx, h)
    ensures 0.0 <= HoleLo(ctx) < HoleHi(ctx) <= 1.0
    ensures Sorted(Before(ctx), 0.0, HoleLo(ctx)) && Sorted(After(ctx), HoleHi(ctx), 1.0)
  {
    hide Rank, Less;
    if ctx.In? {
      CtxSorted(ctx.up, h + 1);
      LeftSorted(ctx, h, |ctx.left|);
      RightSorted(ctx, h, 0);
      assert ctx.left[..|ctx.left|] == ctx.left;
      SortedAppend(Before(ctx.up), FlatAll(ctx.left), 0.0, ctx.lo, HoleLo(ctx));
      SortedAppend(FlatAll(ctx.right), After(ctx.up), HoleHi(ctx), ctx.hi, 1.0);
    }
  }

  lemma {:induction false} LeftSorted(ctx: Ctx, h: nat, k: nat)
    requires ctx.In? && CtxOk(ctx, h) && k <= |ctx.left|
    ensures Sorted(FlatAll(ctx.left[..k]), ctx.lo, Low(ctx.keys, ctx.lo, k))
  {
    hide Rank, Less, Wf, SortedKeys;
    if k > 0 {
      hide Sorted;
      LeftSorted(ctx, h, k - 1);
      assert ctx.left[..k] == ctx.left[..k - 1] + [ctx.left[k - 1]];
      AllAppend(ctx.left[..k - 1], [ctx.left[k - 1]]);
      AllOne(ctx.left[k - 1]);
      var lo, hi := Low(ctx.keys, ctx.lo, k - 1), High(ctx.keys, ctx.hi, k - 1);
      LeftKidSorted(ctx, h, k - 1);
      SortedAppend(FlatAll(ctx.left[..k - 1]), Flat(ctx.left[k - 1]), ctx.lo, lo, hi);
    }
  }

  lemma LeftKidSorted(ctx: Ctx, h: nat, i: nat)
    requires ctx.In? && CtxOk(ctx, h) && i < |ctx.left|
    ensures |ctx.left| <= |ctx.keys| && Sorted(Flat(ctx.left[i]), Low(ctx.keys, ctx.lo, i), High(ctx.keys, ctx.hi, i))
    ensures ctx.lo <= Low(ctx.keys, ctx.lo, i) <= High(ctx.keys, ctx.hi, i)
  {
    hide Rank, Less;
    FlatSorted(ctx.left[i], h, Low(ctx.keys, ctx.lo, i), High(ctx.keys, ctx.hi, i), false);
  }

  lemma {:induction false} RightSorted(ctx: Ctx, h: nat, k: nat)
    requires ctx.In? && CtxOk(ctx, h) && k <= |ctx.right|
    ensures Sorted(FlatAll(ctx.right[k..]), High(ctx.keys, ctx.hi, |ctx.left| + k), ctx.hi)
    decreases |ctx.right| - k
  {
    hide Rank, Less;
    if k < |ctx.right| {
      RightSorted(ctx, h, k + 1);
      assert ctx.right[k..][1..] == ctx.right[k + 1..];
      var lo, hi := Low(ctx.keys, ctx.lo, |ctx.left| + 1 + k), High(ctx.keys, ctx.hi, |ctx.left| + 1 + k);
      FlatSorted(ctx.right[k], h, lo, hi, false);
      SortedAppend(Flat(ctx.right[k]), FlatAll(ctx.right[k + 1..]), lo, hi, ctx.hi);
    }
  }

  /** The open place moves from page `t` to its child number `j`. */
  ghost function Descend(ctx: Ctx, t: Tree, j: nat): Ctx
    requires t.Node? && j < |t.kids| && (ctx.In? ==> |ctx.left| <= |ctx.keys|)
  {
    In(ctx, t.id, t.keys, t.kids[..j], t.kids[j + 1..], HoleLo(ctx), HoleHi(ctx))
  }

  lemma DescendOk(ctx: Ctx, t: Tree, h: nat, j: nat)
    requires CtxOk(ctx, h) && Wf(t, h, HoleLo(ctx), HoleHi(ctx), ctx.Top?) && t.Node? && j < |t.kids|
    ensures h > 0 && CtxOk(Descend(ctx, t, j), h - 1)
    ensures Wf(t.kids[j], h - 1, HoleLo(Descend(ctx, t, j)), HoleHi(Descend(ctx, t, j)), false)
  {
    hide Rank, Less, SortedKeys;
    var c := Descend(ctx, t, j);
    forall i | 0 <= i < |c.right|
      ensures Wf(c.right[i], h - 1, Low(c.keys, c.lo, |c.left| + 1 + i), High(c.keys, c.hi, |c.left| + 1 + i), false)
    {
      assert c.right[i] == t.kids[j + 1 + i];
    }
  }

  lemma DescendMatches(pages: Pages, ctx: Ctx, t: Tree, j: nat)
    requires t.Node? && j < |t.kids| && |t.kids| == |t.keys| + 1 && (ctx.In? ==> |ctx.left| <= |ctx.keys|)
    requires CtxMatches(pages, ctx, t.id) && Matches(pages, t)
    ensures CtxMatches(pages, Descend(ctx, t, j), t.kids[j].id)
    ensures Plug(Descend(ctx, t, j), t.kids[j]) == Plug(ctx, t) && Matches(pages, t.kids[j])
  {
    var c := Descend(ctx, t, j);
    assert t.kids == c.left + [t.kids[j]] + c.right;
    assert KidIds(t.kids) == KidIds(c.left) + [t.kids[j].id] + KidIds(c.right);
  }

  lemma {:induction false} FrameCtx(pages: Pages, pages2: Pages, ctx: Ctx, hole: nat)
    requires CtxMatches(pages, ctx, hole) && Agree(pages, pages2, CtxIds(ctx))
    ensures CtxMatches(pages2, ctx, hole)
  {
    if ctx.In? {
      assert ctx.id in CtxIds(ctx);
      forall i | 0 <= i < |ctx.left| ensures Matches(pages2, ctx.left[i]) {
        IdIn(ctx.left, i);
        FrameMatches(pages, pages2, ctx.left[i]);
      }
      forall i | 0 <= i < |ctx.right| ensures Matches(pages2, ctx.right[i]) {
        IdIn(ctx.right, i);
        FrameMatches(pages, pages2, ctx.right[i]);
      }
      FrameCtx(pages, pages2, ctx.up, ctx.id);
    }
  }
}
