/** The steps of a removal in the terms of the pages alone. */
module TreeRemoval {
  import opened Basics
  import opened ByteStrings
  import opened Nodes
  import opened Trees
  import opened TreeInsert
  import opened TreeSteps
  import opened TreeRemove
  import opened TreeUnderflow
  import opened TreeLinks
  import opened KeyLengths

  /** `t` holds what the page above held. */
  ghost predicate SameBelow(g: Gap, t: Tree)
    requires g.up.In?
  {
    && t.id == g.up.id && Flat(t) == FlatAll(g.up.left) + FlatAll(g.kids) + FlatAll(g.up.right)
    && LeafIds(t) == LeafIdsAll(g.up.left) + LeafIdsAll(g.kids) + LeafIdsAll(g.up.right)
  }

  ghost predicate SameAround(g: Gap, g2: Gap)
    requires g.up.In?
  {
    && g2.up == g.up.up && g2.id == g.up.id
    && FlatAll(g2.kids) == FlatAll(g.up.left) + FlatAll(g.kids) + FlatAll(g.up.right)
    && LeafIdsAll(g2.kids) == LeafIdsAll(g.up.left) + LeafIdsAll(g.kids) + LeafIdsAll(g.up.right)
  }

  ghost predicate KeyIn(g: Gap, key: ByteString) {
    g.n <= |g.keys| && (g.up.In? ==> |g.up.left| <= |g.up.keys|) && InGap(g, key)
  }

  /** The first key of the page just freed leads to the gap it leaves. */
  ghost predicate KeyInGap(pages: Pages, g: Gap, free: nat) {
    free in pages && pages[free].InnerPage? && pages[free].keys != [] && KeyIn(g, pages[free].keys[0])
  }

  lemma KeyInGapIs(pages: Pages, g: Gap, free: nat)
    requires KeyInGap(pages, g, free)
    ensures free in pages && pages[free].InnerPage? && pages[free].keys != []
  {
  }

  /** Whether taking the child with `key` out of the last page of `path` ends for want of room. Every page on the
      path that has two keys loses one of them; with the single key left it is merged with a neighbour, and the page
      above loses a child, until a page has more keys, shares the keys of a neighbour, or there is no room. */
  ghost predicate GetsStuck(pages: Pages, path: seq<nat>, key: ByteString)
    decreases |path|
  {
    |path| > 1 && Underflows(pages, path, key) &&
    var now, parent := Lost(pages, path, key), path[|path| - 2];
    var i := FindKey(now[parent].keys, key);
    !RoomFor(now, parent, i) ||
    (MergesOn(now, parent, i) &&
     GetsStuck(MergedPages(now, parent, i), path[..|path| - 1], now[now[parent].kids[i + 1]].keys[0]))
  }

  /** The last page of the path has two keys, and in the page above it has a neighbour. */
  ghost predicate Underflows(pages: Pages, path: seq<nat>, key: ByteString)
    requires |path| > 1
  {
    var inner, parent := path[|path| - 1], path[|path| - 2];
    && inner in pages && GoodInner(pages[inner]) && |pages[inner].keys| == 2
    && parent in pages && parent != inner && GoodInner(pages[parent]) && pages[parent].keys != []
    && Neighbours(Lost(pages, path, key), parent, FindKey(pages[parent].keys, key))
  }

  /** The pages without the child with `key` in the last page of the path. */
  ghost function Lost(pages: Pages, path: seq<nat>, key: ByteString): Pages
    requires path != [] && path[|path| - 1] in pages
    requires GoodInner(pages[path[|path| - 1]]) && |pages[path[|path| - 1]].keys| > 0
  {
    pages[path[|path| - 1] := InnerRemove(pages[path[|path| - 1]], key)]
  }

  ghost predicate MergesOn(now: Pages, parent: nat, i: nat)
    requires Neighbours(now, parent, i)
  {
    var left, right := now[parent].kids[i], now[parent].kids[i + 1];
    CanMerge(now[left].keys, now[parent].keys[i], now[right].keys) && now[right].keys != []
  }

  /** How a single key was dealt with in the child next to separator number `i`. */
  ghost predicate UnderflowIs(pages: Pages, pages2: Pages, parent: nat, i: nat, stuck: bool, merges: bool, free: nat) {
    && Neighbours(pages, parent, i) && (stuck <==> !RoomFor(pages, parent, i))
    && (merges ==> !stuck && MergesOn(pages, parent, i) && free == pages[parent].kids[i + 1] != pages[parent].kids[i])
    && (merges ==> pages2 == MergedPages(pages, parent, i))
    && (!merges && !stuck ==> !MergesOn(pages, parent, i))
  }

  lemma RemovedSize(p: NodePage, key: ByteString)
    requires GoodInner(p) && |p.keys| > 0
    ensures |InnerRemove(p, key).keys| == |p.keys| - 1
  {
    hide LowerBound;
  }

  lemma {:induction false} NotStuck(pages: Pages, path: seq<nat>, key: ByteString)
    requires path != [] && path[|path| - 1] in pages && GoodInner(pages[path[|path| - 1]])
    requires |path| == 1 || |pages[path[|path| - 1]].keys| != 2
    ensures !GetsStuck(pages, path, key)
  {
  }

  /** One page up. */
  lemma {:induction false} StuckUp(pages: Pages, pages2: Pages, path: seq<nat>, key: ByteString, stuck: bool,
                                   merges: bool, free: nat)
    requires |path| > 1 && path[|path| - 1] in pages && GoodInner(pages[path[|path| - 1]])
    requires |pages[path[|path| - 1]].keys| == 2
    requires path[|path| - 2] in pages && path[|path| - 2] != path[|path| - 1]
    requires GoodInner(pages[path[|path| - 2]]) && pages[path[|path| - 2]].keys != []
    requires var now, parent := Lost(pages, path, key), path[|path| - 2];
      UnderflowIs(now, pages2, parent, FindKey(pages[parent].keys, key), stuck, merges, free)
    ensures merges ==> free in pages2 && pages2[free].InnerPage? && pages2[free].keys != []
    ensures GetsStuck(pages, path, key)
            <==> stuck || (merges && GetsStuck(pages2, path[..|path| - 1], pages2[free].keys[0]))
  {
    hide InnerRemove, FindKey, CanMerge, Merge, CutInside, InnerUsed, Redistribute, RoomFor;
  }

  lemma AboveOther(pages: Pages, g: Gap, h: nat, slack: multiset<nat>)
    requires Gone(pages, g, h, slack) && g.up.In?
    ensures g.up.id != g.id
  {
    hide IdsAll, GapOk, GapMatches;
    var rest := CtxIds(g.up) + IdsAll(g.kids);
    assert multiset{g.id} + rest + slack == multiset(pages.Keys);
    Once(pages, multiset{g.id}, rest, slack);
    assert g.id in multiset{g.id} && g.up.id in rest;
  }

  /** Only inner pages decide about it. */
  ghost predicate SameInners(pages: Pages, pages2: Pages) {
    && (forall id | id in pages && pages[id].InnerPage? :: id in pages2 && pages2[id] == pages[id])
    && (forall id | id in pages2 && pages2[id].InnerPage? :: id in pages && pages2[id] == pages[id])
  }

  lemma {:induction false} StuckFrame(pages: Pages, pages2: Pages, path: seq<nat>, key: ByteString)
    requires SameInners(pages, pages2)
    ensures GetsStuck(pages, path, key) <==> GetsStuck(pages2, path, key)
    decreases |path|, 1
  {
    StuckFrom(pages, pages2, path, key);
    StuckFrom(pages2, pages, path, key);
  }

  lemma SameRoom(pages: Pages, pages2: Pages, parent: nat, i: nat)
    requires SameInners(pages, pages2) && Neighbours(pages, parent, i)
    ensures Neighbours(pages2, parent, i) && RoomFor(pages, parent, i) == RoomFor(pages2, parent, i)
    ensures MergesOn(pages, parent, i) == MergesOn(pages2, parent, i)
  {
    hide CanMerge, CutInside, InnerUsed, Redistribute;
  }

  lemma {:induction false} StuckFrom(pages: Pages, pages2: Pages, path: seq<nat>, key: ByteString)
    requires SameInners(pages, pages2)
    ensures GetsStuck(pages, path, key) ==> GetsStuck(pages2, path, key)
    decreases |path|, 0
  {
    hide InnerRemove, FindKey, CanMerge, Merge, CutInside, InnerUsed, Redistribute;
    if GetsStuck(pages, path, key) {
      var now, now2, parent := Lost(pages, path, key), Lost(pages2, path, key), path[|path| - 2];
      var i := FindKey(now[parent].keys, key);
      SameRoom(now, now2, parent, i);
      if RoomFor(now, parent, i) {
        StuckFrom(MergedPages(now, parent, i), MergedPages(now2, parent, i), path[..|path| - 1],
                  now[now[parent].kids[i + 1]].keys[0]);
      }
    }
  }

  lemma PairFound(g: Gap, h: nat, key: ByteString)
    requires g.up.In? && GapOk(g, h) && |g.keys| == 2
    requires |g.up.left| <= |g.up.keys| && HoleLo(g.up) <= Rank(key) < HoleHi(g.up)
    ensures g.up.keys != [] && Pair(g, h, FindKey(g.up.keys, key))
  {
    hide Rank, Less, FindKey, WfKids, InnerUsed;
    CtxFacts(g.up, h + 1);
    FindKeyIs(g.up.keys, key, |g.up.left|);
  }

  lemma NeighboursAre(pages: Pages, g: Gap, h: nat, slack: multiset<nat>, i: nat)
    requires Pair(g, h, i) && Shrunk(pages, g, h, slack)
    ensures Neighbours(pages, g.up.id, i) && pages[g.up.id].keys == g.up.keys && InnerUsed(g.up.keys) <= INNER_SIZE
  {
    hide Rank, Less, Wf, SortedKeys, InnerUsed, CanMerge, ShareAt, JointCut, Siblings, GapOk, Matches, CtxMatches,
         CtxOk, Shrunk;
    hide SharedTree;
    GapParts(g, h, i);
    Parts(pages, g, h, slack, i);
    PairOthers(g, h, i);
    var kids := Siblings(g);
    if !CanMerge(kids[i].keys, g.up.keys[i], kids[i + 1].keys) {
      SharedShape(g, h, i);
    }
  }

  lemma StepShares(pages: Pages, g: Gap, h: nat, slack: multiset<nat>, i: nat) returns (t: Tree)
    requires Pair(g, h, i) && Shrunk(pages, g, h, slack) && Neighbours(pages, g.up.id, i) && RoomFor(pages, g.up.id, i)
    requires !CanMerge(pages[pages[g.up.id].kids[i]].keys, pages[g.up.id].keys[i],
                       pages[pages[g.up.id].kids[i + 1]].keys)
    ensures Settled(SharedPages(pages, g.up.id, i), g.up.up, t, h + 2, slack) && SameBelow(g, t)
  {
    hide Rank, Less, Wf, SortedKeys, InnerUsed, CanMerge, ShareAt, JointCut, Siblings, GapOk, Matches, CtxMatches,
         CtxOk, Shrunk;
    hide SharedPages, Settled, FlatAll, LeafIdsAll;
    GapParts(g, h, i);
    Parts(pages, g, h, slack, i);
    SharedShape(g, h, i);
    SharedPage(pages, g, h, i);
    Shared(pages, g, h, slack, i);
    SharedTreeContents(g, i);
    t := SharedTree(g, i);
  }

  lemma GapParts(g: Gap, h: nat, i: nat)
    requires Pair(g, h, i)
    ensures g.up.In? && |g.kids| == |g.keys| == 2 && g.n <= |g.keys| && i < |g.up.keys|
    ensures g.up.up.In? ==> |g.up.up.left| <= |g.up.up.keys|
  {
    PairOthers(g, h, i);
  }

  lemma StepMerges(pages: Pages, g: Gap, h: nat, slack: multiset<nat>, i: nat) returns (g2: Gap)
    requires Pair(g, h, i) && Shrunk(pages, g, h, slack) && Neighbours(pages, g.up.id, i) && RoomFor(pages, g.up.id, i)
    requires CanMerge(pages[pages[g.up.id].kids[i]].keys, pages[g.up.id].keys[i],
                      pages[pages[g.up.id].kids[i + 1]].keys)
    ensures var free := pages[g.up.id].kids[i + 1];
      && Gone(MergedPages(pages, g.up.id, i), g2, h + 1, slack + multiset{free}) && SameAround(g, g2)
      && KeyInGap(MergedPages(pages, g.up.id, i), g2, free) && free != pages[g.up.id].kids[i]
  {
    hide Rank, Less, Wf, SortedKeys, InnerUsed, CanMerge, ShareAt, JointCut, Siblings, GapOk, Matches, CtxMatches,
         CtxOk, Shrunk;
    hide Gone, FlatAll, LeafIdsAll, Merge, InGap, Replaced;
    GapParts(g, h, i);
    Parts(pages, g, h, slack, i);
    Merged(pages, g, h, slack, i);
    NextGapContents(g, i);
    g2 := NextGap(g, i);
    PairPages(pages, g, h, slack, i);
    PairApart(pages, pages, g.up, Siblings(g), i, slack);
  }

  lemma SharedPagesOf(pages: Pages, parent: nat, i: nat, length: nat)
    requires Neighbours(pages, parent, i) && AllOf(pages, length)
    requires !CanMerge(pages[pages[parent].kids[i]].keys, pages[parent].keys[i], pages[pages[parent].kids[i + 1]].keys)
    ensures AllOf(SharedPages(pages, parent, i), length)
  {
    hide CanMerge, ShareAt, InnerUsed, Redistribute, InnerInsert, InnerRemove;
    var p := pages[parent];
    var l, r := pages[p.kids[i]], pages[p.kids[i + 1]];
    assert p.keys[i] in p.keys;
    RedistributeOf(l, r, p.keys[i], length);
    InnerRemoveOf(p, p.keys[i], length);
    InnerInsertOf(InnerRemove(p, p.keys[i]), Redistribute(l, r, p.keys[i]).1, p.kids[i + 1], length);
  }

  lemma MergedPagesOf(pages: Pages, parent: nat, i: nat, length: nat)
    requires Neighbours(pages, parent, i) && AllOf(pages, length)
    ensures AllOf(MergedPages(pages, parent, i), length)
  {
    hide CanMerge, ShareAt, InnerUsed, Merge;
    var p := pages[parent];
    assert p.keys[i] in p.keys;
    MergeOf(pages[p.kids[i]], pages[p.kids[i + 1]], p.keys[i], length);
  }

  /** Sharing and merging rewrite inner pages only. */
  lemma StepsInner(pages: Pages, parent: nat, i: nat)
    requires Neighbours(pages, parent, i)
    ensures LeavesKept(pages, pages)
    ensures LeavesKept(pages, MergedPages(pages, parent, i)) && MergedPages(pages, parent, i).Keys == pages.Keys
    ensures CutInside(pages[pages[parent].kids[i]].keys, pages[pages[parent].kids[i + 1]].keys) ==>
              LeavesKept(pages, SharedPages(pages, parent, i)) && SharedPages(pages, parent, i).Keys == pages.Keys
  {
    hide CanMerge, ShareAt, InnerUsed, Merge, Redistribute, InnerInsert, InnerRemove;
  }

  // ------------------------------------------------------------------ from one level to the next

  lemma InGapInside(g: Gap, h: nat, key: ByteString)
    requires GapOk(g, h) && KeyIn(g, key)
    ensures (g.up.In? ==> |g.up.left| <= |g.up.keys|) && HoleLo(g.up) <= Rank(key) < HoleHi(g.up)
  {
    hide Rank, Less, WfKids, InnerUsed, CtxOk;
  }

  /** All entries, and all leaves, of the tree that has this gap. */
  ghost predicate Holds(g: Gap, entries: seq<Entry>, leaves: seq<nat>) {
    && entries == Before(g.up) + FlatAll(g.kids) + After(g.up)
    && leaves == LeavesBefore(g.up) + LeafIdsAll(g.kids) + LeavesAfter(g.up)
  }

  lemma HoldsAround(g: Gap, g2: Gap, entries: seq<Entry>, leaves: seq<nat>, stack: seq<nat>)
    requires g.up.In? && Holds(g, entries, leaves) && SameAround(g, g2) && stack == Path(g.up) + [g.id]
    ensures Holds(g2, entries, leaves) && stack != [] && stack[..|stack| - 1] == Path(g2.up) + [g2.id]
  {
    hide Before, After, LeavesBefore, LeavesAfter, FlatAll, LeafIdsAll;
    UpOne(g.up, FlatAll(g.kids), LeafIdsAll(g.kids));
  }

  /** Contents seen from one level up. */
  lemma UpOne(c: Ctx, m: seq<Entry>, n: seq<nat>)
    requires c.In?
    ensures Before(c) + m + After(c) == Before(c.up) + (FlatAll(c.left) + m + FlatAll(c.right)) + After(c.up)
    ensures LeavesBefore(c) + n + LeavesAfter(c)
            == LeavesBefore(c.up) + (LeafIdsAll(c.left) + n + LeafIdsAll(c.right)) + LeavesAfter(c.up)
  {
    hide FlatAll, LeafIdsAll;
    Regroup(Before(c.up), FlatAll(c.left), m, FlatAll(c.right), After(c.up));
    Regroup(LeavesBefore(c.up), LeafIdsAll(c.left), n, LeafIdsAll(c.right), LeavesAfter(c.up));
  }

  lemma InnersKeepLinks(pages: Pages, pages2: Pages, leaves: seq<nat>, root: nat)
    requires LeavesKept(pages, pages2) && pages2.Keys == pages.Keys
    ensures Linked(pages, leaves, root) ==> Linked(pages2, leaves, root)
    ensures Linked(pages, leaves, root) ==> (Chain(pages, leaves) <==> Chain(pages2, leaves))
    ensures Back(pages, leaves) ==> Back(pages2, leaves)
  {
    if Linked(pages, leaves, root) {
      forall i {:trigger leaves[i]} | 0 <= i < |leaves|
        ensures leaves[i] in pages2 && pages2[leaves[i]] == pages[leaves[i]]
      {
        assert LeafLinked(pages, leaves[i]);
      }
    }
  }

  /** What a removal keeps of the pages it started from. */
  ghost predicate Kept(was: Pages, pages: Pages, leaves: seq<nat>, root: nat, length: nat) {
    && Linked(was, leaves, root) && Linked(pages, leaves, root) && LeavesKept(was, pages)
    && (Chain(was, leaves) <==> Chain(pages, leaves)) && (Back(was, leaves) ==> Back(pages, leaves))
    && (AllOf(was, length) ==> AllOf(pages, length))
  }

  /** The leaves are as they were, save that the root page takes over its only child if that is a leaf. */
  ghost predicate LeavesStay(was: Pages, leaves: seq<nat>, now: Pages, leaves2: seq<nat>, root: nat) {
    && LeavesKept(was, now)
    && (leaves2 == leaves ||
        (|leaves| == 1 && leaves[0] in was && root in now && leaves2 == [root] && now[root] == was[leaves[0]]))
  }

  lemma StaysSame(was: Pages, leaves: seq<nat>, now: Pages, root: nat)
    requires LeavesKept(was, now)
    ensures LeavesStay(was, leaves, now, leaves, root)
  {
  }

  lemma KeptOn(was: Pages, pages: Pages, pages2: Pages, leaves: seq<nat>, root: nat, length: nat)
    requires Kept(was, pages, leaves, root, length) && LeavesKept(pages, pages2) && pages2.Keys == pages.Keys
    requires AllOf(pages, length) ==> AllOf(pages2, length)
    ensures Kept(was, pages2, leaves, root, length)
  {
    hide Linked, Chain, Back, AllOf;
    InnersKeepLinks(pages, pages2, leaves, root);
  }

  lemma KeptIs(was: Pages, pages: Pages, leaves: seq<nat>, root: nat, length: nat)
    ensures Linked(was, leaves, root) ==> Kept(was, was, leaves, root, length)
    ensures Kept(was, pages, leaves, root, length) ==>
              && Linked(was, leaves, root) && Linked(pages, leaves, root) && LeavesKept(was, pages)
              && (Chain(was, leaves) <==> Chain(pages, leaves)) && (Back(was, leaves) ==> Back(pages, leaves))
              && (AllOf(was, length) ==> AllOf(pages, length))
  {
  }

  /** One page loses a child. */
  lemma KeptShrink(was: Pages, pages: Pages, id: nat, key: ByteString, leaves: seq<nat>, root: nat, length: nat)
    requires Kept(was, pages, leaves, root, length) && id in pages && GoodInner(pages[id]) && |pages[id].keys| > 0
    ensures Kept(was, pages[id := InnerRemove(pages[id], key)], leaves, root, length)
  {
    hide Linked, Chain, Back, AllOf, InnerRemove;
    OneInner(pages, id, InnerRemove(pages[id], key));
    if AllOf(pages, length) {
      RemoveOf(pages, id, key, length);
    }
    KeptOn(was, pages, pages[id := InnerRemove(pages[id], key)], leaves, root, length);
  }

  /** The root page takes over its only child. */
  lemma CollapseLinks(pages: Pages, root: nat, x: Tree, leaves: seq<nat>)
    requires root in pages && pages[root].InnerPage? && x.id in pages && Matches(pages, x) && leaves == LeafIds(x)
    requires Linked(pages, leaves, root)
    ensures var pages2, now := pages[root := pages[x.id]], if x.Leaf? then [root] else leaves;
      && Linked(pages2, now, root)
      && (Chain(pages, leaves) <==> Chain(pages2, now)) && (Back(pages, leaves) ==> Back(pages2, now))
  {
    var pages2 := pages[root := pages[x.id]];
    if x.Leaf? {
      assert leaves == [x.id] && leaves[0] == x.id;
      assert LeafLinked(pages, x.id) && pages[x.id].prev != root && pages[x.id].next != root;
      assert LeafLinked(pages2, root);
    } else {
      assert LeavesKept(pages, pages2);
      InnersKeepLinks(pages, pages2, leaves, root);
    }
  }

  /** The tree is whole again. */
  lemma Finish(pages: Pages, c: Ctx, t: Tree, h: nat, slack: multiset<nat>, stack: seq<nat>) returns (all: Tree,
                                                                                                      height: nat)
    requires Settled(pages, c, t, h, slack) && stack == Path(c) + [t.id]
    ensures all.id == stack[0] && Matches(pages, all) && Wf(all, height, 0.0, 1.0, true)
    ensures Ids(all) + slack == multiset(pages.Keys)
    ensures Flat(all) == Before(c) + Flat(t) + After(c)
    ensures LeafIds(all) == LeavesBefore(c) + LeafIds(t) + LeavesAfter(c)
  {
    hide Settled, Matches, Wf, Ids, Flat, LeafIds;
    SettledTree(pages, c, t, h, slack);
    PlugRoot(c, t);
    all, height := Plug(c, t), h + Depth(c);
  }

  lemma FinishShared(pages: Pages, g: Gap, t: Tree, h: nat, slack: multiset<nat>, stack: seq<nat>,
                     entries: seq<Entry>, leaves: seq<nat>) returns (all: Tree, height: nat)
    requires g.up.In? && Settled(pages, g.up.up, t, h + 2, slack) && SameBelow(g, t)
    requires stack == Path(g.up) + [g.id] && Holds(g, entries, leaves)
    ensures all.id == stack[0] && Matches(pages, all) && Wf(all, height, 0.0, 1.0, true)
    ensures Ids(all) + slack == multiset(pages.Keys) && Flat(all) == entries && LeafIds(all) == leaves
  {
    hide Settled, Matches, Wf, Ids, Flat, LeafIds, Before, After, LeavesBefore, LeavesAfter, FlatAll, LeafIdsAll;
    UpOne(g.up, FlatAll(g.kids), LeafIdsAll(g.kids));
    all, height := Finish(pages, g.up.up, t, h + 2, slack, stack[..|stack| - 1]);
  }

  lemma FinishShrunk(pages: Pages, g: Gap, h: nat, slack: multiset<nat>, stack: seq<nat>, entries: seq<Entry>,
                     leaves: seq<nat>)
    returns (all: Tree, height: nat)
    requires Shrunk(pages, g, h, slack) && stack == Path(g.up) + [g.id] && |g.keys| >= (if g.up.Top? then 2 else 3)
    requires Holds(g, entries, leaves)
    ensures all.id == stack[0] && Matches(pages, all) && Wf(all, height, 0.0, 1.0, true)
    ensures Ids(all) + slack == multiset(pages.Keys) && Flat(all) == entries && LeafIds(all) == leaves
  {
    hide Settled, Matches, Wf, Ids, GapOk, CtxMatches, CtxIds;
    GapFacts(g, h);
    ShrunkSettled(pages, g, h, slack);
    all, height := Finish(pages, g.up, Closed(g), h + 1, slack, stack);
  }

  lemma FinishCollapse(was: Pages, pages: Pages, g: Gap, h: nat, slack: multiset<nat>, entries: seq<Entry>,
                       leaves: seq<nat>,
                       length: nat) returns (all: Tree, height: nat)
    requires Shrunk(pages, g, h, slack) && |g.keys| == 1 && Holds(g, entries, leaves)
    requires Kept(was, pages, leaves, g.id, length)
    ensures g.up.Top? && |g.kids| == 1 && g.kids[0].id in pages && g.id in pages
    ensures pages[g.id] == InnerPage([], [g.kids[0].id])
    ensures var pages2 := pages[g.id := pages[g.kids[0].id]];
      && all.id == g.id && Matches(pages2, all) && Wf(all, height, 0.0, 1.0, true)
      && Ids(all) + (slack + multiset{g.kids[0].id}) == multiset(pages2.Keys)
      && Flat(all) == entries && Linked(pages2, LeafIds(all), g.id)
      && (Chain(was, leaves) <==> Chain(pages2, LeafIds(all))) && (Back(was, leaves) ==> Back(pages2, LeafIds(all)))
      && (AllOf(was, length) ==> AllOf(pages2, length)) && LeavesStay(was, leaves, pages2, LeafIds(all), g.id)
  {
    hide Wf, Ids, GapOk, CtxIds, Rank, Less, Linked, Chain, Back, AllOf, Matches, Holds, LeafIds, Flat, CtxMatches,
         CtxOk;
    CollapsePage(pages, g, h, slack);
    Collapse(pages, g, h, slack);
    var x := g.kids[0];
    KeptIs(was, pages, leaves, g.id, length);
    CopyOf(pages, g.id, x.id, length);
    OnlyKid(g, entries, leaves, x);
    CollapseLinks(pages, g.id, x, leaves);
    CollapseStays(was, pages, g.id, x, leaves);
    TopNothing(g.up);
    all, height := Moved(x, g.id), h;
  }

  lemma CollapseStays(was: Pages, pages: Pages, root: nat, x: Tree, leaves: seq<nat>)
    requires LeavesKept(was, pages) && root in pages && pages[root].InnerPage? && leaves == LeafIds(x)
    requires x.id in pages && Matches(pages, x) && Linked(was, leaves, root)
    ensures LeavesStay(was, leaves, pages[root := pages[x.id]], LeafIds(Moved(x, root)), root)
  {
    if x.Leaf? {
      assert leaves[0] == x.id && LeafLinked(was, leaves[0]);
    }
  }

  lemma CollapsePage(pages: Pages, g: Gap, h: nat, slack: multiset<nat>)
    requires Shrunk(pages, g, h, slack) && |g.keys| == 1
    ensures |g.kids| == 1 && g.id in pages && pages[g.id] == InnerPage([], [g.kids[0].id]) && g.up.Top?
    ensures Matches(pages, g.kids[0])
  {
    GapFacts(g, h);
    ClosedPage(pages, g);
  }

  lemma OnlyKid(g: Gap, entries: seq<Entry>, leaves: seq<nat>, x: Tree)
    requires g.up.Top? && g.kids == [x] && Holds(g, entries, leaves)
    ensures entries == Flat(x) == FlatAll(g.kids) && leaves == LeafIds(x) == LeafIdsAll(g.kids)
  {
    AllOne(x);
  }

  lemma ClosedPage(pages: Pages, g: Gap)
    requires g.keys != [] && g.n <= |g.keys| && Matches(pages, Closed(g))
    ensures g.id in pages && pages[g.id] == InnerPage(GapKeys(g.keys, g.n), KidIds(g.kids))
    ensures forall i | 0 <= i < |g.kids| :: Matches(pages, g.kids[i])
  {
  }

  lemma GoneGap(pages: Pages, g: Gap, h: nat, slack: multiset<nat>, stack: seq<nat>, key: ByteString)
    requires Gone(pages, g, h, slack) && stack == Path(g.up) + [g.id] && KeyIn(g, key)
    ensures InGap(g, key) && stack != [] && stack[|stack| - 1] == g.id && (|stack| == 1 <==> g.up.Top?)
    ensures GapOk(g, h) && |g.kids| == |g.keys| > 0 && g.n <= |g.keys| && |GapKeys(g.keys, g.n)| == |g.keys| - 1
    ensures (g.up.Top? || |g.keys| >= 2) && (g.up.In? ==> |g.up.left| <= |g.up.keys|)
  {
  }

  lemma TopNothing(c: Ctx)
    requires c.Top?
    ensures Before(c) == [] && After(c) == [] && LeavesBefore(c) == [] && LeavesAfter(c) == []
    ensures CtxIds(c) == multiset{}
  {
  }

  lemma OneInner(pages: Pages, id: nat, page: NodePage)
    requires id in pages && pages[id].InnerPage?
    ensures LeavesKept(pages, pages[id := page]) && pages[id := page].Keys == pages.Keys
  {
  }

  lemma CopyOf(pages: Pages, id: nat, child: nat, length: nat)
    requires id in pages && child in pages
    ensures AllOf(pages, length) ==> AllOf(pages[id := pages[child]], length)
  {
  }

  lemma RemoveOf(pages: Pages, id: nat, key: ByteString, length: nat)
    requires id in pages && GoodInner(pages[id]) && |pages[id].keys| > 0 && AllOf(pages, length)
    ensures AllOf(pages[id := InnerRemove(pages[id], key)], length)
  {
    hide InnerRemove;
    InnerRemoveOf(pages[id], key, length);
  }

  // ------------------------------------------------------------------ the emptied leaf

  lemma {:induction false} NonEmptyTree(t: Tree, h: nat, lo: real, hi: real)
    requires Wf(t, h, lo, hi, false)
    ensures Flat(t) != []
    decreases t
  {
    hide Rank, Less, LeafUsed, InnerUsed, Sorted, SortedKeys;
    if t.Node? {
      NonEmptyTree(t.kids[0], h - 1, Low(t.keys, lo, 0), High(t.keys, hi, 0));
    }
  }

  /** A leaf that is not the root has company. */
  lemma SomethingLeft(c: Ctx)
    requires c.In? && CtxOk(c, 0)
    ensures Before(c) + After(c) != []
  {
    hide Rank, Less, InnerUsed, SortedKeys, Wf;
    if c.left != [] {
      NonEmptyTree(c.left[0], 0, Low(c.keys, c.lo, 0), High(c.keys, c.hi, 0));
      assert c.left == [c.left[0]] + c.left[1..];
    } else {
      NonEmptyTree(c.right[0], 0, Low(c.keys, c.lo, 1), High(c.keys, c.hi, 1));
      assert c.right == [c.right[0]] + c.right[1..];
    }
  }

  /** The page above the emptied leaf loses it. */
  lemma {:induction false} OpenGap(pages: Pages, c: Ctx, id: nat, slack: multiset<nat>,
                                   key: ByteString) returns (g: Gap)
    requires c.In? && CtxOk(c, 0) && CtxMatches(pages, c, id) && |c.left| <= |c.keys|
    requires HoleLo(c) <= Rank(key) < HoleHi(c)
    requires CtxIds(c) + multiset{id} + slack == multiset(pages.Keys)
    ensures Gone(pages, g, 0, slack + multiset{id}) && KeyIn(g, key) && Path(c) == Path(g.up) + [g.id]
    ensures Holds(g, Before(c) + After(c), LeavesBefore(c) + LeavesAfter(c))
  {
    hide Rank, Less, InnerUsed, SortedKeys, Wf, Matches, WfKids;
    g := Gap(c.up, c.id, c.keys, |c.left|, c.left + c.right, id);
    GapWf(c, 0);
    CtxFacts(c, 0);
    CtxKid(pages, c, id);
    AllAppend(c.left, c.right);
    assert g.kids[..g.n] == c.left && g.kids[g.n..] == c.right;
    Parts4(Before(c.up), FlatAll(c.left), FlatAll(c.right), After(c.up));
    Parts4(LeavesBefore(c.up), LeafIdsAll(c.left), LeafIdsAll(c.right), LeavesAfter(c.up));
    UpBounds(c);
    GapIds4(CtxIds(c.up), multiset{c.id}, IdsAll(c.left), IdsAll(c.right), slack, multiset{id});
  }

  lemma UpBounds(c: Ctx)
    requires c.In? && CtxOk(c, 0)
    ensures c.up.In? ==> |c.up.left| <= |c.up.keys|
  {
  }

  lemma Parts4<T>(a: seq<T>, b: seq<T>, c: seq<T>, d: seq<T>)
    ensures (a + b) + (c + d) == a + (b + c) + d
  {
  }

  lemma GapIds4(a: multiset<nat>, b: multiset<nat>, c: multiset<nat>, d: multiset<nat>, e: multiset<nat>,
                f: multiset<nat>)
    ensures a + (b + (c + d)) + (e + f) == (a + b + c + d) + f + e
  {
  }

  lemma LeavesOnce(pages: Pages, c: Ctx, id: nat, slack: multiset<nat>)
    requires CtxIds(c) + multiset{id} + slack == multiset(pages.Keys)
    ensures NoRepeat(LeavesBefore(c) + [id] + LeavesAfter(c))
  {
    CtxLeavesAre(c);
    var x, y := LeavesBefore(c), LeavesAfter(c);
    assert multiset(x + [id] + y) == multiset(x + y) + multiset{id};
    SubsetOnce(pages, x + [id] + y);
  }

  lemma SubsetOnce(pages: Pages, leaves: seq<nat>)
    requires multiset(leaves) <= multiset(pages.Keys)
    ensures NoRepeat(leaves)
  {
    forall i, j | 0 <= i < j < |leaves| ensures leaves[i] != leaves[j] {
      var a, b := leaves[..j], leaves[j..];
      assert leaves == a + b;
      assert a[i] in multiset(a) && b[0] in multiset(b);
      assert multiset(leaves)[leaves[i]] == multiset(a)[leaves[i]] + multiset(b)[leaves[i]];
      assert multiset(pages.Keys)[leaves[i]] <= 1;
    }
  }

  lemma EntriesKeepBack(pages: Pages, id: nat, entries: seq<Entry>, leaves: seq<nat>)
    requires id in pages && pages[id].LeafPage?
    ensures Back(pages, leaves) ==> Back(pages[id := pages[id].(entries := entries)], leaves)
  {
  }

  /** The leaf is empty and its neighbours know each other now. */
  lemma LeafDropped(pages: Pages, c: Ctx, id: nat, slack: multiset<nat>, root: nat)
    requires CtxMatches(pages, c, id) && id in pages && pages[id].LeafPage? && pages[id].entries == []
    requires CtxIds(c) + multiset{id} + slack == multiset(pages.Keys)
    requires Linked(pages, LeavesBefore(c) + [id] + LeavesAfter(c), root)
    ensures LeafLinked(pages, id)
    ensures var pages2, leaves := Unlinked(pages, id), LeavesBefore(c) + [id] + LeavesAfter(c);
      && SameBut(pages, pages2) && CtxMatches(pages2, c, id) && Linked(pages2, leaves, root)
      && Linked(pages2, LeavesBefore(c) + LeavesAfter(c), root)
      && (Chain(pages, leaves) && Back(pages, leaves) ==>
            Chain(pages2, LeavesBefore(c) + LeavesAfter(c)) && Back(pages2, LeavesBefore(c) + LeavesAfter(c)))
      && (Chain(pages, leaves) ==> (Chain(pages2, LeavesBefore(c) + LeavesAfter(c)) <==> LeftIs(pages, leaves, id)))
  {
    hide CtxMatches, CtxIds, LeavesBefore, LeavesAfter, Linked, Chain, Back, NoRepeat, LeftIs;
    var x, y := LeavesBefore(c), LeavesAfter(c);
    var leaves := x + [id] + y;
    assert leaves[|x|] == id;
    UnlinkedKeeps(pages, id, leaves, root);
    SameCtx(pages, Unlinked(pages, id), c, id);
    LinkedWithout(Unlinked(pages, id), x, id, y, root);
    LeavesOnce(pages, c, id, slack);
    LinkedHas(pages, leaves, root);
    if Chain(pages, leaves) {
      UnlinkKeepsChain(pages, x, id, y);
      LeftOf(pages, x, id, y);
    }
    if Chain(pages, leaves) && Back(pages, leaves) {
      UnlinkKeepsBoth(pages, x, id, y);
    }
  }

  // ------------------------------------------------------------------ pages outside the tree

  lemma AgreeThrough(a: Pages, b: Pages, c: Pages, slack: multiset<nat>, more: multiset<nat>)
    requires Agree(a, b, slack) && Agree(b, c, more) && slack <= more
    ensures Agree(a, c, slack)
  {
  }

  lemma AgreeSame(pages: Pages, ids: multiset<nat>)
    ensures Agree(pages, pages, ids)
  {
  }

  /** The page that loses a child, and those above and beside it, are pages of the tree. */
  lemma GapOutside(pages: Pages, g: Gap, h: nat, slack: multiset<nat>, page: NodePage)
    requires Gone(pages, g, h, slack) || Shrunk(pages, g, h, slack)
    ensures Agree(pages, pages[g.id := page], slack)
  {
    hide GapOk, GapMatches, CtxMatches, Matches, CtxIds, IdsAll;
    var rest := CtxIds(g.up) + IdsAll(g.kids);
    assert multiset{g.id} + rest + slack == multiset(pages.Keys);
    Once(pages, slack, multiset{g.id}, rest);
    assert g.id in multiset{g.id};
  }

  lemma PairOutside(pages: Pages, pages2: Pages, g: Gap, h: nat, slack: multiset<nat>, i: nat)
    requires Pair(g, h, i) && Shrunk(pages, g, h, slack) && Neighbours(pages, g.up.id, i)
    requires var up, kids := g.up.id, pages[g.up.id].kids;
      forall id | id in pages && id != up && id != kids[i] && id != kids[i + 1] ::
        id in pages2 && pages2[id] == pages[id]
    ensures Agree(pages, pages2, slack)
  {
    hide Rank, Less, Wf, SortedKeys, InnerUsed, CanMerge, CutInside, Siblings, GapOk, Matches, CtxMatches, CtxOk, Pair;
    hide IdsAll, Shrunk;
    GapParts(g, h, i);
    Parts(pages, g, h, slack, i);
    PairPages(pages, g, h, slack, i);
    var p, kids := g.up, Siblings(g);
    var x, y, z := multiset{p.id} + IdsAll(kids), CtxIds(p.up), slack;
    assert x + y + z == multiset(pages.Keys);
    Once(pages, slack, x, y);
    IdIn(kids, i);
    IdIn(kids, i + 1);
    assert kids[i].id in Ids(kids[i]) && kids[i + 1].id in Ids(kids[i + 1]) && p.id in multiset{p.id};
    assert pages[p.id].kids[i] == kids[i].id && pages[p.id].kids[i + 1] == kids[i + 1].id;
  }

  lemma LinkedHas(pages: Pages, leaves: seq<nat>, root: nat)
    requires Linked(pages, leaves, root)
    ensures INVALID !in pages
  {
  }
}
