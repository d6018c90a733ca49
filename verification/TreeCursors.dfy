/** Positions in the sequence of all entries, seen from the leaves. */
module TreeCursors {
  import opened ByteStrings
  import opened Nodes
  import opened Trees
  import opened TreeInsert
  import opened TreeSteps

  ghost predicate AllLeaves(pages: Pages, ids: seq<nat>) {
    forall i | 0 <= i < |ids| :: ids[i] in pages && pages[ids[i]].LeafPage?
  }

  /** The entries of these leaves, one leaf after the other. */
  ghost function Concat(pages: Pages, ids: seq<nat>): seq<Entry>
    requires AllLeaves(pages, ids)
  {
    if ids == [] then [] else Concat(pages, ids[..|ids| - 1]) + pages[ids[|ids| - 1]].entries
  }

  lemma {:induction false} ConcatAppend(pages: Pages, a: seq<nat>, b: seq<nat>)
    requires AllLeaves(pages, a) && AllLeaves(pages, b)
    ensures AllLeaves(pages, a + b) && Concat(pages, a + b) == Concat(pages, a) + Concat(pages, b)
    decreases |b|
  {
    if b == [] {
      assert a + b == a;
    } else {
      assert (a + b)[..|a + b| - 1] == a + b[..|b| - 1];
      ConcatAppend(pages, a, b[..|b| - 1]);
    }
  }

  lemma {:induction false} FlatIs(pages: Pages, t: Tree)
    requires Matches(pages, t)
    ensures AllLeaves(pages, LeafIds(t)) && Concat(pages, LeafIds(t)) == Flat(t)
    decreases t, 1
  {
    if t.Node? {
      FlatAllIs(pages, t.kids);
    } else {
      assert [t.id][..0] == [];
    }
  }

  lemma {:induction false} FlatAllIs(pages: Pages, kids: seq<Tree>)
    requires forall i | 0 <= i < |kids| :: Matches(pages, kids[i])
    ensures AllLeaves(pages, LeafIdsAll(kids)) && Concat(pages, LeafIdsAll(kids)) == FlatAll(kids)
    decreases kids, 0
  {
    hide Matches;
    if kids != [] {
      FlatIs(pages, kids[0]);
      FlatAllIs(pages, kids[1..]);
      ConcatAppend(pages, LeafIds(kids[0]), LeafIdsAll(kids[1..]));
    }
  }

  lemma {:induction false} BeforeIs(pages: Pages, c: Ctx, hole: nat)
    requires CtxMatches(pages, c, hole)
    ensures AllLeaves(pages, LeavesBefore(c)) && Concat(pages, LeavesBefore(c)) == Before(c)
  {
    hide Matches;
    if c.In? {
      BeforeIs(pages, c.up, c.id);
      FlatAllIs(pages, c.left);
      ConcatAppend(pages, LeavesBefore(c.up), LeafIdsAll(c.left));
    }
  }

  /** Entry number `index` of leaf `id` is number `n` of all. */
  ghost predicate LeafAt(pages: Pages, leaves: seq<nat>, id: nat, index: nat, n: nat) {
    && AllLeaves(pages, leaves) && id in pages && pages[id].LeafPage? && index < |pages[id].entries|
    && exists i :: 0 <= i < |leaves| && leaves[i] == id && n == |Concat(pages, leaves[..i])| + index
  }

  /** The first `n` entries are those of the first so many leaves. */
  ghost predicate LeafEnd(pages: Pages, leaves: seq<nat>, n: nat) {
    AllLeaves(pages, leaves) && exists i :: 0 < i <= |leaves| && n == |Concat(pages, leaves[..i])|
  }

  lemma HoleLeaf(pages: Pages, c: Ctx, leaf: Tree, index: nat)
    requires leaf.Leaf? && CtxMatches(pages, c, leaf.id) && Matches(pages, leaf) && Matches(pages, Plug(c, leaf))
    requires LeafIds(Plug(c, leaf)) == LeavesBefore(c) + [leaf.id] + LeavesAfter(c) && index <= |leaf.entries|
    ensures var leaves, n := LeafIds(Plug(c, leaf)), |Before(c)| + index;
      if index < |leaf.entries| then LeafAt(pages, leaves, leaf.id, index, n) else LeafEnd(pages, leaves, n)
  {
    hide CtxMatches, LeavesBefore, LeavesAfter, Before, Plug, Flat, LeafIds;
    FlatIs(pages, Plug(c, leaf));
    BeforeIs(pages, c, leaf.id);
    var leaves, i := LeafIds(Plug(c, leaf)), |LeavesBefore(c)|;
    assert leaves[..i] == LeavesBefore(c) && leaves[i] == leaf.id;
    StepOn(pages, leaves, i);
  }

  /** Where the entries of one leaf end, those of the next begin. */
  lemma StepOn(pages: Pages, leaves: seq<nat>, i: nat)
    requires AllLeaves(pages, leaves) && i < |leaves|
    ensures Concat(pages, leaves[..i + 1]) == Concat(pages, leaves[..i]) + pages[leaves[i]].entries
    ensures |Concat(pages, leaves[..i + 1])| <= |Concat(pages, leaves)|
    ensures i + 1 == |leaves| ==> |Concat(pages, leaves[..i + 1])| == |Concat(pages, leaves)|
    ensures forall k | 0 <= k < |pages[leaves[i]].entries| ::
              Concat(pages, leaves)[|Concat(pages, leaves[..i])| + k] == pages[leaves[i]].entries[k]
  {
    hide Concat;
    assert leaves[..i + 1] == leaves[..i] + [leaves[i]];
    ConcatAppend(pages, leaves[..i], [leaves[i]]);
    ConcatOne(pages, leaves[i]);
    assert leaves == leaves[..i + 1] + leaves[i + 1..];
    ConcatAppend(pages, leaves[..i + 1], leaves[i + 1..]);
    if i + 1 == |leaves| {
      assert leaves[..i + 1] == leaves;
    }
  }

  lemma ConcatOne(pages: Pages, id: nat)
    requires id in pages && pages[id].LeafPage?
    ensures AllLeaves(pages, [id]) && Concat(pages, [id]) == pages[id].entries
  {
    assert [id][..0] == [];
  }

  lemma EntryAt(pages: Pages, t: Tree, id: nat, index: nat, n: nat)
    requires Matches(pages, t) && LeafAt(pages, LeafIds(t), id, index, n)
    ensures n < |Flat(t)| && Flat(t)[n] == pages[id].entries[index]
  {
    hide Matches, LeafIds, Flat;
    FlatIs(pages, t);
    var leaves := LeafIds(t);
    var i :| 0 <= i < |leaves| && leaves[i] == id && n == |Concat(pages, leaves[..i])| + index;
    StepOn(pages, leaves, i);
  }

  // ------------------------------------------------------------------ leaves with something in them

  ghost predicate AllFull(pages: Pages, ids: seq<nat>) {
    AllLeaves(pages, ids) && forall i | 0 <= i < |ids| :: pages[ids[i]].entries != []
  }

  lemma {:induction false} NoLeafEmpty(pages: Pages, t: Tree, h: nat, lo: real, hi: real)
    requires Matches(pages, t) && Wf(t, h, lo, hi, false)
    ensures AllFull(pages, LeafIds(t)) && LeafIds(t) != []
    decreases t
  {
    hide Rank, Less, LeafUsed, InnerUsed, Sorted, SortedKeys;
    if t.Node? {
      forall i | 0 <= i < |t.kids| ensures AllFull(pages, LeafIds(t.kids[i])) && LeafIds(t.kids[i]) != [] {
        NoLeafEmpty(pages, t.kids[i], h - 1, Low(t.keys, lo, i), High(t.keys, hi, i));
      }
      AllKidsFull(pages, t.kids);
    }
  }

  lemma {:induction false} AllKidsFull(pages: Pages, kids: seq<Tree>)
    requires forall i | 0 <= i < |kids| :: AllFull(pages, LeafIds(kids[i])) && LeafIds(kids[i]) != []
    ensures AllFull(pages, LeafIdsAll(kids)) && |LeafIdsAll(kids)| >= |kids|
  {
    hide LeafIds;
    if kids != [] {
      AllKidsFull(pages, kids[1..]);
    }
  }

  /** Only a tree that is a single leaf can have an empty one. */
  lemma LeavesFull(pages: Pages, t: Tree, h: nat, lo: real, hi: real)
    requires Matches(pages, t) && Wf(t, h, lo, hi, true)
    ensures |LeafIds(t)| > 0 && (|LeafIds(t)| > 1 ==> AllFull(pages, LeafIds(t)))
  {
    hide Rank, Less, LeafUsed, InnerUsed, Sorted, SortedKeys;
    if t.Node? {
      forall i | 0 <= i < |t.kids| ensures AllFull(pages, LeafIds(t.kids[i])) && LeafIds(t.kids[i]) != [] {
        NoLeafEmpty(pages, t.kids[i], h - 1, Low(t.keys, lo, i), High(t.keys, hi, i));
      }
      AllKidsFull(pages, t.kids);
    }
  }

  lemma LeafEndZero(pages: Pages, t: Tree, h: nat)
    requires Matches(pages, t) && Wf(t, h, 0.0, 1.0, true) && LeafEnd(pages, LeafIds(t), 0)
    ensures Flat(t) == []
  {
    hide Matches, Wf, LeafIds, Flat;
    FlatIs(pages, t);
    LeavesFull(pages, t, h, 0.0, 1.0);
    var leaves := LeafIds(t);
    var i :| 0 < i <= |leaves| && 0 == |Concat(pages, leaves[..i])|;
    StepOn(pages, leaves, i - 1);
    assert pages[leaves[i - 1]].entries == [];
    assert leaves[..1] == leaves;
  }

  // ------------------------------------------------------------------ order

  lemma FlatOrder(t: Tree, h: nat)
    requires Wf(t, h, 0.0, 1.0, true)
    ensures forall i, j | 0 <= i < j < |Flat(t)| :: Less(Flat(t)[i].key, Flat(t)[j].key)
  {
    hide Rank, Less, Wf, Flat;
    FlatSorted(t, h, 0.0, 1.0, true);
    forall i, j | 0 <= i < j < |Flat(t)| ensures Less(Flat(t)[i].key, Flat(t)[j].key) {
      RankOrders(Flat(t)[i].key, Flat(t)[j].key);
    }
  }

  lemma NothingBelow(key: ByteString)
    ensures !Less(key, [])
  {
  }

  /** The position in the leaf is the position in the whole. */
  lemma Splits(c: Ctx, leaf: Tree, key: ByteString)
    requires CtxOk(c, 0) && (c.In? ==> |c.left| <= |c.keys|) && HoleLo(c) <= Rank(key) < HoleHi(c) && leaf.Leaf?
    requires Sorted(leaf.entries, HoleLo(c), HoleHi(c))
    ensures var all, n := Before(c) + leaf.entries + After(c), |Before(c)| + LowerBound(KeysOf(leaf.entries), key);
      && (forall j | 0 <= j < n :: Less(all[j].key, key)) && (forall j | n <= j < |all| :: !Less(all[j].key, key))
  {
    hide Rank, Less, LowerBound, CtxOk, Before, After, Sorted;
    CtxSorted(c, 0);
    var all, i := Before(c) + leaf.entries + After(c), LowerBound(KeysOf(leaf.entries), key);
    var b, m := |Before(c)|, |leaf.entries|;
    forall j | 0 <= j < |all| ensures Less(all[j].key, key) <==> j < b + i {
      RankOrders(all[j].key, key);
      if j < b {
        SortedAt(Before(c), 0.0, HoleLo(c), j);
        assert all[j] == Before(c)[j];
      } else if j < b + m {
        BoundAt(leaf.entries, HoleLo(c), HoleHi(c), key, j - b);
        assert all[j] == leaf.entries[j - b];
      } else {
        SortedAt(After(c), HoleHi(c), 1.0, j - b - m);
        assert all[j] == After(c)[j - b - m];
      }
    }
  }

  lemma SortedAt(entries: seq<Entry>, lo: real, hi: real, i: nat)
    requires Sorted(entries, lo, hi) && i < |entries|
    ensures lo <= Rank(entries[i].key) < hi
  {
    hide Rank;
  }

  lemma BoundAt(entries: seq<Entry>, lo: real, hi: real, key: ByteString, i: nat)
    requires Sorted(entries, lo, hi) && i < |entries|
    ensures Rank(entries[i].key) < Rank(key) <==> i < LowerBound(KeysOf(entries), key)
  {
    hide Rank, Less, LowerBound;
    var keys, n := KeysOf(entries), LowerBound(KeysOf(entries), key);
    assert keys[i] == entries[i].key;
    if n < i {
      assert keys[n] == entries[n].key && Rank(entries[n].key) < Rank(entries[i].key);
    }
  }

  /** The leaf in whose range `key` falls. */
  ghost function LeafOf(t: Tree, key: ByteString): Tree {
    if t.Leaf? || ChildAt(t.keys, key) >= |t.kids| then t else LeafOf(t.kids[ChildAt(t.keys, key)], key)
  }

  /** The pages on the way to it, the root first. */
  ghost function PathTo(t: Tree, key: ByteString): seq<nat> {
    if t.Leaf? || ChildAt(t.keys, key) >= |t.kids| then [] else [t.id] + PathTo(t.kids[ChildAt(t.keys, key)], key)
  }

  lemma PositionIs(entries: seq<Entry>, key: ByteString, n: nat)
    requires Sorted(entries, 0.0, 1.0) && n <= |entries|
    requires forall j | 0 <= j < n :: Less(entries[j].key, key)
    requires forall j | n <= j < |entries| :: !Less(entries[j].key, key)
    ensures LowerBound(KeysOf(entries), key) == n
  {
    hide Rank, Less, LowerBound;
    SortedAscending(entries, 0.0, 1.0);
    if n > 0 {
      RankOrders(entries[n - 1].key, key);
    }
    if n < |entries| {
      RankOrders(entries[n].key, key);
    }
    LowerBoundIs(KeysOf(entries), key, n);
  }

  lemma AllBelowIs(entries: seq<Entry>, key: ByteString, lo: real, hi: real)
    requires Sorted(entries, lo, hi)
    ensures LowerBound(KeysOf(entries), key) == |entries| <==> forall e | e in entries :: Less(e.key, key)
  {
    hide Rank, Less;
    SortedAscending(entries, lo, hi);
    var i := LowerBound(KeysOf(entries), key);
    assert forall k | 0 <= k < |entries| :: KeysOf(entries)[k] == entries[k].key;
    if i < |entries| {
      RankOrders(entries[i].key, key);
      assert entries[i] in entries;
    } else {
      forall e | e in entries ensures Less(e.key, key) {
        var k :| 0 <= k < |entries| && entries[k] == e;
        RankOrders(e.key, key);
      }
    }
  }

  lemma FoundBelow(entries: seq<Entry>, key: ByteString, lo: real, hi: real)
    requires Sorted(entries, lo, hi)
    ensures Find(entries, key) < |entries| ==> LowerBound(KeysOf(entries), key) < |entries|
  {
    hide Rank, Less, LowerBound;
    SortedAscending(entries, lo, hi);
    FindFinds(entries, key);
  }

  lemma SettledFirst(pages: Pages, c: Ctx, leaf: Tree, slack: multiset<nat>)
    requires Settled(pages, c, leaf, 0, slack)
    ensures CtxMatches(pages, c, leaf.id) && Matches(pages, leaf) && Matches(pages, Plug(c, leaf))
  {
    PlugMatches(pages, c, leaf);
  }

  /** A tree in which the search for the first key not below "b" ends in a leaf without such a key, though
      the tree has one. */
  lemma BeginMayMiss() returns (c: Ctx, leaf: Tree, key: ByteString)
    ensures CtxOk(c, 0) && leaf.Leaf? && Wf(Plug(c, leaf), 1, 0.0, 1.0, true) && HoleLo(c) <= Rank(key) < HoleHi(c)
    ensures LowerBound(KeysOf(leaf.entries), key) == |leaf.entries|
    ensures exists e :: e in Flat(Plug(c, leaf)) && !Less(e.key, key)
  {
    hide CtxOk, Wf, Rank, Less;
    key := [98];
    leaf := Leaf(1, [Entry([97], [])]);
    c := ExampleCtx();
    ExampleRanks();
    ExampleOk();
    PlugWf(c, leaf, 0);
    ExampleFlat(leaf);
    OneBelow(leaf.entries[0], key);
    RankOrders([99], key);
  }

  lemma ExampleFlat(leaf: Tree)
    ensures Entry([99], []) in Flat(Plug(ExampleCtx(), leaf))
    ensures HoleLo(ExampleCtx()) == 0.0 && HoleHi(ExampleCtx()) == Rank([99]) && ExampleCtx().In?
  {
    hide Rank;
    PlugFlat(ExampleCtx(), leaf);
    AllOne(Leaf(2, [Entry([99], [])]));
    assert Entry([99], []) in After(ExampleCtx());
  }

  lemma OneBelow(e: Entry, key: ByteString)
    requires Rank(e.key) < Rank(key)
    ensures LowerBound(KeysOf([e]), key) == 1
  {
    hide Rank, Less;
    RankOrders(e.key, key);
    assert KeysOf([e]) == [e.key];
    assert [e.key][1..] == [];
  }

  ghost function ExampleCtx(): Ctx {
    In(Top, 0, [[99]], [], [Leaf(2, [Entry([99], [])])], 0.0, 1.0)
  }

  lemma ExampleRanks()
    ensures Rank([97]) == 98.0 / 258.0 && Rank([98]) == 99.0 / 258.0 && Rank([99]) == 100.0 / 258.0
  {
  }

  lemma ExampleOk()
    ensures CtxOk(ExampleCtx(), 0) && Depth(ExampleCtx()) == 1
    ensures Wf(Leaf(1, [Entry([97], [])]), 0, 0.0, Rank([99]), false)
  {
    ExampleRanks();
    LeafUsedOne(Entry([97], []));
    LeafUsedOne(Entry([99], []));
    InnerUsedOne([99]);
    hide Rank, LeafUsed, InnerUsed;
    assert Wf(Leaf(2, [Entry([99], [])]), 0, Rank([99]), 1.0, false);
  }
}
