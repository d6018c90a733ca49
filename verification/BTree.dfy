/** The B+tree on its pages: find, insert, remove and walking along the leaves. */
module BTrees {
  import opened Basics
  import opened ByteStrings
  import opened Nodes
  import opened Trees
  import opened TreeInsert
  import opened TreeSteps
  import opened TreeGrowth
  import opened TreeRemove
  import opened TreeUnderflow
  import opened TreeLinks
  import opened KeyLengths
  import opened TreeRemoval
  import opened TreeCursors

  datatype InsertResult = Inserted | Replaced(before: ByteString) | Unchanged(current: ByteString)

  /** `NoRoom` is the failed assertion of a page that would outgrow its size. */
  datatype RemoveResult = NotFound | Removed(before: ByteString) | NoRoom

  datatype Underflow = Shares | Merges(free: nat) | Stuck

  datatype Round = Done | Failed | More(key: ByteString)

  datatype Cursor = End | At(leaf: nat, index: nat)

  /** Work goes on in one leaf, which may be empty meanwhile. `slack` are the pages outside the tree. */
  ghost predicate OpenAt(pages: Pages, root: nat, c: Ctx, leaf: Tree, slack: multiset<nat>) {
    && leaf.Leaf? && CtxOk(c, 0) && CtxMatches(pages, c, leaf.id) && Matches(pages, leaf)
    && (c.In? ==> |c.left| <= |c.keys|) && Sorted(leaf.entries, HoleLo(c), HoleHi(c))
    && LeafUsed(leaf.entries) <= LEAF_SIZE && CtxIds(c) + Ids(leaf) + slack == multiset(pages.Keys)
    && Linked(pages, Strings(c, leaf.id), root) && root == (if c.Top? then leaf.id else Path(c)[0])
  }

  /** All leaves of the tree with leaf `id` in the open place. */
  ghost function Strings(c: Ctx, id: nat): seq<nat> {
    LeavesBefore(c) + [id] + LeavesAfter(c)
  }

  /** A new key went into the leaf `id`, one of these leaves. */
  ghost predicate PutAt(was: Pages, leaves: seq<nat>, id: nat, path: seq<nat>, entries: seq<Entry>, key: ByteString,
                        value: ByteString, now: Pages, leaves2: seq<nat>) {
    exists k | 0 <= k < |leaves| && leaves[k] == id :: LeafPut(was, leaves, k, path, entries, key, value, now, leaves2)
  }

  ghost predicate IsLast(leaves: seq<nat>, id: nat) {
    leaves != [] && leaves[|leaves| - 1] == id
  }

  /** What an insertion does to the pages of a tree. The value of a key is written over if the new one has the same
      length; otherwise the entry leaves its leaf, and comes in as a new one does. */
  ghost predicate Written(was: Pages, t: Tree, key: ByteString, value: ByteString, r: InsertResult, now: Pages,
                          t2: Tree) {
    var leaf, path, leaves := LeafOf(t, key), PathTo(t, key), LeafIds(t);
    && leaf.Leaf? && leaf.id in was && was[leaf.id].LeafPage?
    && match r
       case Inserted => PutAt(was, leaves, leaf.id, path, leaf.entries, key, value, now, LeafIds(t2))
       case Unchanged(_) => now == was && LeafIds(t2) == leaves
       case Replaced(before) =>
         if before == value then
           now == was && LeafIds(t2) == leaves
         else if |before| == |value| then
           var i := Find(leaf.entries, key);
           && i < |leaf.entries| && LeafIds(t2) == leaves
           && now == was[leaf.id := was[leaf.id].(entries := leaf.entries[i := Entry(key, value)])]
         else
           PutAt(was, leaves, leaf.id, path, LeafRemove(leaf.entries, key), key, value, now, LeafIds(t2))
  }

  /** An emptied leaf has left the chain and the tree. The root leaf stays. */
  ghost predicate Dropped(was: Pages, leaves: seq<nat>, path: seq<nat>, id: nat, now: Pages, leaves2: seq<nat>,
                          root: nat) {
    && LeafLinked(was, id)
    && if path == [] then
      now == Unlinked(was, id) && leaves2 == leaves
    else
      exists k | 0 <= k < |leaves| && leaves[k] == id ::
        LeavesStay(Unlinked(was, id), leaves[..k] + leaves[k + 1..], now, leaves2, root)
  }

  /** What a removal does to the leaves of a tree: one loses an entry, and if it is empty then, leaves the chain. */
  ghost predicate Erased(was: Pages, t: Tree, key: ByteString, now: Pages, t2: Tree) {
    var leaf := LeafOf(t, key);
    && leaf.Leaf? && leaf.id in was && was[leaf.id].LeafPage?
    && ErasedAt(was, LeafIds(t), PathTo(t, key), leaf.id, LeafRemove(leaf.entries, key), now, LeafIds(t2), t.id)
  }

  ghost predicate ErasedAt(was: Pages, leaves: seq<nat>, path: seq<nat>, id: nat, es: seq<Entry>, now: Pages,
                           leaves2: seq<nat>, root: nat)
    requires id in was && was[id].LeafPage?
  {
    var mid := was[id := was[id].(entries := es)];
    if es != [] then now == mid && leaves2 == leaves else Dropped(mid, leaves, path, id, now, leaves2, root)
  }

  class BTree {
    var pages: Pages
    var root: nat
    var freePages: seq<nat>
    ghost var tree: Tree
    ghost var height: nat

    ghost predicate Valid()
      reads this
    {
      && root == tree.id && Matches(pages, tree) && Wf(tree, height, 0.0, 1.0, true)
      && Ids(tree) <= multiset(pages.Keys) && Linked(pages, LeafIds(tree), root)
    }

    /** All entries in ascending order, and the map they make. */
    ghost function Entries(): seq<Entry>
      reads this
    {
      Flat(tree)
    }

    ghost function Contents(): map<ByteString, ByteString>
      reads this
    {
      ToMap(Entries())
    }

    /** Every page ever taken is in the tree or free, and exactly once. */
    ghost predicate Conserved()
      reads this
    {
      Ids(tree) + multiset(freePages) == multiset(pages.Keys)
    }

    /** The links to the right string the leaves together. */
    ghost predicate Chained()
      reads this
    {
      Chain(pages, LeafIds(tree))
    }

    /** The links to the left are right as well. */
    ghost predicate BackLinked()
      reads this
    {
      Back(pages, LeafIds(tree))
    }

    /** All keys, also those between pages, have one length. */
    ghost predicate Uniform(length: nat)
      reads this
    {
      AllOf(pages, length)
    }

    constructor (id: nat)
      requires id != INVALID
      ensures Valid() && Contents() == map[] && Conserved() && Chained() && BackLinked()
    {
      pages, root, freePages := map[id := LeafPage([], INVALID, INVALID)], id, [];
      tree, height := Leaf(id, []), 0;
      new;
      assert EntrySizes([]) == [];
      assert multiset(pages.Keys) == multiset{id};
    }

    method NewPageId() returns (id: nat)
      ensures id !in pages && id != INVALID
    {
      FreshId(pages.Keys);
      id :| id !in pages && id != INVALID;
    }

    /** The leaf in whose range `key` falls, and the pages on the way to it. */
    method FindLeaf(key: ByteString) returns (id: nat, stack: seq<nat>, ghost c: Ctx, ghost leaf: Tree)
      requires Valid()
      ensures leaf.Leaf? && leaf.id == id && Plug(c, leaf) == tree && stack == Path(c)
      ensures Settled(pages, c, leaf, 0, multiset(pages.Keys) - Ids(tree)) && HoleLo(c) <= Rank(key) < HoleHi(c)
      ensures leaf == LeafOf(tree, key) && stack == PathTo(tree, key) && id in pages && pages[id].LeafPage?
      ensures pages[id].entries == LeafOf(tree, key).entries
    {
      hide Matches, Wf, CtxOk, CtxMatches, Ids, LowerBound, Linked, LeafOf, PathTo, Path;
      TopPath();
      id, stack := root, [];
      c, leaf := Top, tree;
      ghost var h := height;
      TopOk(pages, h, id);
      while true
        invariant id == leaf.id && Plug(c, leaf) == tree && stack == Path(c)
        invariant LeafOf(leaf, key) == LeafOf(tree, key) && stack + PathTo(leaf, key) == PathTo(tree, key)
        invariant CtxOk(c, h) && CtxMatches(pages, c, id) && Matches(pages, leaf)
        invariant (c.In? ==> |c.left| <= |c.keys|) && Wf(leaf, h, HoleLo(c), HoleHi(c), c.Top?)
        invariant HoleLo(c) <= Rank(key) < HoleHi(c)
        decreases h
      {
        PageKind(pages, leaf, h, HoleLo(c), HoleHi(c), c.Top?);
        var page := pages[id];
        if page.LeafPage? {
          AtLeaf(leaf, key);
          PlugIds(c, leaf);
          assert multiset(pages.Keys) - Ids(tree) + Ids(tree) == multiset(pages.Keys);
          return;
        }
        var j := ChildAt(page.keys, key);
        ChildBounds(leaf.keys, HoleLo(c), HoleHi(c), key);
        DescendOk(c, leaf, h, j);
        DescendMatches(pages, c, leaf, j);
        OnTheWay(c, leaf, key, j);
        assert stack + ([id] + PathTo(leaf.kids[j], key)) == stack + [id] + PathTo(leaf.kids[j], key);
        stack := stack + [id];
        id := page.kids[j];
        c, leaf, h := Descend(c, leaf, j), leaf.kids[j], h - 1;
      }
    }

    /** What a search finds is what the map holds. */
    method FindValue(key: ByteString) returns (value: seq<ByteString>)
      requires Valid()
      ensures value == if key in Contents() then [Contents()[key]] else []
    {
      hide Matches, Wf, CtxOk, CtxMatches, Ids, Linked, ToMap;
      ghost var c, leaf;
      var id, stack;
      id, stack, c, leaf := FindLeaf(key);
      SettledFacts(pages, c, leaf, multiset(pages.Keys) - Ids(tree));
      LookUp(c, leaf, key);
      var entries := pages[id].entries;
      var i := Find(entries, key);
      value := if i == |entries| then [] else [entries[i].value];
    }

    method Insert(key: ByteString, value: ByteString, replacePolicy: ByteString -> bool) returns (r: InsertResult)
      requires Valid()
      modifies this
      ensures Valid() && root == old(root) && freePages == old(freePages)
      ensures key !in old(Contents()) ==> r == Inserted && Contents() == old(Contents())[key := value]
      ensures key in old(Contents()) && replacePolicy(old(Contents())[key]) ==>
                r == Replaced(old(Contents())[key]) && Contents() == old(Contents())[key := value]
      ensures key in old(Contents()) && !replacePolicy(old(Contents())[key]) ==>
                r == Unchanged(old(Contents())[key]) && Contents() == old(Contents()) && pages == old(pages)
      ensures old(Conserved()) ==> Conserved()
      ensures old(Chained()) ==> Chained()
      ensures old(Uniform(|key|)) ==> Uniform(|key|)
      ensures Written(old(pages), old(tree), key, value, r, pages, tree)
      ensures OnlyOn(old(pages), pages, old(PathTo(tree, key) + [LeafOf(tree, key).id]))
      ensures old(BackLinked()) ==> (
          BackLinked() <==> |LeafIds(tree)| == |old(LeafIds(tree))|
                            || old(IsLast(LeafIds(tree), LeafOf(tree, key).id)))
    {
      hide Matches, Wf, CtxOk, CtxMatches, Ids, Linked, ToMap, Sorted, Rank, Less, Flat, LeafIds, Plug, Chain, Before,
           After;
      hide LeavesBefore, LeavesAfter, CtxIds, Absent, LeafUsed, OpenAt, Strings, LeafRemove, AllOf, Back;
      hide OnlyOn, LeafPut, PutAt, Written, LeafOf, PathTo;
      ghost var c, leaf;
      var id, stack;
      id, stack, c, leaf := FindLeaf(key);
      ghost var slack := multiset(pages.Keys) - Ids(tree);
      Opened(pages, c, leaf, slack, root);
      LookUp(c, leaf, key);
      OpenOnce(pages, root, c, leaf, slack);
      ghost var was, t := pages, tree;
      var entries := pages[id].entries;
      var i := Find(entries, key);
      if i == |entries| {
        InsertNewKey(id, stack, key, value, c, leaf, slack);
        AbsentAll(leaf.entries, key);
        InsertedMap(c, leaf.entries, leaf.entries, key, value);
        PutWritten(was, c, leaf, slack, root, was, leaf.entries, key, value, pages, LeafIds(tree));
        r := Inserted;
        WrittenPut(was, t, key, value, r, pages, tree);
        return;
      }
      var before := entries[i].value;
      if !replacePolicy(before) {
        r := Unchanged(before);
        WrittenSame(was, t, key, value, r);
        return;
      }
      r := Replaced(before);
      if before == value {
        SameValue(Entries(), key);
        WrittenSame(was, t, key, value, r);
        return;
      }
      if |before| == |value| {
        ghost var es := entries[i := Entry(key, value)];
        ReplacedSorted(entries, i, value, HoleLo(c), HoleHi(c));
        ReplacedOf(pages, id, i, key, value);
        Rewritten(pages, root, c, leaf, slack, es, |key|);
        ReplacedMap(c, leaf.entries, i, value);
        pages := pages[id := pages[id].(entries := entries[i := Entry(key, value)])];
        tree, height := Whole(pages, root, c, Leaf(id, es), slack);
        WrittenOver(was, t, key, value, r, tree);
        return;
      }
      ghost var es := LeafRemove(entries, key);
      LeafRemoveSorted(entries, key, HoleLo(c), HoleHi(c));
      RemovedAbsent(entries, key);
      LeafRemoveUsed(entries, key);
      RemovedOf(pages, id, key, |key|);
      Rewritten(pages, root, c, leaf, slack, es, |key|);
      pages := pages[id := pages[id].(entries := LeafRemove(entries, key))];
      ghost var mid := pages;
      InsertNewKey(id, stack, key, value, c, Leaf(id, es), slack);
      InsertedMap(c, leaf.entries, es, key, value);
      PutWritten(was, c, leaf, slack, root, mid, es, key, value, pages, LeafIds(tree));
      WrittenPut(was, t, key, value, r, pages, tree);
    }

    ghost predicate Open(c: Ctx, leaf: Tree, slack: multiset<nat>)
      reads this
    {
      OpenAt(pages, root, c, leaf, slack)
    }

    ghost predicate Closed(slack: multiset<nat>)
      reads this
    {
      Valid() && Ids(tree) + slack == multiset(pages.Keys)
    }

    method InsertNewKey(id: nat, stack: seq<nat>, key: ByteString, value: ByteString, ghost c: Ctx, ghost leaf: Tree,
                        ghost slack: multiset<nat>)
      requires Open(c, leaf, slack) && leaf.id == id && stack == Path(c)
      requires HoleLo(c) <= Rank(key) < HoleHi(c) && Absent(leaf.entries, key)
      modifies this
      ensures Closed(slack) && root == old(root) && freePages == old(freePages)
      ensures Entries() == Before(c) + LeafInsert(leaf.entries, key, value) + After(c)
      ensures old(Chain(pages, Strings(c, id))) ==> Chained()
      ensures old(Uniform(|key|)) ==> Uniform(|key|)
      ensures LeafPut(old(pages), Strings(c, id), |LeavesBefore(c)|, stack, leaf.entries, key, value, pages,
                      LeafIds(tree))
    {
      hide OnlyOn, LeavesKept, RootMoved, Spread, LeafPut;
      hide Matches, Wf, CtxOk, CtxMatches, Linked, Sorted, Rank, Less, LeafIds, Plug, Chain, Before, After;
      hide LeavesBefore, LeavesAfter, CtxIds, Absent, LeafUsed, LeafInsert, LeafHasSpace, LeafSplit, LeafSplitAt,
           Halves;
      hide Rising, Strung, KeysOf, Path, AllOf, Back, Ids;
      LeafPageIs(pages, leaf);
      var page := pages[id];
      if LeafHasSpace(page.entries, key, value) {
        ghost var es := LeafInsert(page.entries, key, value);
        LeafInsertSorted(page.entries, key, value, HoleLo(c), HoleHi(c));
        InsertFits(page.entries, key, value);
        InsertedOf(pages, id, key, value);
        Rewritten(pages, root, c, leaf, slack, es, |key|);
        hide OpenAt, Strings;
        RoomPut(pages, c, leaf, stack, key, value);
        pages := pages[id := page.(entries := LeafInsert(page.entries, key, value))];
        tree, height := Whole(pages, root, c, Leaf(id, es), slack);
        return;
      }
      var right := NewPageId();
      SplitOpen(pages, root, c, leaf, slack, key, value, right);
      hide OpenAt, Strings;
      var (a, b) := LeafSplit(page.entries, key, value);
      pages := pages[right := LeafPage(b, id, page.next)][id := LeafPage(a, page.prev, right)];
      Propagate(stack, b[0].key, id, right, c, Leaf(id, a), Leaf(right, b), slack);
      SplitPut(old(pages), pages, root, c, leaf, slack, key, value, right, LeafIds(tree));
      assert Before(c) + a + b + After(c) == Before(c) + (a + b) + After(c);
    }

    method Propagate(stack: seq<nat>, key: ByteString, left: nat, right: nat, ghost c: Ctx, ghost l: Tree,
                     ghost r: Tree,
                     ghost slack: multiset<nat>)
      requires Rising(pages, c, l, r, key, 0, slack) && l.id == left && r.id == right && stack == Path(c)
      requires Strung(pages, c, l, r, root) && root == Plug(c, l).id
      modifies this
      ensures Closed(slack) && root == old(root) && freePages == old(freePages)
      ensures Entries() == Before(c) + Flat(l) + Flat(r) + After(c)
      ensures old(Chain(pages, LeavesBefore(c) + [l.id, r.id] + LeavesAfter(c))) ==> Chained()
      ensures old(Uniform(|key|)) ==> Uniform(|key|)
      ensures OnlyOn(old(pages), pages, stack + [left, right])
      ensures |pages| == |old(pages)| + Spread(old(pages), stack, key)
      ensures stack != [] ==>
                LeavesKept(old(pages), pages) && LeafIds(tree) == LeavesBefore(c) + [left, right] + LeavesAfter(c)
      ensures stack == [] ==> RootMoved(old(pages), left, right, pages, LeafIds(tree))
    {
      hide OnlyOn, LeavesKept, RootMoved, Spread, Risen;
      hide Matches, Wf, CtxOk, CtxMatches, Linked, Rank, Less, LeafIds, Flat, Plug, Chain, Before, After;
      hide LeavesBefore, LeavesAfter, CtxIds, Ids, InnerHasSpace, InnerSplit, InnerInsert, InnerSplitAt, Halves,
           Strung, AllOf, Rising, Climbing;
      var key, left, right, stack := key, left, right, stack;
      ghost var cc, ll, rr, h := c, l, r, 0;
      ghost var entries, leaves := Before(c) + Flat(l) + Flat(r) + After(c), LeavesBefore(c) + LeafIds(l) + LeafIds(r)
        + LeavesAfter(c);
      var leftRightIsLeaf := stack == [];
      ghost var up := Climb(pages, stack, [left, right], key, entries, leaves);
      ClimbFirst(up, root, c, l, r, slack);
      JoinIds(LeavesBefore(c), l, r, LeavesAfter(c), leaves);
      while stack != []
        invariant Climbing(up, pages, root, stack, key, left, right, cc, ll, rr, h, slack)
        invariant root == old(root) && freePages == old(freePages)
        invariant up.way == [] ==> cc == c && ll == l && rr == r && h == 0 && pages == up.was && stack == []
        decreases |stack|
      {
        ClimbTop(up, pages, root, stack, key, left, right, cc, ll, rr, h, slack);
        var innerId := stack[|stack| - 1];
        var inner := pages[innerId];
        if InnerHasSpace(inner.keys, key) {
          tree, height := ClimbEnds(up, pages, root, stack, key, left, right, cc, ll, rr, h, slack);
          pages := pages[innerId := InnerInsert(inner, key, right)];
          return;
        }
        var rightInner := NewPageId();
        ll, rr := ClimbOn(up, pages, root, stack, key, left, right, cc, ll, rr, h, slack, rightInner);
        var (a, mid, b) := InnerSplit(inner, key, right);
        pages := pages[innerId := a][rightInner := b];
        cc, h := cc.up, h + 1;
        key, left, right := mid, innerId, rightInner;
        stack := stack[..|stack| - 1];
      }
      ClimbDone(up, pages, root, stack, key, left, right, cc, ll, rr, h, slack);
      ghost var before := pages;
      GrowTree(key, leftRightIsLeaf, left, right, ll, rr, h, slack);
      RisenTop(up.was, up.way, up.ids, up.key, before, key, left, right, pages);
    }

    /** The root splits: its page stays the root and what it held moves to a new page. */
    method GrowTree(key: ByteString, leftRightIsLeaf: bool, left: nat, right: nat, ghost l: Tree, ghost r: Tree,
                    ghost h: nat,
                    ghost slack: multiset<nat>)
      requires Rising(pages, Top, l, r, key, h, slack) && l.id == left == root && r.id == right
      requires leftRightIsLeaf == l.Leaf?
      requires if l.Leaf? then Strung(pages, Top, l, r, root) else Linked(pages, LeafIds(l) + LeafIds(r), root)
      modifies this
      ensures Closed(slack) && root == old(root) && freePages == old(freePages) && Entries() == Flat(l) + Flat(r)
      ensures old(Chain(pages, LeafIds(l) + LeafIds(r))) ==> Chained()
      ensures old(Uniform(|key|)) ==> Uniform(|key|)
      ensures OnlyOn(old(pages), pages, [left, right]) && |pages| == |old(pages)| + 1
      ensures l.Node? ==> LeavesKept(old(pages), pages) && LeafIds(tree) == LeafIds(l) + LeafIds(r)
      ensures l.Leaf? ==> RootMoved(old(pages), left, right, pages, LeafIds(tree))
    {
      hide Rank, Less, Wf, Chain, Plug, Halves, CtxMatches, CtxOk, Flat, Linked, Strung, Ids, LeafIds, Matches, AllOf,
           Rising;
      hide OnlyOn, LeavesKept, RootMoved;
      var id := NewPageId();
      GrowFacts(pages, l, r, key, h, slack);
      tree, height := Grown(pages, root, l, r, key, h, slack, id);
      if leftRightIsLeaf {
        pages := pages[id := pages[left]];
        pages := pages[right := pages[right].(prev := id)];
      } else {
        pages := pages[id := pages[left]];
      }
      pages := pages[left := InnerPage([key], [id, right])];
    }

    /** A page with a single key merges with a neighbour or takes children over from it. It gets stuck
        exactly when the page this needs is too small. */
    method HandleUnderflow(key: ByteString, stack: seq<nat>, ghost g: Gap, ghost h: nat, ghost slack: multiset<nat>,
                           ghost length: nat)
      returns (u: Underflow, ghost t: Tree, ghost g2: Gap)
      requires Shrunk(pages, g, h, slack) && |g.keys| == 2 && g.up.In? && stack == Path(g.up) + [g.id]
      requires |g.up.left| <= |g.up.keys| && HoleLo(g.up) <= Rank(key) < HoleHi(g.up)
      modifies this
      ensures root == old(root) && pages.Keys == old(pages.Keys) && LeavesKept(old(pages), pages)
      ensures Agree(old(pages), pages, slack)
      ensures var parent := stack[|stack| - 2];
        parent in old(pages) && GoodInner(old(pages)[parent]) && old(pages)[parent].keys != [] &&
        UnderflowIs(old(pages), pages, parent, FindKey(old(pages)[parent].keys, key), u.Stuck?, u.Merges?,
                    if u.Merges? then u.free else 0)
      ensures u.Stuck? ==> freePages == old(freePages)
      ensures u.Shares? ==> freePages == old(freePages) && Settled(pages, g.up.up, t, h + 2, slack) && SameBelow(g, t)
      ensures u.Merges? ==> freePages == old(freePages) + [u.free] && Gone(pages, g2, h + 1, slack + multiset{u.free})
      ensures u.Merges? ==> SameAround(g, g2) && KeyInGap(pages, g2, u.free)
      ensures AllOf(old(pages), length) ==> !u.Stuck? && AllOf(pages, length)
    {
      hide Rank, Less, Matches, CtxMatches, CtxOk, Ids, CtxIds, Settled, Gone, InGap, CanMerge, RoomFor, SharedTree,
           Siblings;
      hide LowerBound, FindKey, Redistribute, Merge, InnerUsed, ShareAt, SameBelow, SameAround, GapOk, KeyInGap, Pair;
      hide AllOf, LeavesKept, Agree;
      t, g2 := Leaf(0, []), g;
      AgreeSame(pages, slack);
      var parent := stack[|stack| - 2];
      PathTop(g.up, Path(g.up));
      PairFound(g, h, key);
      ghost var i0 := FindKey(g.up.keys, key);
      NeighboursAre(pages, g, h, slack, i0);
      hide Shrunk;
      var p := pages[parent];
      var i := FindKey(p.keys, key);
      StepsInner(pages, parent, i);
      if AllOf(pages, length) {
        RoomOfOneLength(pages, parent, i, length);
      }
      u := Stuck;
      if !RoomFor(pages, parent, i) {
        return;
      }
      var left, right := p.kids[i], p.kids[i + 1];
      if !CanMerge(pages[left].keys, p.keys[i], pages[right].keys) {
        t := StepShares(pages, g, h, slack, i);
        if AllOf(pages, length) {
          SharedPagesOf(pages, parent, i, length);
        }
        PairOutside(pages, SharedPages(pages, parent, i), g, h, slack, i);
        var (a, mid, b) := Redistribute(pages[left], pages[right], p.keys[i]);
        pages := pages[left := a][right := b][parent := InnerInsert(InnerRemove(p, p.keys[i]), mid, right)];
        return Shares, t, g2;
      }
      g2 := StepMerges(pages, g, h, slack, i);
      KeyInGapIs(MergedPages(pages, parent, i), g2, right);
      PairOutside(pages, MergedPages(pages, parent, i), g, h, slack, i);
      if AllOf(pages, length) {
        MergedPagesOf(pages, parent, i, length);
      }
      pages := pages[left := Merge(pages[left], pages[right], p.keys[i])];
      freePages := freePages + [right];
      u := Merges(right);
    }

    /** The root page has one child left and takes its contents over. */
    method TakeOver(innerId: nat, ghost was: Pages, ghost g: Gap, ghost h: nat, ghost slack: multiset<nat>,
                    ghost entries: seq<Entry>, ghost leaves: seq<nat>, ghost length: nat)
      returns (child: nat)
      requires Shrunk(pages, g, h, slack) && |g.keys| == 1 && Holds(g, entries, leaves) && innerId == root == g.id
      requires Kept(was, pages, leaves, root, length)
      modifies this
      ensures Closed(slack + multiset{child}) && Entries() == entries && root == old(root)
      ensures Agree(old(pages), pages, slack)
      ensures freePages == old(freePages) + [child]
      ensures (Chain(was, leaves) <==> Chained()) && (Back(was, leaves) ==> BackLinked())
      ensures AllOf(was, length) ==> Uniform(length)
      ensures child in old(pages) && pages == old(pages)[root := old(pages)[child]]
      ensures LeavesStay(was, leaves, pages, LeafIds(tree), root)
    {
      hide LeavesStay, LeavesKept;
      hide Rank, Less, Matches, Wf, Ids, Shrunk, AllOf, Linked, Chain, Back, Holds, Flat, LeafIds, Kept;
      tree, height := FinishCollapse(was, pages, g, h, slack, entries, leaves, length);
      child := pages[innerId].kids[0];
      GapOutside(pages, g, h, slack, pages[child]);
      pages := pages[innerId := pages[child]];
      freePages := freePages + [child];
    }

    /** The page on top of the stack loses the child in whose place `key` lies. If a single key is left in it,
        it may merge with a neighbour, and then a page is missing below the next page of the stack. */
    method CloseOne(key: ByteString, stack: seq<nat>, ghost was: Pages, ghost g: Gap, ghost h: nat,
                    ghost slack: multiset<nat>,
                    ghost entries: seq<Entry>, ghost leaves: seq<nat>, ghost length: nat)
      returns (o: Round, ghost g2: Gap, ghost freed: seq<nat>)
      requires Gone(pages, g, h, slack) && KeyIn(g, key) && stack == Path(g.up) + [g.id] && root == stack[0]
      requires Holds(g, entries, leaves) && Kept(was, pages, leaves, root, length)
      modifies this
      ensures root == old(root) && freePages == old(freePages) + freed && Agree(old(pages), pages, slack)
      ensures o.Done? ==> Closed(slack + multiset(freed)) && Entries() == entries
      ensures o.Done? ==> (Chain(was, leaves) <==> Chained()) && (Back(was, leaves) ==> BackLinked())
      ensures o.Done? ==> (AllOf(was, length) ==> Uniform(length))
      ensures o.Done? ==> LeavesStay(was, leaves, pages, LeafIds(tree), root)
      ensures o.More? ==> Gone(pages, g2, h + 1, slack + multiset(freed)) && KeyIn(g2, o.key)
      ensures o.More? ==> |stack| > 1 && stack[..|stack| - 1] == Path(g2.up) + [g2.id]
      ensures o.More? ==> Holds(g2, entries, leaves) && Kept(was, pages, leaves, root, length)
      ensures o.Failed? ==> !AllOf(was, length)
      ensures old(GetsStuck(pages, stack, key))
              <==> o.Failed? || (o.More? && GetsStuck(pages, stack[..|stack| - 1], o.key))
    {
      hide Rank, Less, Matches, CtxMatches, CtxOk, Wf, Ids, CtxIds, Settled, Gone, Shrunk, InGap, GapOk, AllOf,
           LeavesKept, GapKeys;
      hide GetsStuck, UnderflowIs, Agree, LeavesStay;
      hide Linked, Chain, Back, InnerRemove, Holds, HoleLo, HoleHi, SameBelow, SameAround, Flat, LeafIds, Path, Kept,
           KeyIn;
      g2, freed := g, [];
      var innerId := stack[|stack| - 1];
      GoneGap(pages, g, h, slack, stack, key);
      Shrink(pages, g, h, slack, key);
      KeptShrink(was, pages, innerId, key, leaves, root, length);
      ghost var was0 := pages;
      RemovedSize(pages[innerId], key);
      if g.up.In? {
        AboveOther(pages, g, h, slack);
        PathTop(g.up, Path(g.up));
      }
      GapOutside(pages, g, h, slack, InnerRemove(pages[innerId], key));
      pages := pages[innerId := InnerRemove(pages[innerId], key)];
      KeptIs(was, pages, leaves, root, length);
      if |stack| == 1 || |was0[innerId].keys| != 2 {
        NotStuck(was0, stack, key);
      }
      if |pages[innerId].keys| > 1 || (|pages[innerId].keys| == 1 && |stack| == 1) {
        tree, height := FinishShrunk(pages, g, h, slack, stack, entries, leaves);
        StaysSame(was, leaves, pages, root);
        return Done, g, [];
      }
      if |pages[innerId].keys| == 0 {
        ghost var shrunk := pages;
        var x := TakeOver(innerId, was, g, h, slack, entries, leaves, length);
        AgreeThrough(was0, shrunk, pages, slack, slack);
        return Done, g, [x];
      }
      InGapInside(g, h, key);
      ghost var before := pages;
      ghost var t;
      var u;
      u, t, g2 := HandleUnderflow(key, stack, g, h, slack, length);
      AgreeThrough(was0, before, pages, slack, slack);
      KeptOn(was, before, pages, leaves, root, length);
      KeptIs(was, pages, leaves, root, length);
      StuckUp(was0, pages, stack, key, u.Stuck?, u.Merges?, if u.Merges? then u.free else 0);
      match u {
        case Stuck =>
          return Failed, g, [];
        case Shares =>
          tree, height := FinishShared(pages, g, t, h, slack, stack, entries, leaves);
          StaysSame(was, leaves, pages, root);
          return Done, g, [];
        case Merges(free) =>
          HoldsAround(g, g2, entries, leaves, stack);
          return More(pages[free].keys[0]), g2, [free];
      }
    }

    /** A page is missing below the last page of the stack. */
    method CloseGap(key: ByteString, stack: seq<nat>, ghost g: Gap, ghost slack: multiset<nat>,
                    ghost entries: seq<Entry>,
                    ghost leaves: seq<nat>, ghost length: nat)
      returns (ok: bool, ghost freed: seq<nat>)
      requires Gone(pages, g, 0, slack) && KeyIn(g, key) && stack == Path(g.up) + [g.id] && root == stack[0]
      requires Holds(g, entries, leaves) && Linked(pages, leaves, root)
      modifies this
      ensures root == old(root) && freePages == old(freePages) + freed && Agree(old(pages), pages, slack)
      ensures ok ==> Closed(slack + multiset(freed)) && Entries() == entries
      ensures ok ==> LeavesStay(old(pages), leaves, pages, LeafIds(tree), root)
      ensures ok ==> (old(Chain(pages, leaves)) <==> Chained())
      ensures ok && old(Back(pages, leaves)) ==> BackLinked()
      ensures old(AllOf(pages, length)) ==> ok && AllOf(pages, length)
      ensures ok <==> !old(GetsStuck(pages, stack, key))
    {
      hide GetsStuck, Agree, LeavesStay;
      hide Gone, AllOf, Linked, Chain, Back, Holds, Path, Kept, KeyIn, Matches, Wf, Ids, Flat, LeafIds;
      AgreeSame(pages, slack);
      KeptIs(pages, pages, leaves, root, length);
      ghost var stuck := GetsStuck(pages, stack, key);
      var key, stack := key, stack;
      ghost var gg, h, sl := g, 0, slack;
      freed := [];
      while true
        invariant Gone(pages, gg, h, sl) && KeyIn(gg, key) && stack == Path(gg.up) + [gg.id]
        invariant root == old(root) == stack[0] && Holds(gg, entries, leaves)
        invariant Kept(old(pages), pages, leaves, root, length)
        invariant freePages == old(freePages) + freed && sl == slack + multiset(freed)
        invariant (stuck <==> GetsStuck(pages, stack, key)) && Agree(old(pages), pages, slack)
        decreases |stack|
      {
        ghost var g2, more, before := g, [], pages;
        var o;
        o, g2, more := CloseOne(key, stack, old(pages), gg, h, sl, entries, leaves, length);
        AgreeThrough(old(pages), before, pages, slack, sl);
        FreedMore(slack, freed, more);
        gg, h, sl, freed := g2, h + 1, sl + multiset(more), freed + more;
        match o {
          case Done =>
            return true, freed;
          case Failed =>
            return false, freed;
          case More(k) =>
            key, stack := k, stack[..|stack| - 1];
        }
      }
    }

    /** The neighbours of a leaf are linked to each other. */
    method UnlinkLeaf(id: nat)
      requires LeafLinked(pages, id)
      modifies this`pages
      ensures pages == Unlinked(old(pages), id)
    {
      var leaf := pages[id];
      if leaf.prev != INVALID {
        pages := pages[leaf.prev := pages[leaf.prev].(next := leaf.next)];
      }
      if leaf.next != INVALID {
        pages := pages[leaf.next := pages[leaf.next].(prev := leaf.prev)];
      }
    }

    /** Deletes the key. With keys of one length the room it needs is always there. */
    method Remove(key: ByteString) returns (r: RemoveResult)
      requires Valid()
      modifies this
      ensures root == old(root)
      ensures key !in old(Contents()) ==> r == NotFound && pages == old(pages) && freePages == old(freePages)
      ensures r == NotFound && old(Conserved()) ==> Conserved()
      ensures key in old(Contents()) ==> r == NoRoom || r == Removed(old(Contents())[key])
      ensures LeafOf(old(tree), key).Leaf?
      ensures r == NoRoom <==> old(key in Contents() && |LeafOf(tree, key).entries| == 1
                                   && GetsStuck(pages, PathTo(tree, key), key))
      ensures r != NoRoom ==> Valid() && Contents() == old(Contents()) - {key}
      ensures r.Removed? && old(Conserved()) ==> (Conserved() <==> Contents() != map[])
      ensures r != NoRoom ==> old(freePages) <= freePages
      ensures r.Removed? && Contents() == map[] ==> root in freePages
      ensures r != NoRoom && old(Chained() && BackLinked()) ==> Chained() && BackLinked()
      ensures LeafLinked(old(pages), LeafOf(old(tree), key).id)
      ensures r.Removed? ==> Agree(
          if |LeafOf(old(tree), key).entries| > 1 then old(pages) else Unlinked(old(pages), LeafOf(old(tree), key).id),
          pages, old(multiset(pages.Keys) - Ids(tree)))
      ensures r.Removed? && old(Chained() && BackLinked()) ==>
                Agree(old(pages), pages, old(multiset(pages.Keys) - Ids(tree)))
      ensures r.Removed? && old(Chained()) ==> (
          Chained() <==> old(|LeafOf(tree, key).entries| > 1 || LeftIs(pages, LeafIds(tree), LeafOf(tree, key).id)))
      ensures old(Uniform(|key|)) ==> r != NoRoom && Uniform(|key|)
      ensures r.Removed? ==> Erased(old(pages), old(tree), key, pages, tree)
      ensures r.Removed? && |LeafOf(old(tree), key).entries| > 1 ==> freePages == old(freePages)
    {
      hide ErasedAt;
      hide Matches, Wf, CtxOk, CtxMatches, Ids, Linked, ToMap, Sorted, Rank, Less, Flat, LeafIds, Plug, Chain, Before,
           After;
      hide LeavesBefore, LeavesAfter, CtxIds, Absent, LeafUsed, Back, AllOf, LeafRemove, Find, GetsStuck, PathTo;
      hide Agree, Unlinked, LeftIs;
      ghost var c, leaf;
      var id, stack;
      id, stack, c, leaf := FindLeaf(key);
      ghost var slack := multiset(pages.Keys) - Ids(tree);
      Opened(pages, c, leaf, slack, root);
      LookUp(c, leaf, key);
      var entries := pages[id].entries;
      var i := Find(entries, key);
      LeafOutside(pages, c, leaf, slack, root, entries);
      if i == |entries| {
        NothingToDrop(Entries(), key);
        return NotFound;
      }
      r := Removed(entries[i].value);
      OneEntry(entries, key);
      ghost var freed;
      var ok;
      ok, freed := RemoveEntry(id, stack, key, c, leaf, slack, |key|);
      if !ok {
        return NoRoom;
      }
      if |entries| == 1 && old(Chained() && BackLinked()) {
        OnlyInside(old(pages), c, leaf, slack, root);
        AgreeThrough(old(pages), Unlinked(old(pages), id), pages, slack, slack);
      }
      RemovedMap(c, entries, key);
      NotEmptyMap(Entries());
      Removal(pages, Ids(tree), old(pages), old(Ids(tree)), old(freePages), freed, Entries() == []);
    }

    /** The leaf loses its entry, and the tree the leaf if nothing else is in it. */
    method RemoveEntry(id: nat, stack: seq<nat>, key: ByteString, ghost c: Ctx, ghost leaf: Tree,
                       ghost slack: multiset<nat>,
                       ghost length: nat)
      returns (ok: bool, ghost freed: seq<nat>)
      requires Open(c, leaf, slack) && leaf.id == id && stack == Path(c) && HoleLo(c) <= Rank(key) < HoleHi(c)
      modifies this
      ensures root == old(root) && freePages == old(freePages) + freed
      ensures ok ==> Valid() && Entries() == Before(c) + LeafRemove(leaf.entries, key) + After(c)
      ensures ok ==> if Entries() == [] then freed == [id] == [root] && Closed(slack)
                     else Closed(slack + multiset(freed))
      ensures ok && old(Chain(pages, Strings(c, id)) && Back(pages, Strings(c, id))) ==> Chained() && BackLinked()
      ensures ok && old(Chain(pages, Strings(c, id))) ==> (
          Chained() <==> LeafRemove(leaf.entries, key) != [] || old(LeftIs(pages, Strings(c, id), id)))
      ensures LeafLinked(old(pages), id)
      ensures Agree(if LeafRemove(leaf.entries, key) != [] then old(pages) else Unlinked(old(pages), id), pages, slack)
      ensures old(AllOf(pages, length)) ==> ok && AllOf(pages, length)
      ensures ok <==> !(LeafRemove(leaf.entries, key) == [] && old(GetsStuck(pages, stack, key)))
      ensures LeafRemove(leaf.entries, key) != [] ==> freed == []
      ensures id in old(pages) && old(pages)[id].LeafPage?
      ensures ok ==> ErasedAt(old(pages), Strings(c, id), stack, id, LeafRemove(leaf.entries, key), pages,
                              LeafIds(tree), root)
    {
      hide Dropped;
      hide Matches, Wf, CtxOk, CtxMatches, Ids, Linked, Sorted, Rank, Less, Flat, LeafIds, Plug, Chain, Before, After;
      hide LeavesBefore, LeavesAfter, CtxIds, LeafUsed, Back, AllOf, LeafRemove, Path, OpenAt, Strings, GetsStuck;
      hide Agree, Unlinked, LeftIs;
      AgreeSame(pages, slack);
      OpenPage(pages, root, c, leaf, slack);
      ghost var es := LeafRemove(leaf.entries, key);
      LeafRemoveSorted(leaf.entries, key, HoleLo(c), HoleHi(c));
      LeafRemoveUsed(leaf.entries, key);
      Rewritten(pages, root, c, leaf, slack, es, length);
      RemovedOf(pages, id, key, length);
      StuckFrame(pages, pages[id := pages[id].(entries := LeafRemove(pages[id].entries, key))], stack, key);
      LeafOutside(pages, c, leaf, slack, root, es);
      pages := pages[id := pages[id].(entries := LeafRemove(pages[id].entries, key))];
      ghost var emptied := pages;
      if pages[id].entries != [] {
        tree, height := Whole(pages, root, c, Leaf(id, es), slack);
        return true, [];
      }
      ok, freed := DropLeaf(id, stack, key, c, slack, length);
      AgreeThrough(Unlinked(old(pages), id), Unlinked(emptied, id), pages, slack, slack);
      assert Before(c) + [] + After(c) == Before(c) + After(c);
    }

    /** An emptied leaf leaves the chain and the tree, and its page is free. The root leaf stays where it is,
        and is listed as free all the same. */
    method DropLeaf(id: nat, stack: seq<nat>, key: ByteString, ghost c: Ctx, ghost slack: multiset<nat>,
                    ghost length: nat)
      returns (ok: bool, ghost freed: seq<nat>)
      requires Open(c, Leaf(id, []), slack) && stack == Path(c) && HoleLo(c) <= Rank(key) < HoleHi(c)
      modifies this
      ensures root == old(root) && freePages == old(freePages) + freed
      ensures ok ==> Valid() && Entries() == Before(c) + After(c)
      ensures ok ==> if Entries() == [] then freed == [id] == [root] && Closed(slack)
                     else Closed(slack + multiset(freed))
      ensures ok && old(Chain(pages, Strings(c, id)) && Back(pages, Strings(c, id))) ==> Chained() && BackLinked()
      ensures ok && old(Chain(pages, Strings(c, id))) ==> (Chained() <==> old(LeftIs(pages, Strings(c, id), id)))
      ensures LeafLinked(old(pages), id) && Agree(Unlinked(old(pages), id), pages, slack)
      ensures old(AllOf(pages, length)) ==> ok && AllOf(pages, length)
      ensures ok <==> !old(GetsStuck(pages, stack, key))
      ensures ok ==> Dropped(old(pages), Strings(c, id), stack, id, pages, LeafIds(tree), root)
    {
      hide LeavesStay, Dropped;
      hide Matches, Wf, CtxOk, CtxMatches, Ids, Linked, Rank, Less, Flat, LeafIds, Chain, Before, After;
      hide LeavesBefore, LeavesAfter, CtxIds, Back, AllOf, Unlinked, Gone, Holds, KeyIn, LeafLinked, GetsStuck;
      hide Valid, Closed, Chained, BackLinked, Agree, OpenAt, Strings, Path, LeafUsed, Sorted, LeftIs, SameBut, Plug;
      ghost var leaves := LeavesBefore(c) + LeavesAfter(c);
      DropFacts(pages, root, c, id, slack);
      ghost var was := pages;
      UnlinkLeaf(id);
      SameOf(was, pages, length);
      StuckSame(was, pages, stack, key);
      NothingStuck(was, key);
      freePages := freePages + [id];
      AgreeSame(pages, slack);
      ghost var unlinked := pages;
      if stack == [] {
        tree, height := Leaf(id, []), 0;
        RootEmptied(was, id, slack);
        DroppedRoot(was, id);
        return true, [id];
      }
      ghost var g := OpenGap(pages, c, id, slack, key);
      SomethingLeft(c);
      ok, freed := CloseGap(key, stack, g, slack + multiset{id}, Before(c) + After(c), leaves, length);
      AgreeThrough(unlinked, unlinked, pages, slack, slack + multiset{id});
      FreedFirst(slack, id, freed);
      if ok {
        DroppedLeaf(was, c, id, stack, pages, LeafIds(tree), root);
      }
      freed := [id] + freed;
      ClosedIs(slack + multiset(freed));
    }

    lemma ClosedIs(slack: multiset<nat>)
      ensures Closed(slack) ==> Valid()
    {
    }

    lemma RootEmptied(was: Pages, id: nat, slack: multiset<nat>)
      requires root == id && tree == Leaf(id, []) && height == 0 && multiset{id} + slack == multiset(pages.Keys)
      requires id in pages && pages[id].LeafPage? && pages[id].entries == [] && Linked(pages, [id], id)
      requires LeafLinked(was, id) && pages == Unlinked(was, id) && Linked(was, [id], id)
      ensures Closed(slack) && Valid() && Entries() == []
      ensures Chain(was, [id]) && Back(was, [id]) ==> Chained() && BackLinked()
      ensures Chain(was, [id]) ==> Chained() && LeftIs(was, [id], id)
    {
      hide Linked, Chain, Back, Unlinked, LeafLinked, Matches, Wf;
      EmptyRoot(was, pages, id, slack);
    }

    // ---------------------------------------------------------------- cursors

    /** The cursor stands on entry number `n`. */
    ghost predicate IsAt(cursor: Cursor, n: nat)
      reads this
    {
      cursor.At? && LeafAt(pages, LeafIds(tree), cursor.leaf, cursor.index, n)
    }

    /** How many entries are below `key`. */
    ghost function Position(key: ByteString): (n: nat)
      requires Valid()
      reads this
      ensures n <= |Entries()|
    {
      LowerBound(KeysOf(Entries()), key)
    }

    /** The first entry not below `key`, if it is in the leaf in whose range `key` falls. Only when all entries of
        that leaf are below `key` there is no cursor. A key that is in the tree is always found. */
    method Begin(key: ByteString) returns (cursor: Cursor)
      requires Valid()
      ensures LeafOf(tree, key).Leaf? && LeafOf(tree, key).id in LeafIds(tree)
      ensures cursor.At? ==> IsAt(cursor, Position(key)) && Position(key) < |Entries()|
      ensures cursor.At? ==> cursor.leaf == LeafOf(tree, key).id
      ensures cursor.End? <==> forall e | e in LeafOf(tree, key).entries :: Less(e.key, key)
      ensures cursor.End? ==> LeafEnd(pages, LeafIds(tree), Position(key))
      ensures key in Contents() ==> cursor.At?
      ensures forall j | 0 <= j < |Entries()| :: Less(Entries()[j].key, key) <==> j < Position(key)
    {
      hide Matches, Wf, CtxOk, CtxMatches, Ids, Linked, LowerBound, Rank, Less, Sorted, Before, After, LeavesBefore,
           LeavesAfter;
      hide ToMap, Find;
      ghost var c, leaf;
      var id, stack;
      id, stack, c, leaf := FindLeaf(key);
      SettledFacts(pages, c, leaf, multiset(pages.Keys) - Ids(tree));
      var entries := pages[id].entries;
      var i := LowerBound(KeysOf(entries), key);
      Splits(c, leaf, key);
      PositionIs(Entries(), key, |Before(c)| + i);
      AllBelowIs(entries, key, HoleLo(c), HoleHi(c));
      LookUp(c, leaf, key);
      FoundBelow(entries, key, HoleLo(c), HoleHi(c));
      SettledFirst(pages, c, leaf, multiset(pages.Keys) - Ids(tree));
      cursor := if i == |entries| then End else At(id, i);
      HoleLeaf(pages, c, leaf, i);
    }

    /** On a tree whose leaves are strung together the next entry follows, to the last one. */
    method Next(cursor: Cursor, ghost n: nat) returns (r: Cursor)
      requires Valid() && Chained() && IsAt(cursor, n)
      ensures n < |Entries()|
      ensures if n + 1 < |Entries()| then IsAt(r, n + 1) else r == End
    {
      hide Matches, Wf, Ids, Linked, Chain, LeafAt, LeafIds;
      FlatIs(pages, tree);
      LinkedHas(pages, LeafIds(tree), root);
      LeavesFull(pages, tree, height, 0.0, 1.0);
      NextOf(pages, LeafIds(tree), cursor.leaf, cursor.index, n);
      var leaf := pages[cursor.leaf];
      if cursor.index + 1 < |leaf.entries| {
        return At(cursor.leaf, cursor.index + 1);
      }
      r := if leaf.next == INVALID then End else At(leaf.next, 0);
    }

    /** Walking from the beginning visits every entry once, in ascending order. */
    method VisitAll() returns (visited: seq<Entry>)
      requires Valid() && Chained()
      ensures visited == Entries() && ToMap(visited) == Contents()
      ensures forall i, j | 0 <= i < j < |visited| :: Less(visited[i].key, visited[j].key)
    {
      hide Matches, Wf, Ids, Linked, Chain, Less, Rank;
      visited := [];
      FlatOrder(tree, height);
      ghost var n;
      var cursor;
      cursor := Begin([]);
      n := Position([]);
      if n > 0 {
        NothingBelow(Entries()[0].key);
      }
      if cursor == End {
        LeafEndZero(pages, tree, height);
      }
      while cursor != End
        invariant n <= |Entries()| && visited == Entries()[..n]
        invariant if cursor == End then n == |Entries()| else IsAt(cursor, n)
        decreases |Entries()| - n
      {
        EntryAt(pages, tree, cursor.leaf, cursor.index, n);
        visited := visited + [pages[cursor.leaf].entries[cursor.index]];
        cursor := Next(cursor, n);
        n := n + 1;
      }
    }
  }

  /** Entry number `n` is followed in its leaf, or else at the beginning of the leaf that comes next in the chain. */
  lemma NextOf(pages: Pages, leaves: seq<nat>, id: nat, index: nat, n: nat)
    requires LeafAt(pages, leaves, id, index, n) && Chain(pages, leaves) && INVALID !in pages
    requires |leaves| > 1 ==> AllFull(pages, leaves)
    ensures id in pages && pages[id].LeafPage?
    ensures var leaf, all := pages[id], |Concat(pages, leaves)|;
      if index + 1 < |leaf.entries| then n + 1 < all && LeafAt(pages, leaves, id, index + 1, n + 1)
      else if leaf.next == INVALID then n + 1 == all
      else n + 1 < all && LeafAt(pages, leaves, leaf.next, 0, n + 1)
  {
    hide Chain, Concat;
    var i :| 0 <= i < |leaves| && leaves[i] == id && n == |Concat(pages, leaves[..i])| + index;
    ChainAt(pages, leaves, i);
    StepOn(pages, leaves, i);
    if i + 1 < |leaves| {
      ChainAt(pages, leaves, i + 1);
      StepOn(pages, leaves, i + 1);
    }
  }

  lemma OpenOnce(pages: Pages, root: nat, c: Ctx, leaf: Tree, slack: multiset<nat>)
    requires OpenAt(pages, root, c, leaf, slack)
    ensures NoRepeat(Strings(c, leaf.id)) && leaf.Leaf? && leaf.id in pages && pages[leaf.id].LeafPage?
  {
    hide CtxOk, CtxMatches, Sorted, Rank, Linked, LeafUsed, LeavesBefore, LeavesAfter, CtxIds, NoRepeat;
    OneId(leaf);
    LeavesOnce(pages, c, leaf.id, slack);
  }

  /** What a new key does to pages on which its leaf had other entries meanwhile. */
  lemma PutWritten(was: Pages, c: Ctx, leaf: Tree, slack: multiset<nat>, root: nat, mid: Pages, es: seq<Entry>,
                   key: ByteString, value: ByteString, now: Pages, leaves2: seq<nat>)
    requires OpenAt(was, root, c, leaf, slack) && leaf.id in was && was[leaf.id].LeafPage?
    requires mid == was || mid == was[leaf.id := was[leaf.id].(entries := es)]
    requires LeafPut(mid, Strings(c, leaf.id), |LeavesBefore(c)|, Path(c), es, key, value, now, leaves2)
    ensures PutAt(was, Strings(c, leaf.id), leaf.id, Path(c), es, key, value, now, leaves2)
  {
    hide LeafHasSpace, LeafInsert, LeafSplit, LeafSplitAt, CtxOk, CtxMatches, Sorted, Rank, Linked, LeafUsed, Spread,
         CtxIds, Path, LeavesBefore, LeavesAfter;
    var leaves, k := Strings(c, leaf.id), |LeavesBefore(c)|;
    assert leaves[k] == leaf.id;
    OffPath(was, c, leaf, slack);
    if !LeafHasSpace(es, key, value) {
      SpreadFrame(was, mid, Path(c), LeafSplit(es, key, value).1[0].key);
      assert mid.Keys == was.Keys;
      OnlyOnNext(was, was, Path(c) + [leaf.id], leaf.id, mid[leaf.id]);
      OnlyOnThrough(was, mid, now, Path(c) + [leaf.id], Path(c) + [leaf.id]);
      OpenOnce(was, root, c, leaf, slack);
      LinkedAll(was, leaves, root);
      SplitFrom(was, mid, leaves, k, now, leaves2, LeafSplit(es, key, value).0, LeafSplit(es, key, value).1);
    }
    assert LeafPut(was, leaves, k, Path(c), es, key, value, now, leaves2);
  }

  /** A new key keeps to its leaf and the pages on the way to it. All links to the left stay right if and only if the
      leaf did not split, or no leaf is behind it. */
  lemma PutKeeps(was: Pages, leaves: seq<nat>, id: nat, path: seq<nat>, entries: seq<Entry>, key: ByteString,
                 value: ByteString, now: Pages, leaves2: seq<nat>)
    requires PutAt(was, leaves, id, path, entries, key, value, now, leaves2) && NoRepeat(leaves)
    ensures OnlyOn(was, now, path + [id])
    ensures Back(was, leaves) ==> (Back(now, leaves2) <==> |leaves2| == |leaves| || IsLast(leaves, id))
  {
    hide LeafHasSpace, LeafInsert, LeafSplit, LeafSplitAt, Spread, SplitInto, Back, OnlyOn;
    var k :| 0 <= k < |leaves| && leaves[k] == id && LeafPut(was, leaves, k, path, entries, key, value, now, leaves2);
    assert (path + [id])[|path|] == id;
    if LeafHasSpace(entries, key, value) {
      OnlyOnSame(was, path + [id]);
      OnlyOnNext(was, was, path + [id], id, now[id]);
      EntriesKeepBack(was, id, LeafInsert(entries, key, value), leaves);
    } else {
      var (a, b) := LeafSplit(entries, key, value);
      SplitSize(was, leaves, k, now, leaves2, a, b);
      if Back(was, leaves) {
        SplitKeepsBack(was, leaves, k, now, leaves2, a, b);
      }
    }
  }

  lemma WrittenPut(was: Pages, t: Tree, key: ByteString, value: ByteString, r: InsertResult, now: Pages, t2: Tree)
    requires LeafOf(t, key).Leaf? && LeafOf(t, key).id in was && was[LeafOf(t, key).id].LeafPage?
    requires r.Inserted? || (r.Replaced? && |r.before| != |value|)
    requires var es := if r.Inserted? then LeafOf(t, key).entries else LeafRemove(LeafOf(t, key).entries, key);
      PutAt(was, LeafIds(t), LeafOf(t, key).id, PathTo(t, key), es, key, value, now, LeafIds(t2))
    requires NoRepeat(LeafIds(t))
    ensures Written(was, t, key, value, r, now, t2)
    ensures OnlyOn(was, now, PathTo(t, key) + [LeafOf(t, key).id])
    ensures Back(was, LeafIds(t)) ==> (
        Back(now, LeafIds(t2)) <==> |LeafIds(t2)| == |LeafIds(t)| || IsLast(LeafIds(t), LeafOf(t, key).id))
  {
    hide PutAt, LeafRemove, LeafIds, LeafOf, PathTo, Back, NoRepeat, OnlyOn;
    var es := if r.Inserted? then LeafOf(t, key).entries else LeafRemove(LeafOf(t, key).entries, key);
    PutKeeps(was, LeafIds(t), LeafOf(t, key).id, PathTo(t, key), es, key, value, now, LeafIds(t2));
  }

  lemma WrittenSame(was: Pages, t: Tree, key: ByteString, value: ByteString, r: InsertResult)
    requires LeafOf(t, key).Leaf? && LeafOf(t, key).id in was && was[LeafOf(t, key).id].LeafPage?
    requires r.Unchanged? || (r.Replaced? && r.before == value)
    ensures Written(was, t, key, value, r, was, t)
    ensures OnlyOn(was, was, PathTo(t, key) + [LeafOf(t, key).id])
  {
    hide LeafIds, LeafOf, PathTo;
  }

  lemma WrittenOver(was: Pages, t: Tree, key: ByteString, value: ByteString, r: InsertResult, t2: Tree)
    requires LeafOf(t, key).Leaf? && LeafOf(t, key).id in was && was[LeafOf(t, key).id].LeafPage?
    requires was[LeafOf(t, key).id].entries == LeafOf(t, key).entries
    requires r.Replaced? && r.before != value && |r.before| == |value| && LeafIds(t2) == LeafIds(t)
    requires Find(LeafOf(t, key).entries, key) < |LeafOf(t, key).entries|
    ensures var leaf := LeafOf(t, key);
      var now := was[leaf.id := was[leaf.id].(entries := leaf.entries[Find(leaf.entries, key) := Entry(key, value)])];
      && Written(was, t, key, value, r, now, t2) && OnlyOn(was, now, PathTo(t, key) + [leaf.id])
      && (Back(was, LeafIds(t)) ==> Back(now, LeafIds(t2)))
  {
    hide LeafIds, LeafOf, PathTo, Find, Back;
    var leaf := LeafOf(t, key);
    assert (PathTo(t, key) + [leaf.id])[|PathTo(t, key)|] == leaf.id;
    EntriesKeepBack(was, leaf.id, leaf.entries[Find(leaf.entries, key) := Entry(key, value)], LeafIds(t));
  }

  /** A key above all that are in the tree belongs in the last leaf. */
  lemma {:induction false} LastFor(t: Tree, h: nat, lo: real, hi: real, root: bool, key: ByteString)
    requires Wf(t, h, lo, hi, root) && lo <= Rank(key) < hi
    requires forall e | e in Flat(t) :: Rank(e.key) < Rank(key)
    ensures IsLast(LeafIds(t), LeafOf(t, key).id)
    decreases t
  {
    hide Rank, Less, LeafUsed, InnerUsed, Sorted, SortedKeys, ChildAt;
    if t.Node? {
      var j, last := ChildAt(t.keys, key), |t.keys|;
      ChildBounds(t.keys, lo, hi, key);
      LastKid(t.kids);
      FlatSorted(t.kids[last], h - 1, Low(t.keys, lo, last), hi, false);
      NonEmptyTree(t.kids[last], h - 1, Low(t.keys, lo, last), hi);
      InRange(Flat(t.kids[last]), 0, Low(t.keys, lo, last), hi);
      assert Flat(t.kids[last])[0] in Flat(t);
      assert j == last by {
        if j < last {
          KeysRise(t.keys, lo, hi, j, last - 1);
        }
      }
      LastFor(t.kids[last], h - 1, Low(t.keys, lo, last), hi, false, key);
    }
  }

  lemma {:induction false} LastKid(kids: seq<Tree>)
    requires kids != []
    ensures var n := |kids| - 1;
      && FlatAll(kids) == FlatAll(kids[..n]) + Flat(kids[n])
      && LeafIdsAll(kids) == LeafIdsAll(kids[..n]) + LeafIds(kids[n])
  {
    hide FlatAll, LeafIdsAll, Flat, LeafIds, IdsAll;
    var n := |kids| - 1;
    assert kids == kids[..n] + [kids[n]];
    AllAppend(kids[..n], [kids[n]]);
    AllOne(kids[n]);
  }

  lemma KeysRise(keys: seq<ByteString>, lo: real, hi: real, i: nat, j: nat)
    requires SortedKeys(keys, lo, hi) && i <= j < |keys|
    ensures Rank(keys[i]) <= Rank(keys[j])
  {
  }

  lemma RoomPut(pages: Pages, c: Ctx, leaf: Tree, path: seq<nat>, key: ByteString, value: ByteString)
    requires leaf.Leaf? && leaf.id in pages && pages[leaf.id].LeafPage? && LeafHasSpace(leaf.entries, key, value)
    ensures var leaves, page := Strings(c, leaf.id), pages[leaf.id].(entries := LeafInsert(leaf.entries, key, value));
      LeafPut(pages, leaves, |LeavesBefore(c)|, path, leaf.entries, key, value, pages[leaf.id := page], leaves)
  {
    hide LeafHasSpace, LeafInsert;
    assert Strings(c, leaf.id)[|LeavesBefore(c)|] == leaf.id;
  }

  lemma StringAt(c: Ctx, id: nat)
    ensures Strings(c, id) == LeavesBefore(c) + [id] + LeavesAfter(c)
    ensures c.Top? ==> Strings(c, id) == [id] && LeavesBefore(c) == [] && Path(c) == []
    ensures c.In? ==> Path(c) != []
  {
  }

  lemma LinkedAll(pages: Pages, leaves: seq<nat>, root: nat)
    requires Linked(pages, leaves, root)
    ensures forall i | 0 <= i < |leaves| :: leaves[i] in pages && pages[leaves[i]].LeafPage?
  {
    forall i | 0 <= i < |leaves| ensures leaves[i] in pages && pages[leaves[i]].LeafPage? {
      assert LeafLinked(pages, leaves[i]);
    }
  }

  /** A leaf is not on the way to it. */
  lemma OffPath(pages: Pages, c: Ctx, leaf: Tree, slack: multiset<nat>)
    requires leaf.Leaf? && CtxIds(c) + Ids(leaf) + slack == multiset(pages.Keys)
    ensures forall i | 0 <= i < |Path(c)| :: Path(c)[i] in pages && Path(c)[i] != leaf.id
  {
    hide CtxIds, Path;
    PathIn(c);
    Once(pages, CtxIds(c), Ids(leaf), slack);
    forall i | 0 <= i < |Path(c)| ensures Path(c)[i] in pages && Path(c)[i] != leaf.id {
      assert Path(c)[i] in multiset(Path(c));
      assert leaf.id in Ids(leaf);
    }
  }

  /** The leaf has become two, and the key between them has gone up. */
  lemma SplitPut(was: Pages, now: Pages, root: nat, c: Ctx, leaf: Tree, slack: multiset<nat>, key: ByteString,
                 value: ByteString, right: nat, leaves2: seq<nat>)
    requires OpenAt(was, root, c, leaf, slack) && right !in was && !LeafHasSpace(leaf.entries, key, value)
    requires 0 < LeafSplitAt(leaf.entries) && LeafSplit(leaf.entries, key, value).1 != []
    requires leaf.id in was && was[leaf.id].LeafPage?
    requires var (a, b) := LeafSplit(leaf.entries, key, value);
      var mid := SplitPages(was, leaf.id, right, a, b);
      && OnlyOn(mid, now, Path(c) + [leaf.id, right]) && |now| == |mid| + Spread(mid, Path(c), b[0].key)
      && (Path(c) != [] ==> LeavesKept(mid, now) && leaves2 == LeavesBefore(c) + [leaf.id, right] + LeavesAfter(c))
      && (Path(c) == [] ==> RootMoved(mid, leaf.id, right, now, leaves2))
    ensures LeafPut(was, Strings(c, leaf.id), |LeavesBefore(c)|, Path(c), leaf.entries, key, value, now, leaves2)
  {
    hide LeafHasSpace, LeafSplit, LeafSplitAt, CtxOk, CtxMatches, Sorted, Rank, Linked, LeafUsed, Spread, OnlyOn,
         LeavesKept, RootMoved, SplitInto, Strings, LeavesBefore, LeavesAfter, CtxIds, Path, NoRepeat;
    var (a, b) := LeafSplit(leaf.entries, key, value);
    var mid, id, leaves := SplitPages(was, leaf.id, right, a, b), leaf.id, Strings(c, leaf.id);
    StringAt(c, id);
    OneId(leaf);
    LeavesOnce(was, c, id, slack);
    LinkedAll(was, leaves, root);
    OffPath(was, c, leaf, slack);
    SpreadFrame(was, mid, Path(c), b[0].key);
    assert mid.Keys == was.Keys + {right};
    OnlyOnSplit(was, mid, now, Path(c), id, right);
    if Path(c) != [] {
      SplitIntoNode(was, LeavesBefore(c), id, LeavesAfter(c), now, right, a, b);
    } else {
      SplitIntoRoot(was, id, now, right, leaves2, a, b);
    }
  }

  lemma MovedRoot(was: Pages, left: nat, right: nat, id: nat, page: NodePage)
    requires left in was && right in was && left != right && id !in was && was[left].LeafPage? && was[right].LeafPage?
    ensures var now := was[id := was[left]][right := was[right].(prev := id)][left := page];
      && OnlyOn(was, now, [left, right]) && |now| == |was| + 1 && RootMoved(was, left, right, now, [id] + [right])
  {
    var now := was[id := was[left]][right := was[right].(prev := id)][left := page];
    assert now.Keys == was.Keys + {id};
  }

  lemma MovedNode(was: Pages, left: nat, right: nat, id: nat, page: NodePage)
    requires left in was && id !in was && was[left].InnerPage?
    ensures var now := was[id := was[left]][left := page];
      && OnlyOn(was, now, [left, right]) && |now| == |was| + 1 && LeavesKept(was, now)
  {
    var now := was[id := was[left]][left := page];
    assert now.Keys == was.Keys + {id};
  }

  /** The key `key0` has gone up the path `way` as far as `stack`, where `left` and `right` wait for the key `key`. */
  ghost predicate Risen(was: Pages, way: seq<nat>, ids: seq<nat>, key0: ByteString, pages: Pages, stack: seq<nat>,
                        key: ByteString, left: nat, right: nat) {
    && |stack| <= |way| && stack == way[..|stack|] && OnlyOn(was, pages, way + ids) && LeavesKept(was, pages)
    && |pages| + Spread(pages, stack, key) == |was| + Spread(was, way, key0)
    && if |stack| == |way| then ids == [left, right] else left == way[|stack|] && right !in was
  }

  /** What is on its way up: the pages as they were, the way to go, the two leaves, the key between them, and all
      entries and leaves of the tree. */
  datatype Climb = Climb(was: Pages, way: seq<nat>, ids: seq<nat>, key: ByteString, entries: seq<Entry>,
                         leaves: seq<nat>)

  /** A page has become two, `left` and `right`, and the page above them does not know yet. */
  ghost predicate Climbing(up: Climb, pages: Pages, root: nat, stack: seq<nat>, key: ByteString, left: nat, right: nat,
                           c: Ctx, l: Tree, r: Tree, h: nat, slack: multiset<nat>) {
    && Rising(pages, c, l, r, key, h, slack) && l.id == left && r.id == right && stack == Path(c)
    && root == Plug(c, l).id && Carries(c, l, r, up.entries, up.leaves) && INVALID !in pages
    && (Chain(up.was, up.leaves) ==> Chain(pages, up.leaves))
    && (AllOf(up.was, |up.key|) ==> AllOf(pages, |up.key|) && |key| == |up.key|)
    && (up.way != [] ==> Linked(pages, up.leaves, root) && (stack == [] ==> l.Node?))
    && Risen(up.was, up.way, up.ids, up.key, pages, stack, key, left, right)
  }

  lemma ClimbFirst(up: Climb, root: nat, c: Ctx, l: Tree, r: Tree, slack: multiset<nat>)
    requires Rising(up.was, c, l, r, up.key, 0, slack) && Strung(up.was, c, l, r, root) && root == Plug(c, l).id
    requires up.way == Path(c) && up.ids == [l.id, r.id] && up.entries == Before(c) + Flat(l) + Flat(r) + After(c)
    requires up.leaves == LeavesBefore(c) + LeafIds(l) + LeafIds(r) + LeavesAfter(c)
    ensures Climbing(up, up.was, root, up.way, up.key, l.id, r.id, c, l, r, 0, slack) && l.Leaf? && r.Leaf?
  {
    hide Matches, Wf, CtxOk, CtxMatches, Linked, Rank, Less, LeafIds, Flat, Plug, Chain, Before, After, Rising, Risen;
    hide LeavesBefore, LeavesAfter, CtxIds, Ids, Strung, AllOf;
    RisenFirst(up.was, up.way, l.id, r.id, up.key);
    StrungUp(up.was, c, l, r, root);
    JoinIds(LeavesBefore(c), l, r, LeavesAfter(c), up.leaves);
  }

  /** The page on top of the stack is an inner page of the tree. */
  lemma ClimbTop(up: Climb, pages: Pages, root: nat, stack: seq<nat>, key: ByteString, left: nat, right: nat, c: Ctx,
                 l: Tree, r: Tree, h: nat, slack: multiset<nat>)
    requires Climbing(up, pages, root, stack, key, left, right, c, l, r, h, slack) && stack != []
    ensures c.In? && stack[|stack| - 1] == c.id && stack[..|stack| - 1] == Path(c.up) && up.way != []
    ensures c.id in pages && GoodInner(pages[c.id]) && CtxOk(c, h) && |c.left| + |c.right| == |c.keys|
    ensures pages[c.id].keys == c.keys
    ensures forall t: Tree | t.id == c.id :: Plug(c.up, t).id == root
  {
    hide Matches, Wf, CtxOk, CtxMatches, Linked, Rank, Less, LeafIds, Flat, Plug, Chain, Before, After;
    hide LeavesBefore, LeavesAfter, CtxIds, Ids, AllOf, InnerHasSpace, InnerSplitAt, Carries, Spread;
    PathTop(c, stack);
    PlugUp(c, l);
    CtxKid(pages, c, left);
    CtxSize(c, h, l, r, key);
  }

  /** The page on top of the stack has room. */
  lemma ClimbEnds(up: Climb, pages: Pages, root: nat, stack: seq<nat>, key: ByteString, left: nat, right: nat, c: Ctx,
                  l: Tree, r: Tree, h: nat, slack: multiset<nat>)
    returns (all: Tree, height: nat)
    requires Climbing(up, pages, root, stack, key, left, right, c, l, r, h, slack) && stack != []
    requires var id := stack[|stack| - 1]; id in pages && GoodInner(pages[id]) && InnerHasSpace(pages[id].keys, key)
    ensures var id := stack[|stack| - 1];
      var now := pages[id := InnerInsert(pages[id], key, right)];
      && root == all.id && Matches(now, all) && Wf(all, height, 0.0, 1.0, true) && Linked(now, LeafIds(all), root)
      && Ids(all) + slack == multiset(now.Keys) && Flat(all) == up.entries && LeafIds(all) == up.leaves
      && (Chain(up.was, up.leaves) ==> Chain(now, up.leaves))
      && (AllOf(up.was, |up.key|) ==> AllOf(now, |up.key|))
      && OnlyOn(up.was, now, up.way + up.ids) && LeavesKept(up.was, now)
      && |now| == |up.was| + Spread(up.was, up.way, up.key)
  {
    hide Matches, Wf, CtxOk, CtxMatches, Linked, Rank, Less, LeafIds, Flat, Plug, Chain, Before, After, Risen, Rising;
    hide LeavesBefore, LeavesAfter, CtxIds, Ids, AllOf, InnerHasSpace, InnerInsert, Carries, Spread, OnlyOn,
         LeavesKept, WideKeys, WideKids, Path;
    ClimbTop(up, pages, root, stack, key, left, right, c, l, r, h, slack);
    Absorb(pages, c, l, r, key, h, slack);
    var t := Node(c.id, WideKeys(c, key), WideKids(c, l, r));
    WideNode(c, l, r, key, up.entries, up.leaves);
    OneUp(up.was, up.way, up.ids, up.key, pages, stack, key, left, right);
    InsertOf(pages, c.id, key, right, |up.key|);
    var now := pages[c.id := InnerInsert(pages[c.id], key, right)];
    InnerKeepsLinks(pages, now, up.leaves, root);
    SettledTree(now, c.up, t, h + 1, slack);
    all, height := Plug(c.up, t), h + 1 + Depth(c.up);
  }

  /** The page `id` becomes two, `id` and `more`, and the page above them does not know yet. */
  ghost predicate ClimbsOn(up: Climb, pages: Pages, root: nat, rest: seq<nat>, id: nat, key: ByteString, right: nat,
                           c: Ctx, l: Tree, r: Tree, h: nat, slack: multiset<nat>, more: nat) {
    && id in pages && GoodInner(pages[id]) && InnerSplitAt(pages[id].keys) < |pages[id].keys|
    && var (a, mid, b) := InnerSplit(pages[id], key, right);
      Climbing(up, pages[id := a][more := b], root, rest, mid, id, more, c, l, r, h, slack)
  }

  /** The page on top of the stack has no room and becomes two. */
  lemma ClimbOn(up: Climb, pages: Pages, root: nat, stack: seq<nat>, key: ByteString, left: nat, right: nat, c: Ctx,
                l: Tree, r: Tree, h: nat, slack: multiset<nat>, more: nat)
    returns (ll: Tree, rr: Tree)
    requires Climbing(up, pages, root, stack, key, left, right, c, l, r, h, slack) && stack != []
    requires var id := stack[|stack| - 1]; id in pages && GoodInner(pages[id]) && !InnerHasSpace(pages[id].keys, key)
    requires more !in pages && more != INVALID
    ensures c.In?
    ensures ClimbsOn(up, pages, root, stack[..|stack| - 1], stack[|stack| - 1], key, right, c.up, ll, rr, h + 1, slack,
                     more)
  {
    hide Matches, Wf, CtxOk, CtxMatches, Linked, Rank, Less, LeafIds, Flat, Plug, Chain, Before, After, Risen, Rising;
    hide LeavesBefore, LeavesAfter, CtxIds, Ids, AllOf, InnerHasSpace, InnerSplit, InnerSplitAt, Carries, Spread;
    hide WideKeys, WideKids, CutLeftTree, CutRightTree, CutAt, Path;
    ClimbTop(up, pages, root, stack, key, left, right, c, l, r, h, slack);
    SplitUp(pages, c, l, r, key, h, slack, more);
    CarriesUp(c, l, r, key, more, up.entries, up.leaves);
    SplitOf(pages, c.id, key, right, more, |up.key|);
    RisingIds(pages, c, l, r, key, h, slack);
    PathOnce(pages, c, l, r, slack, stack, more);
    TwoUp(up.was, up.way, up.ids, up.key, pages, stack, key, left, right, more);
    var (a, _, b) := InnerSplit(pages[c.id], key, right);
    InnerKeepsLinks(pages, pages[c.id := a][more := b], up.leaves, root);
    ll, rr := CutLeftTree(c, l, r, key), CutRightTree(c, l, r, key, more);
  }

  lemma RisingIds(pages: Pages, c: Ctx, l: Tree, r: Tree, key: ByteString, h: nat, slack: multiset<nat>)
    requires Rising(pages, c, l, r, key, h, slack)
    ensures CtxIds(c) + Ids(l) + Ids(r) + slack == multiset(pages.Keys)
  {
  }

  /** The two halves of the root wait for a new root. */
  lemma ClimbDone(up: Climb, pages: Pages, root: nat, stack: seq<nat>, key: ByteString, left: nat, right: nat, c: Ctx,
                  l: Tree, r: Tree, h: nat, slack: multiset<nat>)
    requires Climbing(up, pages, root, stack, key, left, right, c, l, r, h, slack) && stack == []
    ensures c == Top && Rising(pages, Top, l, r, key, h, slack) && l.id == left == root && r.id == right
    ensures up.entries == Flat(l) + Flat(r) && up.leaves == LeafIds(l) + LeafIds(r)
    ensures Chain(up.was, up.leaves) ==> Chain(pages, up.leaves)
    ensures AllOf(up.was, |up.key|) ==> AllOf(pages, |up.key|) && |key| == |up.key|
    ensures up.way != [] ==> Linked(pages, up.leaves, root) && l.Node?
    ensures Risen(up.was, up.way, up.ids, up.key, pages, [], key, left, right)
  {
    hide Matches, Wf, CtxOk, CtxMatches, Linked, Rank, Less, LeafIds, Flat, Plug, Chain, Before, After, Risen, Rising;
    hide LeavesBefore, LeavesAfter, CtxIds, Ids, AllOf;
    TopContents(c, l, r, up.entries, up.leaves);
  }

  lemma RisenFirst(pages: Pages, way: seq<nat>, left: nat, right: nat, key: ByteString)
    ensures Risen(pages, way, [left, right], key, pages, way, key, left, right)
  {
    hide Spread;
    OnlyOnSame(pages, way + [left, right]);
    assert way[..|way|] == way;
  }

  /** The root has grown. */
  lemma RisenTop(was: Pages, way: seq<nat>, ids: seq<nat>, key0: ByteString, pages: Pages, key: ByteString, left: nat,
                 right: nat, now: Pages)
    requires Risen(was, way, ids, key0, pages, [], key, left, right)
    requires OnlyOn(pages, now, [left, right]) && |now| == |pages| + 1
    ensures OnlyOn(was, now, way + ids) && |now| == |was| + Spread(was, way, key0)
    ensures LeavesKept(pages, now) ==> LeavesKept(was, now)
  {
    hide OnlyOn, Spread;
    SpreadTop(pages, key);
    forall id | id in [left, right] ensures id in way + ids || id !in was {
      if way == [] {
        assert way + ids == [left, right];
      } else if id == left {
        assert (way + ids)[0] == left;
      }
    }
    OnlyOnThrough(was, pages, now, way + ids, [left, right]);
  }

  lemma JoinIds(x: seq<nat>, l: Tree, r: Tree, y: seq<nat>, leaves: seq<nat>)
    requires l.Leaf? && r.Leaf? && leaves == x + LeafIds(l) + LeafIds(r) + y
    ensures leaves == x + [l.id, r.id] + y
  {
    assert x + [l.id] + [r.id] + y == x + [l.id, r.id] + y;
  }

  /** The key goes into the page on top of the stack. */
  lemma OneUp(was: Pages, way: seq<nat>, ids: seq<nat>, key0: ByteString, pages: Pages, stack: seq<nat>,
              key: ByteString, left: nat, right: nat)
    requires Risen(was, way, ids, key0, pages, stack, key, left, right) && stack != []
    requires var id := stack[|stack| - 1]; id in pages && GoodInner(pages[id]) && InnerHasSpace(pages[id].keys, key)
    ensures var id := stack[|stack| - 1];
      var now := pages[id := InnerInsert(pages[id], key, right)];
      OnlyOn(was, now, way + ids) && LeavesKept(was, now) && |now| == |was| + Spread(was, way, key0)
  {
    hide InnerHasSpace, InnerInsert, Spread;
    var id := stack[|stack| - 1];
    assert way[|stack| - 1] == id && (way + ids)[|stack| - 1] == id;
    var now := pages[id := InnerInsert(pages[id], key, right)];
    assert now.Keys == pages.Keys;
    SpreadRoom(pages, stack, key);
  }

  /** The page on top of the stack becomes two. */
  lemma TwoUp(was: Pages, way: seq<nat>, ids: seq<nat>, key0: ByteString, pages: Pages, stack: seq<nat>,
              key: ByteString, left: nat, right: nat, more: nat)
    requires Risen(was, way, ids, key0, pages, stack, key, left, right) && stack != [] && more !in pages
    requires var id := stack[|stack| - 1];
      && id in pages && GoodInner(pages[id]) && !InnerHasSpace(pages[id].keys, key)
      && InnerSplitAt(pages[id].keys) < |pages[id].keys|
    requires var rest, id := stack[..|stack| - 1], stack[|stack| - 1];
      forall i | 0 <= i < |rest| :: rest[i] in pages && rest[i] != id && rest[i] != more
    ensures var id := stack[|stack| - 1];
      var (a, mid, b) := InnerSplit(pages[id], key, right);
      Risen(was, way, ids, key0, pages[id := a][more := b], stack[..|stack| - 1], mid, id, more)
  {
    hide InnerHasSpace, InnerInsert, InnerSplitAt, InnerSplit, Spread;
    var id, rest := stack[|stack| - 1], stack[..|stack| - 1];
    assert way[|stack| - 1] == id && (way + ids)[|stack| - 1] == id;
    var (a, mid, b) := InnerSplit(pages[id], key, right);
    var now := pages[id := a][more := b];
    assert now.Keys == pages.Keys + {more};
    SpreadFull(pages, stack, key, right);
    SpreadFrame(pages, now, rest, mid);
  }

  lemma {:induction false} PathIn(c: Ctx)
    ensures multiset(Path(c)) <= CtxIds(c)
  {
    hide IdsAll;
    if c.In? {
      PathIn(c.up);
      assert multiset(Path(c)) == multiset(Path(c.up)) + multiset{c.id};
    }
  }

  /** No page is twice on the stack. */
  lemma PathOnce(pages: Pages, c: Ctx, l: Tree, r: Tree, slack: multiset<nat>, stack: seq<nat>, more: nat)
    requires CtxIds(c) + Ids(l) + Ids(r) + slack == multiset(pages.Keys) && stack == Path(c) && stack != []
    requires more !in pages
    ensures var rest, id := stack[..|stack| - 1], stack[|stack| - 1];
      forall i | 0 <= i < |rest| :: rest[i] in pages && rest[i] != id && rest[i] != more
  {
    hide CtxIds, Path;
    PathIn(c);
    SubsetOnce(pages, stack);
    forall i | 0 <= i < |stack| ensures stack[i] in pages {
      assert stack[i] in multiset(stack);
    }
  }

  lemma DropFacts(pages: Pages, root: nat, c: Ctx, id: nat, slack: multiset<nat>)
    requires OpenAt(pages, root, c, Leaf(id, []), slack)
    ensures id in pages && pages[id].LeafPage? && pages[id].entries == [] && LeafLinked(pages, id)
    ensures var pages2, leaves, rest := Unlinked(pages, id), Strings(c, id), LeavesBefore(c) + LeavesAfter(c);
      && SameBut(pages, pages2) && CtxMatches(pages2, c, id) && CtxOk(c, 0)
      && id in pages2 && pages2[id].LeafPage? && pages2[id].entries == []
      && CtxIds(c) + multiset{id} + slack == multiset(pages2.Keys) && (c.In? ==> |c.left| <= |c.keys|)
      && Linked(pages, leaves, root) && Linked(pages2, leaves, root) && Linked(pages2, rest, root)
      && (Chain(pages, leaves) && Back(pages, leaves) ==> Chain(pages2, rest) && Back(pages2, rest))
      && (Chain(pages, leaves) ==> (Chain(pages2, rest) <==> LeftIs(pages, leaves, id)))
    ensures if Path(c) == [] then
              c.Top? && root == id && Strings(c, id) == [id] && Before(c) + After(c) == []
              && multiset{id} + slack == multiset(Unlinked(pages, id).Keys)
            else c.In? && root == Path(c)[0]
  {
    hide CtxOk, CtxMatches, Sorted, Rank, CtxIds, LeafUsed, Linked, Chain, Back, LeftIs, Before, After, LeavesBefore,
         LeavesAfter;
    OneId(Leaf(id, []));
    LeafPageIs(pages, Leaf(id, []));
    LeafDropped(pages, c, id, slack, root);
    StringAt(c, id);
    if c.Top? {
      TopNothing(c);
    }
  }

  lemma DroppedRoot(was: Pages, id: nat)
    requires LeafLinked(was, id)
    ensures Dropped(was, [id], [], id, Unlinked(was, id), LeafIds(Leaf(id, [])), id)
  {
  }

  lemma DroppedLeaf(was: Pages, c: Ctx, id: nat, path: seq<nat>, now: Pages, leaves2: seq<nat>, root: nat)
    requires LeafLinked(was, id) && path != []
    requires LeavesStay(Unlinked(was, id), LeavesBefore(c) + LeavesAfter(c), now, leaves2, root)
    ensures Dropped(was, Strings(c, id), path, id, now, leaves2, root)
  {
    hide LeavesStay, LeavesBefore, LeavesAfter, Unlinked, LeafLinked;
    var leaves, k := Strings(c, id), |LeavesBefore(c)|;
    assert leaves[k] == id && leaves[..k] == LeavesBefore(c) && leaves[k + 1..] == LeavesAfter(c);
  }

  lemma EmptyRoot(was: Pages, pages: Pages, id: nat, slack: multiset<nat>)
    requires id in pages && pages[id].LeafPage? && pages[id].entries == []
    requires multiset{id} + slack == multiset(pages.Keys)
    requires LeafLinked(was, id) && pages == Unlinked(was, id)
    ensures Matches(pages, Leaf(id, [])) && Wf(Leaf(id, []), 0, 0.0, 1.0, true) && Ids(Leaf(id, [])) == multiset{id}
    ensures LeafIds(Leaf(id, [])) == [id] && Flat(Leaf(id, [])) == []
    ensures Chain(was, [id]) && Back(was, [id]) ==> Chain(pages, [id]) && Back(pages, [id])
    ensures Chain(was, [id]) && Linked(was, [id], id) ==> Chain(pages, [id]) && LeftIs(was, [id], id)
  {
    assert EntrySizes([]) == [];
    assert [id][0] == id;
    assert Chain(was, [id]) && Back(was, [id]) ==> was[id].next == INVALID && was[id].prev == INVALID;
    if Chain(was, [id]) && Linked(was, [id], id) {
      assert was[[id][0]].next == INVALID && was[[id][0]].prev != id;
    }
  }

  lemma FreedFirst(slack: multiset<nat>, id: nat, freed: seq<nat>)
    ensures slack + multiset{id} + multiset(freed) == slack + multiset([id] + freed)
  {
  }

  lemma OneId(t: Tree)
    requires t.Leaf?
    ensures Ids(t) == multiset{t.id}
  {
  }

  lemma GrowOf(pages: Pages, left: nat, right: nat, id: nat, key: ByteString, leaf: bool)
    requires left in pages && right in pages && id !in pages && (leaf ==> pages[right].LeafPage?)
    ensures var moved := if leaf then pages[id := pages[left]][right := pages[id := pages[left]][right].(prev := id)]
            else pages[id := pages[left]];
      AllOf(pages, |key|) ==> AllOf(moved[left := InnerPage([key], [id, right])], |key|)
  {
    hide EntriesAre;
  }

  lemma TopPath()
    ensures Path(Top) == []
  {
  }

  lemma AtLeaf(leaf: Tree, key: ByteString)
    requires leaf.Leaf?
    ensures LeafOf(leaf, key) == leaf && PathTo(leaf, key) == []
  {
  }

  lemma OnTheWay(c: Ctx, t: Tree, key: ByteString, j: nat)
    requires t.Node? && j < |t.kids| && j == ChildAt(t.keys, key) && (c.In? ==> |c.left| <= |c.keys|)
    ensures LeafOf(t, key) == LeafOf(t.kids[j], key) && PathTo(t, key) == [t.id] + PathTo(t.kids[j], key)
    ensures Path(Descend(c, t, j)) == Path(c) + [t.id]
  {
    hide LowerBound;
  }

  lemma StuckSame(pages: Pages, pages2: Pages, path: seq<nat>, key: ByteString)
    requires SameBut(pages, pages2)
    ensures GetsStuck(pages, path, key) <==> GetsStuck(pages2, path, key)
  {
    hide GetsStuck;
    StuckFrame(pages, pages2, path, key);
  }

  lemma NothingStuck(pages: Pages, key: ByteString)
    ensures !GetsStuck(pages, [], key)
  {
  }

  lemma OneEntry(entries: seq<Entry>, key: ByteString)
    requires Find(entries, key) < |entries|
    ensures LeafRemove(entries, key) == [] <==> |entries| == 1
  {
    hide LowerBound;
  }

  lemma SameOf(pages: Pages, pages2: Pages, length: nat)
    requires SameBut(pages, pages2)
    ensures AllOf(pages, length) ==> AllOf(pages2, length)
  {
  }

  lemma RemovedOf(pages: Pages, id: nat, key: ByteString, length: nat)
    requires id in pages && pages[id].LeafPage?
    ensures AllOf(pages, length) ==> EntriesAre(LeafRemove(pages[id].entries, key), length)
  {
    hide Find;
  }

  lemma InsertedOf(pages: Pages, id: nat, key: ByteString, value: ByteString)
    requires id in pages && pages[id].LeafPage?
    ensures AllOf(pages, |key|) ==> EntriesAre(LeafInsert(pages[id].entries, key, value), |key|)
  {
    if AllOf(pages, |key|) {
      LeafInsertOf(pages[id].entries, key, value, |key|);
    }
  }

  lemma ReplacedOf(pages: Pages, id: nat, i: nat, key: ByteString, value: ByteString)
    requires id in pages && pages[id].LeafPage? && i < |pages[id].entries|
    ensures AllOf(pages, |key|) ==> EntriesAre(pages[id].entries[i := Entry(key, value)], |key|)
  {
  }

  /** With the freed pages nothing is lost; an emptied root is listed although it is still in use. */
  lemma Removal(pages: Pages, ids: multiset<nat>, before: Pages, idsBefore: multiset<nat>, was: seq<nat>,
                freed: seq<nat>, empty: bool)
    requires empty ==> freed != []
    requires var slack := multiset(before.Keys) - idsBefore;
      ids + (if empty then slack else slack + multiset(freed)) == multiset(pages.Keys)
    ensures idsBefore + multiset(was) == multiset(before.Keys) ==>
              (ids + multiset(was + freed) == multiset(pages.Keys) <==> !empty)
  {
    if idsBefore + multiset(was) == multiset(before.Keys) {
      assert multiset(before.Keys) - idsBefore == multiset(was);
      assert multiset(was + freed) == multiset(was) + multiset(freed);
      if empty {
        var m, f := ids + multiset(was), freed[0];
        assert freed[0] in multiset(freed);
        assert (ids + multiset(was + freed))[f] == m[f] + multiset(freed)[f];
      } else {
        assert ids + multiset(was + freed) == ids + (multiset(was) + multiset(freed));
      }
    }
  }

  lemma NothingToDrop(es: seq<Entry>, key: ByteString)
    requires key !in ToMap(es)
    ensures ToMap(es) == ToMap(es) - {key}
  {
  }

  lemma NotEmptyMap(es: seq<Entry>)
    ensures ToMap(es) == map[] <==> es == []
  {
    if es != [] {
      assert es[|es| - 1].key in ToMap(es);
    }
  }

  /** Contents around an open place whose leaf lost `key`. */
  lemma RemovedMap(c: Ctx, was: seq<Entry>, key: ByteString)
    requires CtxOk(c, 0) && (c.In? ==> |c.left| <= |c.keys|) && HoleLo(c) <= Rank(key) < HoleHi(c)
    requires Sorted(was, HoleLo(c), HoleHi(c))
    ensures ToMap(Before(c) + LeafRemove(was, key) + After(c)) == ToMap(Before(c) + was + After(c)) - {key}
  {
    hide Rank, Less, Sorted, CtxOk, ToMap, LeafRemove;
    var now := LeafRemove(was, key);
    LeafRemoveSorted(was, key, HoleLo(c), HoleHi(c));
    AroundSorted(c, was);
    AroundSorted(c, now);
    OutsideHole(c, 0, key);
    DropIsMapDrop(Before(c) + was + After(c), Before(c) + now + After(c), key);
  }

  lemma FreedMore(slack: multiset<nat>, freed: seq<nat>, more: seq<nat>)
    ensures slack + multiset(freed) + multiset(more) == slack + multiset(freed + more)
  {
  }

  lemma TopPlug(t: Tree)
    ensures Plug(Top, t) == t && Depth(Top) == 0
  {
  }

  /** What is left when the root has grown: what it held is on page `id`, and if that is a leaf, the leaf behind it
      leads there. */
  ghost function GrownPages(pages: Pages, left: nat, right: nat, id: nat, key: ByteString, leaf: bool): Pages
    requires left in pages && right in pages && id !in pages && (leaf ==> pages[right].LeafPage?)
  {
    var moved := pages[id := pages[left]];
    (if leaf then moved[right := pages[right].(prev := id)] else moved)[left := InnerPage([key], [id, right])]
  }

  lemma Grown(pages: Pages, root: nat, l: Tree, r: Tree, key: ByteString, h: nat, slack: multiset<nat>, id: nat)
    returns (all: Tree, height: nat)
    requires Rising(pages, Top, l, r, key, h, slack) && l.id == root && id !in pages && id != INVALID
    requires if l.Leaf? then Strung(pages, Top, l, r, root) else Linked(pages, LeafIds(l) + LeafIds(r), root)
    ensures l.id in pages && r.id in pages && (l.Leaf? ==> pages[r.id].LeafPage?)
    ensures var now := GrownPages(pages, l.id, r.id, id, key, l.Leaf?);
      && all.id == root && Matches(now, all) && Wf(all, height, 0.0, 1.0, true)
      && Ids(all) + slack == multiset(now.Keys)
      && Linked(now, LeafIds(all), root) && Flat(all) == Flat(l) + Flat(r)
      && (Chain(pages, LeafIds(l) + LeafIds(r)) ==> Chain(now, LeafIds(all)))
      && (AllOf(pages, |key|) ==> AllOf(now, |key|))
      && OnlyOn(pages, now, [l.id, r.id]) && |now| == |pages| + 1
      && if l.Node? then LeavesKept(pages, now) && LeafIds(all) == LeafIds(l) + LeafIds(r)
         else RootMoved(pages, l.id, r.id, now, LeafIds(all))
  {
    hide Rank, Less, Wf, Chain, Plug, Halves, CtxMatches, CtxOk, Flat, Linked, Strung, Ids, LeafIds, Matches, AllOf;
    hide OnlyOn, LeavesKept, RootMoved, Rising;
    GrowFacts(pages, l, r, key, h, slack);
    var now := GrownPages(pages, l.id, r.id, id, key, l.Leaf?);
    GrowOf(pages, l.id, r.id, id, key, l.Leaf?);
    all, height := Node(l.id, [key], [Moved(l, id), r]), h + 1;
    if l.Node? {
      GrowNode(pages, now, l, r, id, root);
      MovedNode(pages, l.id, r.id, id, InnerPage([key], [id, r.id]));
    } else {
      GrowLeaf(pages, now, l, r, id, root);
      LeafIdsOf(r);
      MovedRoot(pages, l.id, r.id, id, InnerPage([key], [id, r.id]));
    }
    GrowRoot(pages, now, l, r, key, h, slack, id);
    SettledTree(now, Top, all, h + 1, slack);
    TopPlug(all);
  }

  lemma GrowNode(was: Pages, pages: Pages, l: Tree, r: Tree, id: nat, root: nat)
    requires l.Node? && Matches(was, r) && l.id in was && was[l.id].InnerPage? && id !in was && id != INVALID
    requires l.id in pages
    requires pages == was[id := was[l.id]][l.id := pages[l.id]]
    requires forall x | x in Ids(r) || x in Ids(l) - multiset{l.id} :: x != l.id && x in was
    requires Linked(was, LeafIds(l) + LeafIds(r), root)
    ensures Matches(pages, r) && Agree(was, pages, Ids(l) - multiset{l.id})
    ensures Linked(pages, LeafIds(l) + LeafIds(r), root)
    ensures Chain(was, LeafIds(l) + LeafIds(r)) ==> Chain(pages, LeafIds(l) + LeafIds(r))
    ensures pages.Keys == was.Keys + {id} && pages[id] == was[l.id]
  {
    hide Matches, Ids, LeafIds;
    FrameMatches(was, pages, r);
    InnerKeepsLinks(was, pages, LeafIds(l) + LeafIds(r), root);
  }

  lemma GrowLeaf(was: Pages, pages: Pages, l: Tree, r: Tree, id: nat, root: nat)
    requires l.Leaf? && r.Leaf? && Matches(was, r) && l.id in was && id !in was && id != INVALID && l.id != r.id
    requires Strung(was, Top, l, r, root) && l.id in pages && pages[l.id].InnerPage?
    requires pages == was[id := was[l.id]][r.id := was[r.id].(prev := id)][l.id := pages[l.id]]
    ensures Matches(pages, r) && Agree(was, pages, Ids(l) - multiset{l.id})
    ensures Linked(pages, [id] + LeafIds(r), root)
    ensures Chain(was, LeafIds(l) + LeafIds(r)) ==> Chain(pages, [id] + LeafIds(r))
    ensures pages.Keys == was.Keys + {id} && pages[id] == was[l.id]
  {
    assert Ids(l) - multiset{l.id} == multiset{};
    assert LeafIds(l) + LeafIds(r) == [l.id, r.id] && [id] + LeafIds(r) == [id, r.id];
    forall x | LinkOk(was, x) && x != root ensures LinkOk(pages, x) {
    }
    assert LeafLinked(was, l.id) && LeafLinked(was, r.id);
    if Chain(was, [l.id, r.id]) {
      GrowChain(was, pages, l.id, r.id, id);
    }
  }

  lemma GrowFacts(pages: Pages, l: Tree, r: Tree, key: ByteString, h: nat, slack: multiset<nat>)
    requires Rising(pages, Top, l, r, key, h, slack)
    ensures l.id in pages && r.id in pages && l.id != r.id && (l.Leaf? <==> r.Leaf?)
    ensures forall x | x in Ids(r) || x in Ids(l) - multiset{l.id} :: x != l.id && x in pages
    ensures l.Leaf? ==> pages[l.id].LeafPage? && pages[r.id].LeafPage? && pages[l.id].entries == l.entries
    ensures Matches(pages, r)
    ensures l.Node? ==> pages[l.id].InnerPage?
  {
    assert l.id in Ids(l) && r.id in Ids(r);
    Once(pages, Ids(l), Ids(r), slack);
    Once(pages, multiset{l.id}, Ids(l) - multiset{l.id}, Ids(r) + slack);
    assert l.id in multiset{l.id};
    if l.Leaf? {
      assert h == 0;
    }
  }

  lemma GrowChain(was: Pages, pages: Pages, left: nat, right: nat, id: nat)
    requires left in was && right in was && was[left].LeafPage? && was[right].LeafPage? && left != right
    requires Chain(was, [left, right]) && id !in was
    requires left in pages && pages == was[id := was[left]][right := was[right].(prev := id)][left := pages[left]]
    ensures Chain(pages, [id, right])
  {
    assert [left, right][0] == left && [left, right][1] == right;
    assert was[left].next == right && was[right].next == INVALID;
  }

  /** All entries and all leaves of a tree with an open place torn in two. */
  ghost predicate Carries(c: Ctx, l: Tree, r: Tree, entries: seq<Entry>, leaves: seq<nat>) {
    && entries == Before(c) + Flat(l) + Flat(r) + After(c)
    && leaves == LeavesBefore(c) + LeafIds(l) + LeafIds(r) + LeavesAfter(c)
  }

  lemma WideNode(c: Ctx, l: Tree, r: Tree, key: ByteString, entries: seq<Entry>, leaves: seq<nat>)
    requires c.In? && |c.left| <= |c.keys| && Carries(c, l, r, entries, leaves)
    ensures var t := Node(c.id, WideKeys(c, key), WideKids(c, l, r));
      entries == Before(c.up) + Flat(t) + After(c.up) && leaves == LeavesBefore(c.up) + LeafIds(t) + LeavesAfter(c.up)
  {
    hide Before, After, LeavesBefore, LeavesAfter, FlatAll, LeafIdsAll;
    WideContents(c, l, r);
    UpContents(c, l, r);
  }

  lemma CarriesUp(c: Ctx, l: Tree, r: Tree, key: ByteString, id: nat, entries: seq<Entry>, leaves: seq<nat>)
    requires c.In? && |c.left| + |c.right| == |c.keys| && CutAt(c, key) < |WideKeys(c, key)|
    requires Carries(c, l, r, entries, leaves)
    ensures Carries(c.up, CutLeftTree(c, l, r, key), CutRightTree(c, l, r, key, id), entries, leaves)
    ensures CutLeftTree(c, l, r, key).Node? && CutLeftTree(c, l, r, key).id == c.id
    ensures CutRightTree(c, l, r, key, id).id == id
  {
    hide Before, After, LeavesBefore, LeavesAfter, Flat, LeafIds, FlatAll, LeafIdsAll, CutAt;
    UpContents(c, l, r);
    CutContents(c, l, r, key, id);
    CutUp(c.up, CutLeftTree(c, l, r, key), CutRightTree(c, l, r, key, id));
  }

  /** The same contents, seen from one level up. */
  lemma UpContents(c: Ctx, l: Tree, r: Tree)
    requires c.In?
    ensures Before(c) + Flat(l) + Flat(r) + After(c)
         == Before(c.up) + (FlatAll(c.left) + (Flat(l) + Flat(r)) + FlatAll(c.right)) + After(c.up)
    ensures LeavesBefore(c) + LeafIds(l) + LeafIds(r) + LeavesAfter(c)
         == LeavesBefore(c.up) + (LeafIdsAll(c.left) + (LeafIds(l) + LeafIds(r)) + LeafIdsAll(c.right))
           + LeavesAfter(c.up)
  {
    Regroup(Before(c.up), FlatAll(c.left), Flat(l) + Flat(r), FlatAll(c.right), After(c.up));
    Apart4(Before(c), Flat(l), Flat(r), After(c));
    Regroup(LeavesBefore(c.up), LeafIdsAll(c.left), LeafIds(l) + LeafIds(r), LeafIdsAll(c.right), LeavesAfter(c.up));
    Apart4(LeavesBefore(c), LeafIds(l), LeafIds(r), LeavesAfter(c));
  }

  lemma CutUp(c: Ctx, tl: Tree, tr: Tree)
    ensures Before(c) + Flat(tl) + Flat(tr) + After(c) == Before(c) + (Flat(tl) + Flat(tr)) + After(c)
    ensures LeavesBefore(c) + LeafIds(tl) + LeafIds(tr) + LeavesAfter(c)
         == LeavesBefore(c) + (LeafIds(tl) + LeafIds(tr)) + LeavesAfter(c)
  {
    Apart4(Before(c), Flat(tl), Flat(tr), After(c));
    Apart4(LeavesBefore(c), LeafIds(tl), LeafIds(tr), LeavesAfter(c));
  }

  lemma TopContents(c: Ctx, l: Tree, r: Tree, entries: seq<Entry>, leaves: seq<nat>)
    requires c.Top? && Carries(c, l, r, entries, leaves)
    ensures entries == Flat(l) + Flat(r) && leaves == LeafIds(l) + LeafIds(r) && Plug(c, l).id == l.id
  {
  }

  lemma CarriesIs(c: Ctx, l: Tree, r: Tree, entries: seq<Entry>, leaves: seq<nat>)
    requires entries == Before(c) + Flat(l) + Flat(r) + After(c)
    requires leaves == LeavesBefore(c) + LeafIds(l) + LeafIds(r) + LeavesAfter(c)
    ensures Carries(c, l, r, entries, leaves)
  {
  }

  /** A finite file always has room for one more page. */
  lemma FreshId(ids: set<nat>)
    ensures exists id: nat :: id !in ids && id != INVALID
  {
    var most := Above(ids + {INVALID});
    assert most !in ids && most != INVALID;
  }

  lemma TopOk(pages: Pages, h: nat, id: nat)
    ensures CtxOk(Top, h) && CtxMatches(pages, Top, id)
  {
  }

  lemma PageKind(pages: Pages, t: Tree, h: nat, lo: real, hi: real, root: bool)
    requires Matches(pages, t) && Wf(t, h, lo, hi, root)
    ensures t.id in pages && (pages[t.id].LeafPage? <==> t.Leaf?) && (t.Leaf? ==> h == 0)
    ensures t.Node? ==> pages[t.id].keys == t.keys && pages[t.id].kids == KidIds(t.kids)
    ensures t.Node? ==> h > 0 && |t.kids| == |t.keys| + 1 && SortedKeys(t.keys, lo, hi)
    ensures t.Leaf? ==> pages[t.id].entries == t.entries
  {
  }

  lemma {:induction false} ChildBounds(keys: seq<ByteString>, lo: real, hi: real, key: ByteString)
    requires SortedKeys(keys, lo, hi) && lo <= Rank(key) < hi
    ensures var j := ChildAt(keys, key); Low(keys, lo, j) <= Rank(key) < High(keys, hi, j)
  {
    hide Rank, Less, LowerBound, SortedKeys, Ascending;
    var i := LowerBound(keys, key);
    if i < |keys| && keys[i] == key {
      if i + 1 < |keys| {
        NextAbove(keys, lo, hi, i);
      }
    } else if i < |keys| {
      RankOrders(keys[i], key);
    }
  }

  lemma NextAbove(keys: seq<ByteString>, lo: real, hi: real, i: nat)
    requires SortedKeys(keys, lo, hi) && i + 1 < |keys|
    ensures Rank(keys[i]) < Rank(keys[i + 1])
  {
  }

  lemma SettledFacts(pages: Pages, c: Ctx, leaf: Tree, slack: multiset<nat>)
    requires Settled(pages, c, leaf, 0, slack) && leaf.Leaf?
    ensures leaf.id in pages && pages[leaf.id].LeafPage? && pages[leaf.id].entries == leaf.entries
    ensures c.In? ==> |c.left| <= |c.keys|
    ensures Sorted(leaf.entries, HoleLo(c), HoleHi(c)) && LeafUsed(leaf.entries) <= LEAF_SIZE && CtxOk(c, 0)
    ensures Sorted(Flat(Plug(c, leaf)), 0.0, 1.0)
    ensures Flat(Plug(c, leaf)) == Before(c) + leaf.entries + After(c)
    ensures LeafIds(Plug(c, leaf)) == LeavesBefore(c) + [leaf.id] + LeavesAfter(c)
  {
    hide Rank, Less, CtxMatches, Sorted, Plug, Before, After, LeavesBefore, LeavesAfter, CtxIds, LeafUsed;
    SettledTree(pages, c, leaf, 0, slack);
    FlatSorted(Plug(c, leaf), Depth(c), 0.0, 1.0, true);
    LeafPageIs(pages, leaf);
    LeafIdsOf(leaf);
  }

  /** Searching the right leaf is searching the whole tree. */
  lemma LookUp(c: Ctx, leaf: Tree, key: ByteString)
    requires CtxOk(c, 0) && (c.In? ==> |c.left| <= |c.keys|) && HoleLo(c) <= Rank(key) < HoleHi(c) && leaf.Leaf?
    requires Sorted(leaf.entries, HoleLo(c), HoleHi(c)) && Sorted(Flat(Plug(c, leaf)), 0.0, 1.0)
    requires Flat(Plug(c, leaf)) == Before(c) + leaf.entries + After(c)
    ensures var i := Find(leaf.entries, key);
      var m := ToMap(Flat(Plug(c, leaf)));
      if i == |leaf.entries| then key !in m && Absent(leaf.entries, key)
      else key in m && m[key] == leaf.entries[i].value
  {
    hide Rank, Less, ToMap, Sorted, CtxOk, Find, Ascending;
    var all := Flat(Plug(c, leaf));
    OutsideHole(c, 0, key);
    SortedAscending(leaf.entries, HoleLo(c), HoleHi(c));
    FindFinds(leaf.entries, key);
    ToMapIs(all, 0.0, 1.0);
    var i := Find(leaf.entries, key);
    if i < |leaf.entries| {
      assert leaf.entries[i] in all;
    }
  }

  lemma LeafPageIs(pages: Pages, leaf: Tree)
    requires leaf.Leaf? && Matches(pages, leaf)
    ensures leaf.id in pages && pages[leaf.id].LeafPage? && pages[leaf.id].entries == leaf.entries
  {
  }

  lemma Opened(pages: Pages, c: Ctx, leaf: Tree, slack: multiset<nat>, root: nat)
    requires Settled(pages, c, leaf, 0, slack) && leaf.Leaf?
    requires Linked(pages, LeafIds(Plug(c, leaf)), root)
    ensures leaf.id in pages && pages[leaf.id].LeafPage? && pages[leaf.id].entries == leaf.entries
    ensures c.In? ==> |c.left| <= |c.keys|
    ensures Sorted(leaf.entries, HoleLo(c), HoleHi(c)) && LeafUsed(leaf.entries) <= LEAF_SIZE && CtxOk(c, 0)
    ensures Sorted(Flat(Plug(c, leaf)), 0.0, 1.0)
    ensures Flat(Plug(c, leaf)) == Before(c) + leaf.entries + After(c)
    ensures LeafIds(Plug(c, leaf)) == LeavesBefore(c) + [leaf.id] + LeavesAfter(c)
    ensures LeafIds(Plug(c, leaf)) == Strings(c, leaf.id)
    ensures root == Plug(c, leaf).id ==> OpenAt(pages, root, c, leaf, slack)
  {
    hide Rank, Less, CtxMatches, Sorted, Plug, Linked, CtxOk;
    SettledFacts(pages, c, leaf, slack);
    PlugRoot(c, leaf);
  }

  /** The leaf gets other entries. */
  lemma Rewritten(pages: Pages, root: nat, c: Ctx, leaf: Tree, slack: multiset<nat>, es: seq<Entry>, length: nat)
    requires OpenAt(pages, root, c, leaf, slack) && Sorted(es, HoleLo(c), HoleHi(c)) && LeafUsed(es) <= LEAF_SIZE
    ensures leaf.id in pages && pages[leaf.id].LeafPage? && pages[leaf.id].entries == leaf.entries
    ensures var pages2 := pages[leaf.id := pages[leaf.id].(entries := es)];
      && OpenAt(pages2, root, c, Leaf(leaf.id, es), slack)
      && (Chain(pages, Strings(c, leaf.id)) ==> Chain(pages2, Strings(c, leaf.id)))
      && (Back(pages, Strings(c, leaf.id)) ==> Back(pages2, Strings(c, leaf.id)))
      && (LeftIs(pages, Strings(c, leaf.id), leaf.id) <==> LeftIs(pages2, Strings(c, leaf.id), leaf.id))
      && (AllOf(pages, length) && EntriesAre(es, length) ==> AllOf(pages2, length))
  {
    hide CtxOk, CtxMatches, Linked, Sorted, Rank, Chain, Back, LeftIs, LeafUsed, Strings;
    LeafPageIs(pages, leaf);
    Rewrite(pages, c, leaf, slack, es);
    EntriesKeepLinks(pages, leaf.id, es, Strings(c, leaf.id), root);
    EntriesKeepBack(pages, leaf.id, es, Strings(c, leaf.id));
    EntriesKeepLeft(pages, leaf.id, es, Strings(c, leaf.id));
  }

  /** Other entries in a leaf change nothing outside the tree, nor what taking the leaf out of the chain does
      there. */
  lemma LeafOutside(pages: Pages, c: Ctx, leaf: Tree, slack: multiset<nat>, root: nat, es: seq<Entry>)
    requires OpenAt(pages, root, c, leaf, slack)
    ensures LeafLinked(pages, leaf.id)
    ensures var pages2 := pages[leaf.id := pages[leaf.id].(entries := es)];
      && Agree(pages, pages2, slack) && LeafLinked(pages2, leaf.id)
      && Agree(Unlinked(pages, leaf.id), Unlinked(pages2, leaf.id), slack)
  {
    hide CtxOk, CtxMatches, Sorted, Rank, CtxIds, LeafUsed;
    assert Strings(c, leaf.id)[|LeavesBefore(c)|] == leaf.id;
    Once(pages, slack, Ids(leaf), CtxIds(c));
    assert leaf.id in Ids(leaf);
  }

  /** With right links in both directions, taking the leaf out of the chain writes only pages of the tree. */
  lemma OnlyInside(pages: Pages, c: Ctx, leaf: Tree, slack: multiset<nat>, root: nat)
    requires OpenAt(pages, root, c, leaf, slack) && LeafLinked(pages, leaf.id)
    requires Chain(pages, Strings(c, leaf.id)) && Back(pages, Strings(c, leaf.id))
    ensures Agree(pages, Unlinked(pages, leaf.id), slack)
  {
    hide CtxOk, CtxMatches, Sorted, Rank, CtxIds, LeafUsed, Chain, Back, NoRepeat, Unlinked, Agree, Linked, Path;
    hide LeafLinked, LeavesBefore, LeavesAfter;
    var x, y := LeavesBefore(c), LeavesAfter(c);
    LinkedHas(pages, Strings(c, leaf.id), root);
    LeavesOnce(pages, c, leaf.id, slack);
    CtxLeavesAre(c);
    Once(pages, slack, CtxIds(c), Ids(leaf));
    forall i | 0 <= i < |x + y| ensures (x + y)[i] !in slack {
      assert (x + y)[i] in multiset(x + y);
    }
    UnlinkInside(pages, x, leaf.id, y, slack);
  }

  lemma EntriesKeepLeft(pages: Pages, id: nat, entries: seq<Entry>, leaves: seq<nat>)
    requires id in pages && pages[id].LeafPage?
    ensures LeftIs(pages, leaves, id) <==> LeftIs(pages[id := pages[id].(entries := entries)], leaves, id)
  {
  }

  /** The leaf is not empty, and the tree is whole again. */
  lemma Whole(pages: Pages, root: nat, c: Ctx, leaf: Tree, slack: multiset<nat>) returns (all: Tree, height: nat)
    requires OpenAt(pages, root, c, leaf, slack) && leaf.entries != []
    ensures root == all.id && Matches(pages, all) && Wf(all, height, 0.0, 1.0, true)
    ensures Ids(all) + slack == multiset(pages.Keys) && Linked(pages, LeafIds(all), root)
    ensures Flat(all) == Before(c) + leaf.entries + After(c) && LeafIds(all) == Strings(c, leaf.id)
    ensures Ids(all) <= multiset(pages.Keys)
  {
    hide CtxOk, CtxMatches, Linked, Sorted, Rank, Plug, Before, After, LeafUsed, Less, Matches, CtxIds;
    hide LeavesBefore, LeavesAfter, Path;
    LeafWf(leaf, HoleLo(c), HoleHi(c));
    SettledTree(pages, c, leaf, 0, slack);
    PlugRoot(c, leaf);
    all, height := Plug(c, leaf), Depth(c);
  }

  /** A leaf without room splits; the state in which the tree above it does not know yet. */
  lemma SplitOpen(pages: Pages, root: nat, c: Ctx, leaf: Tree, slack: multiset<nat>, key: ByteString,
                  value: ByteString, right: nat)
    requires OpenAt(pages, root, c, leaf, slack) && right !in pages && right != INVALID
    requires HoleLo(c) <= Rank(key) < HoleHi(c) && Absent(leaf.entries, key) && !LeafHasSpace(leaf.entries, key, value)
    ensures 0 < LeafSplitAt(leaf.entries) && leaf.id in pages && pages[leaf.id].LeafPage?
    ensures var (a, b) := LeafSplit(leaf.entries, key, value);
      var pages2, l, r := SplitPages(pages, leaf.id, right, a, b), Leaf(leaf.id, a), Leaf(right, b);
      && b != [] && a + b == LeafInsert(leaf.entries, key, value)
      && Rising(pages2, c, l, r, b[0].key, 0, slack) && Strung(pages2, c, l, r, root) && root == Plug(c, l).id
      && (Chain(pages, Strings(c, leaf.id)) ==> Chain(pages2, LeavesBefore(c) + [l.id, r.id] + LeavesAfter(c)))
      && (AllOf(pages, |key|) ==> AllOf(pages2, |key|) && |b[0].key| == |key|)
  {
    hide CtxOk, CtxMatches, Linked, Sorted, Rank, Chain, LeafSplit, LeafSplitAt, LeafHasSpace, LeafInsert, Absent,
         LeafUsed, Rising, Strung;
    LeafPageIs(pages, leaf);
    SplitLeaf(pages, c, leaf, slack, key, value, right);
    var (a, b) := LeafSplit(leaf.entries, key, value);
    PlugRoot(c, leaf);
    PlugRoot(c, Leaf(leaf.id, a));
    RootPage(pages, c, leaf, root);
    OneId(leaf);
    SplitLinks(pages, c, leaf.id, slack, right, a, b, root);
    if Chain(pages, Strings(c, leaf.id)) {
      SplitChain(pages, c, leaf.id, slack, right, a, b);
    }
    if AllOf(pages, |key|) {
      LeafSplitOf(leaf.entries, key, value, |key|);
      assert b[0] in b;
    }
  }

  lemma OpenPage(pages: Pages, root: nat, c: Ctx, leaf: Tree, slack: multiset<nat>)
    requires OpenAt(pages, root, c, leaf, slack)
    ensures leaf.Leaf? && leaf.id in pages && pages[leaf.id].LeafPage? && pages[leaf.id].entries == leaf.entries
    ensures (c.In? ==> |c.left| <= |c.keys|) && Sorted(leaf.entries, HoleLo(c), HoleHi(c))
    ensures LeafUsed(leaf.entries) <= LEAF_SIZE
    ensures CtxOk(c, 0)
  {
  }

  lemma PlugSame(c: Ctx, t: Tree, u: Tree)
    requires t.id == u.id
    ensures Plug(c, t).id == Plug(c, u).id
  {
    PlugRoot(c, t);
    PlugRoot(c, u);
  }

  lemma {:induction false} RootPage(pages: Pages, c: Ctx, leaf: Tree, root: nat)
    requires CtxMatches(pages, c, leaf.id) && leaf.Leaf? && Matches(pages, leaf) && root == Plug(c, leaf).id
    ensures root in pages && (c.Top? ==> leaf.id == root) && (c.In? ==> pages[root].InnerPage?)
  {
    PlugRoot(c, leaf);
    if c.In? {
      FirstInner(pages, c, leaf.id);
    }
  }

  lemma {:induction false} FirstInner(pages: Pages, c: Ctx, hole: nat)
    requires CtxMatches(pages, c, hole) && c.In?
    ensures Path(c)[0] in pages && pages[Path(c)[0]].InnerPage?
  {
    if c.up.In? {
      FirstInner(pages, c.up, c.id);
    }
  }

  lemma InsertFits(entries: seq<Entry>, key: ByteString, value: ByteString)
    requires LeafHasSpace(entries, key, value)
    ensures LeafUsed(LeafInsert(entries, key, value)) <= LEAF_SIZE && LeafInsert(entries, key, value) != []
  {
    LeafInsertUsed(entries, key, value);
  }

  lemma AbsentAll(entries: seq<Entry>, key: ByteString)
    requires Absent(entries, key)
    ensures forall e :: e in entries <==> e in entries && e.key != key
  {
  }

  lemma RemovedAbsent(entries: seq<Entry>, key: ByteString)
    requires forall e :: e in LeafRemove(entries, key) <==> e in entries && e.key != key
    ensures Absent(LeafRemove(entries, key), key)
  {
  }

  lemma ReplacedSorted(entries: seq<Entry>, i: nat, value: ByteString, lo: real, hi: real)
    requires i < |entries| && Sorted(entries, lo, hi) && |entries[i].value| == |value|
    ensures Sorted(entries[i := Entry(entries[i].key, value)], lo, hi)
    ensures LeafUsed(entries[i := Entry(entries[i].key, value)]) == LeafUsed(entries)
  {
    hide Rank, Less;
    assert EntrySizes(entries[i := Entry(entries[i].key, value)]) == EntrySizes(entries);
  }

  /** Contents around an open place whose leaf changed from `was` (with or without `key`) to hold `key`. */
  lemma InsertedMap(c: Ctx, was: seq<Entry>, without: seq<Entry>, key: ByteString, value: ByteString)
    requires CtxOk(c, 0) && (c.In? ==> |c.left| <= |c.keys|) && HoleLo(c) <= Rank(key) < HoleHi(c)
    requires Sorted(was, HoleLo(c), HoleHi(c)) && Sorted(without, HoleLo(c), HoleHi(c)) && Absent(without, key)
    requires forall e :: e in without <==> e in was && e.key != key
    ensures ToMap(Before(c) + LeafInsert(without, key, value) + After(c))
            == ToMap(Before(c) + was + After(c))[key := value]
  {
    hide Rank, Less, Sorted, CtxOk, LeafInsert, ToMap;
    var now := LeafInsert(without, key, value);
    LeafInsertSorted(without, key, value, HoleLo(c), HoleHi(c));
    AroundSorted(c, was);
    AroundSorted(c, now);
    OutsideHole(c, 0, key);
    PutIsMapPut(Before(c) + was + After(c), Before(c) + now + After(c), key, value);
  }

  lemma AroundSorted(c: Ctx, es: seq<Entry>)
    requires CtxOk(c, 0) && (c.In? ==> |c.left| <= |c.keys|) && Sorted(es, HoleLo(c), HoleHi(c))
    ensures Sorted(Before(c) + es + After(c), 0.0, 1.0)
  {
    hide Rank, Less, Sorted, CtxOk;
    CtxSorted(c, 0);
    SortedAppend(Before(c), es, 0.0, HoleLo(c), HoleHi(c));
    SortedAppend(Before(c) + es, After(c), 0.0, HoleHi(c), 1.0);
  }

  lemma ReplacedMap(c: Ctx, was: seq<Entry>, i: nat, value: ByteString)
    requires CtxOk(c, 0) && (c.In? ==> |c.left| <= |c.keys|) && i < |was| && Sorted(was, HoleLo(c), HoleHi(c))
    requires |was[i].value| == |value|
    ensures var now := was[i := Entry(was[i].key, value)];
      ToMap(Before(c) + now + After(c)) == ToMap(Before(c) + was + After(c))[was[i].key := value]
  {
    hide Rank, Less, Sorted, CtxOk, ToMap;
    var now := was[i := Entry(was[i].key, value)];
    ReplacedSorted(was, i, value, HoleLo(c), HoleHi(c));
    AroundSorted(c, was);
    AroundSorted(c, now);
    InRange(was, i, HoleLo(c), HoleHi(c));
    OutsideHole(c, 0, was[i].key);
    ReplacedMembers(was, i, value, HoleLo(c), HoleHi(c));
    PutIsMapPut(Before(c) + was + After(c), Before(c) + now + After(c), was[i].key, value);
  }

  lemma InRange(es: seq<Entry>, i: nat, lo: real, hi: real)
    requires Sorted(es, lo, hi) && i < |es|
    ensures lo <= Rank(es[i].key) < hi
  {
  }

  lemma ReplacedMembers(was: seq<Entry>, i: nat, value: ByteString, lo: real, hi: real)
    requires i < |was| && Sorted(was, lo, hi)
    ensures var now := was[i := Entry(was[i].key, value)];
      forall e :: e in now <==> e == Entry(was[i].key, value) || (e in was && e.key != was[i].key)
  {
    hide Rank, Less;
    var now := was[i := Entry(was[i].key, value)];
    forall j | 0 <= j < |was| && j != i ensures was[j].key != was[i].key {
      assert Rank(was[j].key) != Rank(was[i].key);
    }
    assert now[i] == Entry(was[i].key, value);
    forall e | e in was && e.key != was[i].key ensures e in now {
      var j :| 0 <= j < |was| && was[j] == e;
      assert now[j] == e;
    }
  }

  lemma SameValue(es: seq<Entry>, key: ByteString)
    requires key in ToMap(es)
    ensures ToMap(es) == ToMap(es)[key := ToMap(es)[key]]
  {
  }

  lemma LeafIdsOf(t: Tree)
    requires t.Leaf?
    ensures LeafIds(t) == [t.id] && Flat(t) == t.entries
  {
  }

  lemma StrungUp(pages: Pages, c: Ctx, l: Tree, r: Tree, root: nat)
    requires Strung(pages, c, l, r, root)
    ensures l.Leaf? && r.Leaf? && INVALID !in pages
    ensures (c.In? ==> Linked(pages, LeavesBefore(c) + [l.id, r.id] + LeavesAfter(c), root))
    ensures c.Top? ==> LeavesBefore(c) == [] && LeavesAfter(c) == []
  {
  }

  lemma PathTop(c: Ctx, stack: seq<nat>)
    requires stack == Path(c) && stack != []
    ensures c.In? && stack[|stack| - 1] == c.id && stack[..|stack| - 1] == Path(c.up)
  {
  }

  lemma PlugUp(c: Ctx, l: Tree)
    requires c.In?
    ensures forall t: Tree | t.id == c.id :: Plug(c.up, t).id == Plug(c, l).id
  {
    forall t: Tree | t.id == c.id ensures Plug(c.up, t).id == Plug(c, l).id {
      PlugSame(c.up, t, Node(c.id, c.keys, c.left + [l] + c.right));
    }
  }

  lemma CtxSize(c: Ctx, h: nat, l: Tree, r: Tree, key: ByteString)
    requires c.In? && Halves(c, l, r, key, h)
    ensures |c.left| + |c.right| == |c.keys| && CtxOk(c, h)
  {
  }
}
