/** Trees from which a key cannot be removed, because the pages on the way up have no room for what has to move. */
module StuckTrees {
  import opened Basics
  import opened ByteStrings
  import opened Nodes
  import opened Trees
  import opened TreeInsert
  import opened TreeSteps
  import opened TreeUnderflow
  import opened TreeLinks
  import opened KeyLengths
  import opened TreeRemoval
  import opened TreeCursors
  import opened BTrees

  // ------------------------------------------------------------------ a tree of three levels

  /** The number of the first leaf below child number `c` of the root: the first child has 3 leaves, the second
      one 16, and the others 3 each. */
  function Start(c: nat): nat {
    if c == 0 then 0 else if c == 1 then 3 else 19 + 3 * (c - 2)
  }

  /** One leaf for each of these keys, below `n` children of the root. */
  ghost predicate Shaped(flat: seq<ByteString>, n: nat) {
    2 <= n <= 17 && |flat| == Start(n) && Ascending(flat)
  }

  function LeafNo(flat: seq<ByteString>, n: nat, i: nat): Tree
    requires i < |flat|
  {
    Leaf(n + 1 + i, [Entry(flat[i], [])])
  }

  function Row(flat: seq<ByteString>, n: nat, a: nat, b: nat): (r: seq<Tree>)
    requires a <= b <= |flat|
    ensures |r| == b - a && forall i | 0 <= i < b - a :: r[i] == LeafNo(flat, n, a + i)
  {
    seq(b - a, i requires 0 <= i < b - a => LeafNo(flat, n, a + i))
  }

  /** The first key of each leaf but the first one separates it from the one before. */
  function Child(flat: seq<ByteString>, n: nat, c: nat): Tree
    requires c < n && |flat| == Start(n)
  {
    Node(c + 1, flat[Start(c) + 1..Start(c + 1)], Row(flat, n, Start(c), Start(c + 1)))
  }

  function Children(flat: seq<ByteString>, n: nat): (r: seq<Tree>)
    requires |flat| == Start(n)
    ensures |r| == n && forall c | 0 <= c < n :: r[c] == Child(flat, n, c)
  {
    seq(n, c requires 0 <= c < n => Child(flat, n, c))
  }

  function RootKeys(flat: seq<ByteString>, n: nat): (r: seq<ByteString>)
    requires n > 0 && |flat| == Start(n)
    ensures |r| == n - 1 && forall c | 0 <= c < n - 1 :: r[c] == flat[Start(c + 1)]
  {
    seq(n - 1, c requires 0 <= c < n - 1 => flat[Start(c + 1)])
  }

  function TreeOf(flat: seq<ByteString>, n: nat): Tree
    requires n > 0 && |flat| == Start(n)
  {
    Node(0, RootKeys(flat, n), Children(flat, n))
  }

  function PageNo(flat: seq<ByteString>, n: nat, id: nat): NodePage
    requires n > 0 && |flat| == Start(n) && id < n + 1 + |flat|
  {
    if id == 0 then InnerPage(RootKeys(flat, n), KidIds(Children(flat, n)))
    else if id <= n then InnerPage(Child(flat, n, id - 1).keys, KidIds(Child(flat, n, id - 1).kids))
    else LeafPage([Entry(flat[id - n - 1], [])], if id == n + 1 then INVALID else id - 1,
                  if id == n + |flat| then INVALID else id + 1)
  }

  function TreePages(flat: seq<ByteString>, n: nat): (r: Pages)
    requires n > 0 && |flat| == Start(n)
    ensures forall id: nat :: id in r <==> id < n + 1 + |flat|
    ensures forall id | id in r :: r[id] == PageNo(flat, n, id)
  {
    map id: nat | id < n + 1 + |flat| :: PageNo(flat, n, id)
  }

  // ------------------------------------------------------------------ it is a tree on its pages

  lemma TreeMatches(flat: seq<ByteString>, n: nat)
    requires Shaped(flat, n)
    ensures Matches(TreePages(flat, n), TreeOf(flat, n))
  {
    hide Ascending;
    var pages, kids := TreePages(flat, n), Children(flat, n);
    forall c | 0 <= c < n ensures Matches(pages, kids[c]) {
      ChildMatches(flat, n, c);
    }
  }

  lemma LeafMatches(flat: seq<ByteString>, n: nat, i: nat)
    requires Shaped(flat, n) && i < |flat|
    ensures Matches(TreePages(flat, n), LeafNo(flat, n, i))
  {
    hide Ascending, Start, Child, Children, RootKeys, TreePages;
  }

  lemma StartsAscend(c: nat, n: nat)
    requires c < n
    ensures Start(c) + 1 <= Start(c + 1) <= Start(n)
  {
  }

  lemma ChildMatches(flat: seq<ByteString>, n: nat, c: nat)
    requires Shaped(flat, n) && c < n
    ensures Matches(TreePages(flat, n), Child(flat, n, c))
  {
    hide Ascending, Start, LeafNo, Row, Children, RootKeys, TreePages;
    var pages, t := TreePages(flat, n), Child(flat, n, c);
    StartsAscend(c, n);
    forall i | 0 <= i < |t.kids| ensures Matches(pages, t.kids[i]) {
      LeafMatches(flat, n, Start(c) + i);
    }
  }

  lemma LeafWf(key: ByteString, id: nat, lo: real, hi: real)
    requires lo <= Rank(key) < hi
    ensures Wf(Leaf(id, [Entry(key, [])]), 0, lo, hi, false)
  {
    hide Rank, LeafUsed;
    LeafUsedOne(Entry(key, []));
  }

  lemma {:induction false} UsedBound(keys: seq<ByteString>)
    ensures InnerUsed(keys) <= 262 * |keys|
  {
    hide InnerUsed;
    if keys == [] {
      AllLengthUsed(keys, 0);
    } else {
      assert keys == [keys[0]] + keys[1..];
      InnerUsedAppend([keys[0]], keys[1..]);
      InnerUsedOne(keys[0]);
      UsedBound(keys[1..]);
    }
  }

  /** The bounds of what is below child number `c`. */
  ghost function LowerEnd(flat: seq<ByteString>, c: nat): real
    requires Start(c) < |flat|
  {
    if c == 0 then 0.0 else Rank(flat[Start(c)])
  }

  ghost function UpperEnd(flat: seq<ByteString>, c: nat): real {
    if Start(c + 1) < |flat| then Rank(flat[Start(c + 1)]) else 1.0
  }

  lemma ChildSorted(flat: seq<ByteString>, n: nat, c: nat)
    requires Shaped(flat, n) && c < n
    ensures Start(c) < |flat| && SortedKeys(Child(flat, n, c).keys, LowerEnd(flat, c), UpperEnd(flat, c))
  {
    hide Rank;
    var keys, a, b := Child(flat, n, c).keys, Start(c), Start(c + 1);
    assert a + 3 <= b <= |flat| && |keys| == b - a - 1;
    assert forall i | 0 <= i < |keys| :: keys[i] == flat[a + 1 + i];
    assert Rank(flat[a]) < Rank(keys[0]);
  }

  lemma ChildWf(flat: seq<ByteString>, n: nat, c: nat)
    requires Shaped(flat, n) && c < n
    ensures Start(c) < |flat| && Wf(Child(flat, n, c), 1, LowerEnd(flat, c), UpperEnd(flat, c), false)
  {
    hide Rank, InnerUsed, SortedKeys;
    var t, lo, hi := Child(flat, n, c), LowerEnd(flat, c), UpperEnd(flat, c);
    var a, b := Start(c), Start(c + 1);
    assert 3 <= b - a <= 16 && b <= |flat|;
    UsedBound(t.keys);
    ChildSorted(flat, n, c);
    forall i | 0 <= i < |t.kids| ensures Wf(t.kids[i], 0, Low(t.keys, lo, i), High(t.keys, hi, i), false) {
      LeafWf(flat[a + i], n + 1 + a + i, Low(t.keys, lo, i), High(t.keys, hi, i));
    }
  }

  lemma TreeWf(flat: seq<ByteString>, n: nat)
    requires Shaped(flat, n) && InnerUsed(RootKeys(flat, n)) <= INNER_SIZE
    ensures Wf(TreeOf(flat, n), 2, 0.0, 1.0, true)
  {
    hide Rank, InnerUsed;
    var keys, kids := RootKeys(flat, n), Children(flat, n);
    RootSorted(flat, n);
    forall c | 0 <= c < n ensures Wf(kids[c], 1, Low(keys, 0.0, c), High(keys, 1.0, c), false) {
      ChildWf(flat, n, c);
      assert c > 0 ==> keys[c - 1] == flat[Start(c)];
    }
  }

  lemma RootSorted(flat: seq<ByteString>, n: nat)
    requires Shaped(flat, n)
    ensures SortedKeys(RootKeys(flat, n), 0.0, 1.0)
  {
    hide Rank;
    var keys := RootKeys(flat, n);
    forall c | 0 <= c < |keys| ensures 0.0 < Rank(keys[c]) < 1.0 {
      assert 0 < Start(c + 1) < |flat| && Rank(flat[0]) < Rank(flat[Start(c + 1)]);
    }
  }

  // ------------------------------------------------------------------ every page once

  function Span(lo: nat, hi: nat): (r: seq<nat>)
    requires lo <= hi
    ensures |r| == hi - lo && forall i | 0 <= i < hi - lo :: r[i] == lo + i
  {
    seq(hi - lo, i requires 0 <= i < hi - lo => lo + i)
  }

  lemma SpanFirst(lo: nat, mid: nat, hi: nat)
    requires lo <= mid <= hi
    ensures Span(lo, mid) + Span(mid, hi) == Span(lo, hi)
    ensures multiset(Span(lo, mid)) + multiset(Span(mid, hi)) == multiset(Span(lo, hi))
  {
    assert Span(lo, mid) + Span(mid, hi) == Span(lo, hi);
  }

  lemma SpanOne(lo: nat)
    ensures Span(lo, lo + 1) == [lo] && multiset(Span(lo, lo + 1)) == multiset{lo} && Span(lo, lo) == []
  {
    assert Span(lo, lo + 1) == [lo];
  }

  lemma FirstIds(t: Tree, rest: seq<Tree>)
    ensures IdsAll([t] + rest) == Ids(t) + IdsAll(rest) && LeafIdsAll([t] + rest) == LeafIds(t) + LeafIdsAll(rest)
  {
    AllAppend([t], rest);
    AllOne(t);
  }

  lemma NoIds()
    ensures IdsAll([]) == multiset{} && LeafIdsAll([]) == []
  {
  }

  lemma {:induction false} RowIds(flat: seq<ByteString>, n: nat, a: nat, b: nat)
    requires a <= b <= |flat|
    ensures IdsAll(Row(flat, n, a, b)) == multiset(Span(n + 1 + a, n + 1 + b))
    ensures LeafIdsAll(Row(flat, n, a, b)) == Span(n + 1 + a, n + 1 + b)
    decreases b - a
  {
    hide Span, IdsAll, LeafIdsAll;
    SpanOne(n + 1 + a);
    if a < b {
      var leaf, rest := LeafNo(flat, n, a), Row(flat, n, a + 1, b);
      assert Row(flat, n, a, b) == [leaf] + rest;
      FirstIds(leaf, rest);
      RowIds(flat, n, a + 1, b);
      SpanFirst(n + 1 + a, n + 2 + a, n + 1 + b);
    } else {
      assert Row(flat, n, a, b) == [];
      NoIds();
    }
  }

  lemma ChildIds(flat: seq<ByteString>, n: nat, c: nat)
    requires c < n && |flat| == Start(n)
    ensures var t, leaves := Child(flat, n, c), Span(n + 1 + Start(c), n + 1 + Start(c + 1));
      Ids(t) == multiset{c + 1} + multiset(leaves) && LeafIds(t) == leaves
  {
    hide Span, IdsAll, LeafIdsAll;
    RowIds(flat, n, Start(c), Start(c + 1));
  }

  lemma PartFirst(flat: seq<ByteString>, n: nat, c: nat)
    requires c <= n && |flat| == Start(n)
    ensures Start(c) <= |flat| && (c < n ==> Start(c) <= Start(c + 1) <= |flat|)
    ensures c < n ==> Children(flat, n)[c..] == [Child(flat, n, c)] + Children(flat, n)[c + 1..]
    ensures Children(flat, n)[n..] == []
  {
  }

  lemma Sums(a: multiset<nat>, b: multiset<nat>, c: multiset<nat>, d: multiset<nat>, ac: multiset<nat>,
             bd: multiset<nat>)
    requires ac == a + c && bd == b + d
    ensures (a + b) + (c + d) == ac + bd
  {
  }

  /** The pages of the children from number `c` on. */
  ghost function RestPages(n: nat, total: nat, c: nat): multiset<nat>
    requires c <= n && Start(c) <= total
  {
    multiset(Span(c + 1, n + 1)) + multiset(Span(n + 1 + Start(c), n + 1 + total))
  }

  lemma PagesStep(n: nat, total: nat, c: nat)
    requires c < n && Start(c) <= Start(c + 1) <= total
    ensures (multiset{c + 1} + multiset(Span(n + 1 + Start(c), n + 1 + Start(c + 1)))) + RestPages(n, total, c + 1)
         == RestPages(n, total, c)
  {
    hide Span, Start;
    var x, y, z := n + 1 + Start(c), n + 1 + Start(c + 1), n + 1 + total;
    SpanOne(c + 1);
    SpanFirst(c + 1, c + 2, n + 1);
    SpanFirst(x, y, z);
    var b, p, q := multiset(Span(x, y)), multiset(Span(c + 2, n + 1)), multiset(Span(y, z));
    Sums(multiset{c + 1}, b, p, q, multiset(Span(c + 1, n + 1)), multiset(Span(x, z)));
    assert RestPages(n, total, c + 1) == p + q;
  }

  lemma PagesLast(n: nat, total: nat)
    requires total == Start(n)
    ensures RestPages(n, total, n) == multiset{}
  {
    SpanOne(n + 1);
    SpanOne(n + 1 + total);
  }

  lemma {:induction false} ChildrenIds(flat: seq<ByteString>, n: nat, c: nat)
    requires c <= n && n > 0 && |flat| == Start(n)
    ensures Start(c) <= |flat| && IdsAll(Children(flat, n)[c..]) == RestPages(n, |flat|, c)
    ensures LeafIdsAll(Children(flat, n)[c..]) == Span(n + 1 + Start(c), n + 1 + |flat|)
    decreases n - c
  {
    hide Span, IdsAll, LeafIdsAll, Ids, LeafIds, Child, Children, Start, RestPages;
    PartFirst(flat, n, c);
    if c < n {
      ChildrenIds(flat, n, c + 1);
      var t, rest := Child(flat, n, c), Children(flat, n)[c + 1..];
      FirstIds(t, rest);
      ChildIds(flat, n, c);
      PagesStep(n, |flat|, c);
      SpanFirst(n + 1 + Start(c), n + 1 + Start(c + 1), n + 1 + |flat|);
    } else {
      NoIds();
      PagesLast(n, |flat|);
      SpanOne(n + 1 + |flat|);
    }
  }

  lemma {:induction false} SpanKeys(keys: set<nat>, n: nat)
    requires forall id: nat :: id in keys <==> id < n
    ensures multiset(Span(0, n)) == multiset(keys)
  {
    SpanOne(0);
    if n > 0 {
      SpanKeys(keys - {n - 1}, n - 1);
      SpanFirst(0, n - 1, n);
      SpanOne(n - 1);
      assert keys == (keys - {n - 1}) + {n - 1};
    } else {
      assert keys == {};
    }
  }

  lemma TreeIds(flat: seq<ByteString>, n: nat)
    requires Shaped(flat, n)
    ensures Ids(TreeOf(flat, n)) == multiset(TreePages(flat, n).Keys)
    ensures LeafIds(TreeOf(flat, n)) == Span(n + 1, n + 1 + |flat|)
  {
    hide Span, Children, Child, RootKeys, RestPages, Ascending, IdsAll, LeafIdsAll, TreePages, PageNo;
    ChildrenIds(flat, n, 0);
    assert Children(flat, n)[0..] == Children(flat, n);
    AllPages(n, |flat|);
    SpanKeys(TreePages(flat, n).Keys, n + 1 + |flat|);
  }

  lemma AllPages(n: nat, total: nat)
    ensures multiset{0} + RestPages(n, total, 0) == multiset(Span(0, n + 1 + total))
  {
    hide Span;
    SpanOne(0);
    SpanFirst(0, 1, n + 1);
    SpanFirst(0, n + 1, n + 1 + total);
    var a, b, c := multiset{0}, multiset(Span(1, n + 1)), multiset(Span(n + 1, n + 1 + total));
    assert a + (b + c) == (a + b) + c;
  }

  lemma TreeLinked(flat: seq<ByteString>, n: nat)
    requires Shaped(flat, n)
    ensures var pages, leaves := TreePages(flat, n), Span(n + 1, n + 1 + |flat|);
      Linked(pages, leaves, 0) && Chain(pages, leaves) && Back(pages, leaves)
  {
    hide Ascending;
  }

  // ------------------------------------------------------------------ the key that cannot be removed

  /** The third key stands in a leaf of its own, below the first child of the root. */
  lemma WayDown(flat: seq<ByteString>, n: nat)
    requires Shaped(flat, n)
    ensures ChildAt(RootKeys(flat, n), flat[2]) == 0 && ChildAt(Child(flat, n, 0).keys, flat[2]) == 2
    ensures FindKey(RootKeys(flat, n), flat[2]) == 0
    ensures LeafOf(TreeOf(flat, n), flat[2]) == LeafNo(flat, n, 2) && PathTo(TreeOf(flat, n), flat[2]) == [0, 1]
  {
    hide Rank, LowerBound, ChildAt;
    var root, child := RootKeys(flat, n), Child(flat, n, 0);
    RootSorted(flat, n);
    ChildSorted(flat, n, 0);
    assert Start(1) == 3 && child.keys == [flat[1], flat[2]] && root[0] == flat[3];
    ChildAtIs(root, flat[2], 0);
    ChildAtIs(child.keys, flat[2], 2);
    LowerBoundIs(root, flat[2], 0);
    TwoDown(TreeOf(flat, n), flat[2], 0, 2);
  }

  lemma TwoDown(t: Tree, key: ByteString, i: nat, j: nat)
    requires t.Node? && i < |t.kids| && t.kids[i].Node? && j < |t.kids[i].kids| && t.kids[i].kids[j].Leaf?
    requires ChildAt(t.keys, key) == i && ChildAt(t.kids[i].keys, key) == j
    ensures LeafOf(t, key) == t.kids[i].kids[j] && PathTo(t, key) == [t.id, t.kids[i].id]
  {
    var child, leaf := t.kids[i], t.kids[i].kids[j];
    assert LeafOf(leaf, key) == leaf && PathTo(leaf, key) == [];
    assert LeafOf(child, key) == leaf && PathTo(child, key) == [child.id];
  }

  /** Without that leaf, the first child has a single key left. */
  lemma OneLeft(flat: seq<ByteString>, n: nat)
    requires Shaped(flat, n)
    ensures var pages := TreePages(flat, n);
      && 1 in pages && GoodInner(pages[1]) && |pages[1].keys| == 2
      && var now := Lost(pages, [0, 1], flat[2]);
      && now.Keys == pages.Keys && GoodInner(now[1]) && now[1].keys == [flat[1]]
      && forall id | id in pages && id != 1 :: now[id] == pages[id]
  {
    hide LowerBound, ChildAt, Ascending;
    WayDown(flat, n);
    var keys := Child(flat, n, 0).keys;
    assert keys == [flat[1], flat[2]];
    assert keys[..1] + keys[2..] == [flat[1]];
  }

  /** What the removal meets on its way up. */
  ghost predicate Meets(flat: seq<ByteString>, n: nat, merges: bool)
    requires Shaped(flat, n)
  {
    var now := Lost(TreePages(flat, n), [0, 1], flat[2]);
    && Neighbours(now, 0, 0) && !RoomFor(now, 0, 0)
    && (merges <==> CanMerge(now[now[0].kids[0]].keys, now[0].keys[0], now[now[0].kids[1]].keys))
  }

  lemma GetsStuckHere(flat: seq<ByteString>, n: nat, merges: bool)
    requires Shaped(flat, n) && Meets(flat, n, merges)
    ensures GetsStuck(TreePages(flat, n), PathTo(TreeOf(flat, n), flat[2]), flat[2])
  {
    hide LowerBound, ChildAt, Ascending, RoomFor, Neighbours, Lost;
    WayDown(flat, n);
    OneLeft(flat, n);
  }

  // ------------------------------------------------------------------ two such trees

  lemma {:induction false} AscendingSteps(keys: seq<ByteString>, i: nat, j: nat)
    requires forall k {:trigger keys[k]} | 0 < k < |keys| :: Rank(keys[k - 1]) < Rank(keys[k])
    requires i < j < |keys|
    ensures Rank(keys[i]) < Rank(keys[j])
    decreases j - i
  {
    hide Rank;
    if i + 1 < j {
      AscendingSteps(keys, i, j - 1);
    }
    assert Rank(keys[j - 1]) < Rank(keys[j]);
  }

  lemma StepsAscend(keys: seq<ByteString>)
    requires forall k {:trigger keys[k]} | 0 < k < |keys| :: Rank(keys[k - 1]) < Rank(keys[k])
    ensures Ascending(keys)
  {
    hide Rank;
    forall i, j | 0 <= i < j < |keys| ensures Rank(keys[i]) < Rank(keys[j]) {
      AscendingSteps(keys, i, j);
    }
  }

  lemma ThirdOrders(a: ByteString, b: ByteString)
    requires |a| > 2 && |b| > 2 && a[..2] == b[..2] && a[2] < b[2]
    ensures Rank(a) < Rank(b)
  {
    assert a[0] == a[..2][0] == b[..2][0] == b[0] && a[1] == a[..2][1] == b[..2][1] == b[1];
    assert Less(a[1..][1..], b[1..][1..]);
    assert Less(a[1..], b[1..]);
    RankOrders(a, b);
  }

  function Zeros(n: nat): (r: seq<Byte>)
    ensures |r| == n && forall i | 0 <= i < n :: r[i] == 0
  {
    seq(n, _ => 0)
  }

  lemma PrefixOrders(x: ByteString, y: ByteString)
    requires |x| == 1 && |y| > 1 && x[0] == y[0]
    ensures Rank(x) < Rank(y)
  {
    assert Less(x[1..], y[1..]);
    RankOrders(x, y);
  }

  /** The keys of a tree in which two children have to merge. */
  function MergeKeys(): (r: seq<ByteString>)
    ensures |r| == 19
  {
    [[0], Zeros(70), [0, 1], [1] + Zeros(69)] + Bigs(2, 15)
  }

  lemma MergeAscends()
    ensures Shaped(MergeKeys(), 2)
  {
    hide Rank;
    var keys := MergeKeys();
    forall k {:trigger keys[k]} | 0 < k < |keys| ensures Rank(keys[k - 1]) < Rank(keys[k]) {
      if k == 1 {
        PrefixOrders(keys[0], keys[1]);
      } else if k == 3 || k == 4 {
        FirstOrders(keys[k - 1], keys[k]);
      } else {
        SecondOrders(keys[k - 1], keys[k]);
      }
    }
    StepsAscend(keys);
  }

  /** The keys of a tree in which a child has to share the keys of the next one: three more for each of the other
      children. */
  function ShareKeys(): (r: seq<ByteString>)
    ensures |r| == 64
  {
    [[0], Big(0, 0), [0, 1], [1]] + Bigs(2, 15)
    + seq(45, i requires 0 <= i < 45 => if i % 3 == 0 then Big(3, (i / 3) as Byte) else [3, (i / 3) as Byte, i % 3])
  }

  lemma ShareAscends()
    ensures Shaped(ShareKeys(), 17)
  {
    hide Rank;
    var keys := ShareKeys();
    forall k {:trigger keys[k]} | 0 < k < |keys| ensures Rank(keys[k - 1]) < Rank(keys[k]) {
      if k == 1 {
        PrefixOrders(keys[0], keys[1]);
      } else if k == 3 || k == 4 || k == 19 {
        FirstOrders(keys[k - 1], keys[k]);
      } else if k < 19 || (k - 19) % 3 == 0 {
        SecondOrders(keys[k - 1], keys[k]);
      } else {
        ThirdOrders(keys[k - 1], keys[k]);
      }
    }
    StepsAscend(keys);
  }

  /** Whether `key` cannot be removed from a tree that is as it should be, on pages that are all its own, with right
      links between all leaves. */
  ghost predicate CannotRemove(pages: Pages, t: Tree, key: ByteString) {
    && Matches(pages, t) && Wf(t, 2, 0.0, 1.0, true) && Ids(t) == multiset(pages.Keys)
    && Linked(pages, LeafIds(t), t.id) && Chain(pages, LeafIds(t)) && Back(pages, LeafIds(t))
    && LeafOf(t, key).Leaf? && |LeafOf(t, key).entries| == 1 && LeafOf(t, key).entries[0].key == key
    && GetsStuck(pages, PathTo(t, key), key)
  }

  lemma AllOfIt(flat: seq<ByteString>, n: nat, merges: bool)
    requires Shaped(flat, n) && InnerUsed(RootKeys(flat, n)) <= INNER_SIZE && Meets(flat, n, merges)
    ensures CannotRemove(TreePages(flat, n), TreeOf(flat, n), flat[2])
  {
    hide Matches, Wf, Linked, Chain, Back, GetsStuck, Meets, Ascending, InnerUsed, Ids, LeafIds, TreePages;
    TreeMatches(flat, n);
    TreeWf(flat, n);
    TreeIds(flat, n);
    TreeLinked(flat, n);
    WayDown(flat, n);
    GetsStuckHere(flat, n, merges);
  }

  /** The pages that matter when the third key is taken out. */
  lemma PagesMet(flat: seq<ByteString>, n: nat)
    requires Shaped(flat, n)
    ensures var pages := TreePages(flat, n);
      && 1 in pages && GoodInner(pages[1]) && |pages[1].keys| == 2
      && var now := Lost(pages, [0, 1], flat[2]);
      && 0 in now && GoodInner(now[0]) && now[0].keys == RootKeys(flat, n) != [] && now[0].kids[..2] == [1, 2]
      && 1 in now && GoodInner(now[1]) && now[1].keys == [flat[1]]
      && 2 in now && GoodInner(now[2]) && now[2].keys == flat[4..19]
  {
    hide Lost, Ascending;
    OneLeft(flat, n);
    var kids := KidIds(Children(flat, n));
    assert kids[..2] == [kids[0], kids[1]] == [1, 2];
    assert PageNo(flat, n, 2).keys == Child(flat, n, 1).keys == flat[4..19];
  }

  lemma MeetsMerge(flat: seq<ByteString>)
    requires Shaped(flat, 2) && |flat[1]| == |flat[3]| == 70 && flat[4..19] == Bigs(2, 15)
    ensures Meets(flat, 2, true) && InnerUsed(RootKeys(flat, 2)) <= INNER_SIZE
  {
    hide Ascending, RoomFor, Neighbours, InnerUsed, CanMerge, Lost, TreePages, Bigs;
    PagesMet(flat, 2);
    var now := Lost(TreePages(flat, 2), [0, 1], flat[2]);
    assert now[0].kids[0] == now[0].kids[..2][0] && now[0].kids[1] == now[0].kids[..2][1];
    NoRoomToMerge(now, 0, flat[1]);
    InnerUsedOne(flat[3]);
    assert RootKeys(flat, 2) == [flat[3]];
  }

  lemma MeetsShare(flat: seq<ByteString>)
    requires Shaped(flat, 17) && |flat[1]| == 255 && flat[4..19] == Bigs(2, 15)
    requires RootKeys(flat, 17) == [[1]] + Bigs(3, 15)
    ensures Meets(flat, 17, false) && InnerUsed(RootKeys(flat, 17)) <= INNER_SIZE
  {
    hide Ascending, RoomFor, Neighbours, InnerUsed, CanMerge, Lost, TreePages, Bigs;
    PagesMet(flat, 17);
    var now := Lost(TreePages(flat, 17), [0, 1], flat[2]);
    assert now[0].kids[0] == now[0].kids[..2][0] && now[0].kids[1] == now[0].kids[..2][1];
    NoRoomToShare(now, 0, flat[1]);
  }

  /** With a single key left, the first child passes the test for merging with the second one, and does not fit. */
  lemma MergeMayNotFit() returns (pages: Pages, t: Tree, key: ByteString)
    ensures key == MergeKeys()[2] && t == TreeOf(MergeKeys(), 2) && pages == TreePages(MergeKeys(), 2)
    ensures CannotRemove(pages, t, key) && Shaped(MergeKeys(), 2) && Meets(MergeKeys(), 2, true)
  {
    hide CannotRemove, Shaped, Meets, TreePages, TreeOf, RootKeys, InnerUsed;
    var flat := MergeKeys();
    MergeAscends();
    assert flat[4..19] == Bigs(2, 15);
    MeetsMerge(flat);
    AllOfIt(flat, 2, true);
    pages, t, key := TreePages(flat, 2), TreeOf(flat, 2), flat[2];
  }

  lemma ShareRoot()
    ensures ShareKeys()[4..19] == Bigs(2, 15) && RootKeys(ShareKeys(), 17) == [[1]] + Bigs(3, 15)
  {
    var keys, root := ShareKeys(), RootKeys(ShareKeys(), 17);
    forall c | 0 < c < 16 ensures root[c] == Bigs(3, 15)[c - 1] {
      assert Start(c + 1) == 19 + 3 * (c - 1);
    }
    assert root[0] == [1];
  }

  /** The first child, with a single key left, has to share the keys of the second one, and the root has no room for
      the key that then separates them. */
  lemma ShareMayNotFit() returns (pages: Pages, t: Tree, key: ByteString)
    ensures key == ShareKeys()[2] && t == TreeOf(ShareKeys(), 17) && pages == TreePages(ShareKeys(), 17)
    ensures CannotRemove(pages, t, key) && Shaped(ShareKeys(), 17) && Meets(ShareKeys(), 17, false)
  {
    hide CannotRemove, Shaped, Meets, TreePages, TreeOf, RootKeys, InnerUsed;
    var flat := ShareKeys();
    ShareAscends();
    ShareRoot();
    MeetsShare(flat);
    AllOfIt(flat, 17, false);
    pages, t, key := TreePages(flat, 17), TreeOf(flat, 17), flat[2];
  }

  /** The removal itself, on either of them. */
  method RemoveInVain(merges: bool) returns (r: RemoveResult)
    ensures r == NoRoom
  {
    hide CannotRemove, Meets, Shaped, TreePages, TreeOf, MergeKeys, ShareKeys;
    TwoKeys();
    if merges {
      ghost var pages, t, key := MergeMayNotFit();
      r := RemoveFrom(TreePages(MergeKeys(), 2), t, MergeKeys()[2]);
    } else {
      ghost var pages, t, key := ShareMayNotFit();
      r := RemoveFrom(TreePages(ShareKeys(), 17), t, ShareKeys()[2]);
    }
  }

  lemma TwoKeys()
    ensures TreeOf(MergeKeys(), 2).id == TreeOf(ShareKeys(), 17).id == 0
  {
  }

  method RemoveFrom(pages: Pages, ghost t: Tree, key: ByteString) returns (r: RemoveResult)
    requires CannotRemove(pages, t, key) && t.id == 0
    ensures r == NoRoom
  {
    hide CannotRemove, GetsStuck, LeafOf, PathTo, BTree.Valid, BTree.Contents;
    var tree := new BTree(0);
    tree.pages, tree.tree := pages, t;
    tree.root, tree.height, tree.freePages := 0, 2, [];
    IsValid(tree, key);
    r := tree.Remove(key);
  }

  lemma IsValid(tree: BTree, key: ByteString)
    requires CannotRemove(tree.pages, tree.tree, key) && tree.root == tree.tree.id && tree.height == 2
    ensures tree.Valid() && tree.Chained() && tree.BackLinked() && key in tree.Contents()
    ensures |LeafOf(tree.tree, key).entries| == 1 && GetsStuck(tree.pages, PathTo(tree.tree, key), key)
  {
    hide Matches, Wf, Linked, Chain, Back, GetsStuck, LeafOf, PathTo;
    FlatSorted(tree.tree, tree.height, 0.0, 1.0, true);
    ToMapIs(Flat(tree.tree), 0.0, 1.0);
    InLeaf(tree.tree, key);
  }

  lemma {:induction false} InLeaf(t: Tree, key: ByteString)
    requires LeafOf(t, key).Leaf?
    ensures forall e | e in LeafOf(t, key).entries :: e in Flat(t)
    decreases t
  {
    hide ChildAt;
    if t.Node? {
      var i := ChildAt(t.keys, key);
      InLeaf(t.kids[i], key);
      InKid(t.kids, i);
    }
  }

  lemma {:induction false} InKid(kids: seq<Tree>, i: nat)
    requires i < |kids|
    ensures forall e | e in Flat(kids[i]) :: e in FlatAll(kids)
  {
    if i > 0 {
      InKid(kids[1..], i - 1);
    }
  }
}
