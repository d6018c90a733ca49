/** What one step of a removal does to the tree: a page loses a child, and a page left with a single
    key is merged with a neighbour or takes children over from it. */
module TreeRemove {
  import opened ByteStrings
  import opened Nodes
  import opened Trees
  import opened TreeInsert
  import opened TreeSteps

  /** Page `id` still names the dead page `dead` as its child number `n`; `kids` are the others. */
  datatype Gap = Gap(up: Ctx, id: nat, keys: seq<ByteString>, n: nat, kids: seq<Tree>, dead: nat)

  /** The separators left when child `n` goes. */
  function GapKeys(keys: seq<ByteString>, n: nat): seq<ByteString>
    requires keys != [] && n <= |keys|
  {
    if n == 0 then keys[1..] else keys[..n - 1] + keys[n..]
  }

  ghost predicate GapOk(g: Gap, h: nat) {
    && |g.kids| == |g.keys| >= (if g.up.Top? then 1 else 2) && g.n <= |g.keys|
    && CtxOk(g.up, h + 1) && (g.up.In? ==> |g.up.left| <= |g.up.keys|)
    && SortedKeys(g.keys, HoleLo(g.up), HoleHi(g.up)) && InnerUsed(g.keys) <= INNER_SIZE
    && WfKids(GapKeys(g.keys, g.n), g.kids, h, HoleLo(g.up), HoleHi(g.up))
  }

  ghost predicate GapMatches(pages: Pages, g: Gap)
    requires g.n <= |g.kids|
  {
    && g.id in pages && pages[g.id] == InnerPage(g.keys, KidIds(g.kids[..g.n]) + [g.dead] + KidIds(g.kids[g.n..]))
    && (forall i | 0 <= i < |g.kids| :: Matches(pages, g.kids[i]))
    && CtxMatches(pages, g.up, g.id)
  }

  /** `key` lies where the dead child was. */
  ghost predicate InGap(g: Gap, key: ByteString)
    requires g.n <= |g.keys| && (g.up.In? ==> |g.up.left| <= |g.up.keys|)
  {
    Low(g.keys, HoleLo(g.up), g.n) <= Rank(key) < High(g.keys, HoleHi(g.up), g.n)
  }

  ghost predicate Gone(pages: Pages, g: Gap, h: nat, slack: multiset<nat>) {
    && GapOk(g, h) && GapMatches(pages, g)
    && CtxIds(g.up) + (multiset{g.id} + IdsAll(g.kids)) + slack == multiset(pages.Keys)
  }

  lemma GapKeyAt(keys: seq<ByteString>, n: nat, i: nat)
    requires keys != [] && n <= |keys|
    ensures |GapKeys(keys, n)| == |keys| - 1
    ensures i + 1 < |keys| ==> GapKeys(keys, n)[i] == if i + 1 < n then keys[i] else keys[i + 1]
  {
  }

  lemma GapSorted(keys: seq<ByteString>, n: nat, lo: real, hi: real)
    requires SortedKeys(keys, lo, hi) && keys != [] && n <= |keys|
    ensures SortedKeys(GapKeys(keys, n), lo, hi)
  {
    hide Rank, Less, GapKeys;
    GapKeyAt(keys, n, 0);
    var gap := GapKeys(keys, n);
    forall i | 0 <= i < |gap| ensures lo < Rank(gap[i]) < hi {
      GapKeyAt(keys, n, i);
    }
    forall i, j | 0 <= i < j < |gap| ensures Rank(gap[i]) < Rank(gap[j]) {
      GapKeyAt(keys, n, i);
      GapKeyAt(keys, n, j);
    }
  }

  /** Removing a child widens its left neighbour, or the right one if there is none to the left. */
  lemma GapWf(c: Ctx, h: nat)
    requires c.In? && CtxOk(c, h)
    ensures WfKids(GapKeys(c.keys, |c.left|), c.left + c.right, h, c.lo, c.hi)
  {
    hide Rank, Less, Wf, SortedKeys;
    var n, kids := |c.left|, c.left + c.right;
    CtxFacts(c, h);
    var keys := GapKeys(c.keys, n);
    GapSorted(c.keys, n, c.lo, c.hi);
    GapBounds(c.keys, n, c.lo, c.hi);
    forall i | 0 <= i < |kids| ensures Wf(kids[i], h, Low(keys, c.lo, i), High(keys, c.hi, i), false) {
      if i < n {
        assert kids[i] == c.left[i];
        WfWiden(kids[i], h, Low(c.keys, c.lo, i), High(c.keys, c.hi, i), Low(keys, c.lo, i), High(keys, c.hi, i));
      } else {
        assert kids[i] == c.right[i - n];
        WfWiden(kids[i], h, Low(c.keys, c.lo, i + 1), High(c.keys, c.hi, i + 1), Low(keys, c.lo, i),
                High(keys, c.hi, i));
      }
    }
  }

  lemma GapBounds(keys: seq<ByteString>, n: nat, lo: real, hi: real)
    requires SortedKeys(keys, lo, hi) && keys != [] && n <= |keys|
    ensures var gap := GapKeys(keys, n);
      && (forall i | 0 <= i < n :: Low(gap, lo, i) == Low(keys, lo, i) && High(keys, hi, i) <= High(gap, hi, i))
      && (forall i | n <= i < |keys| ::
          Low(gap, lo, i) <= Low(keys, lo, i + 1) && High(gap, hi, i) == High(keys, hi, i + 1))
  {
    hide Rank, Less, GapKeys;
    GapKeyAt(keys, n, 0);
    var gap := GapKeys(keys, n);
    forall i | 0 <= i < n ensures Low(gap, lo, i) == Low(keys, lo, i) && High(keys, hi, i) <= High(gap, hi, i) {
      GapKeyAt(keys, n, i);
      if i > 0 {
        GapKeyAt(keys, n, i - 1);
      }
    }
    forall i | n <= i < |keys|
      ensures Low(gap, lo, i) <= Low(keys, lo, i + 1) && High(gap, hi, i) == High(keys, hi, i + 1)
    {
      GapKeyAt(keys, n, i);
      if i > 0 {
        GapKeyAt(keys, n, i - 1);
      }
    }
  }

  /** The code removes exactly the dead child. */
  lemma GapPage(keys: seq<ByteString>, ids: seq<nat>, n: nat, lo: real, hi: real, key: ByteString)
    requires SortedKeys(keys, lo, hi) && keys != [] && n <= |keys| && |ids| == |keys| + 1
    requires Low(keys, lo, n) <= Rank(key) < High(keys, hi, n)
    ensures InnerRemove(InnerPage(keys, ids), key) == InnerPage(GapKeys(keys, n), ids[..n] + ids[n + 1..])
  {
    hide Rank, Less;
    ChildAtIs(keys, key, n);
  }

  /** The page without its dead child. */
  ghost function Closed(g: Gap): Tree
    requires g.keys != [] && g.n <= |g.keys|
  {
    Node(g.id, GapKeys(g.keys, g.n), g.kids)
  }

  ghost predicate Shrunk(pages: Pages, g: Gap, h: nat, slack: multiset<nat>) {
    && GapOk(g, h) && CtxMatches(pages, g.up, g.id) && Matches(pages, Closed(g))
    && CtxIds(g.up) + Ids(Closed(g)) + slack == multiset(pages.Keys)
  }

  lemma GapUsed(keys: seq<ByteString>, n: nat)
    requires keys != [] && n <= |keys|
    ensures InnerUsed(GapKeys(keys, n)) <= InnerUsed(keys)
  {
    hide InnerUsed;
    var m := if n == 0 then 0 else n - 1;
    assert GapKeys(keys, n) == keys[..m] + keys[m + 1..];
    assert keys == keys[..m] + [keys[m]] + keys[m + 1..];
    Inserted(keys[..m], keys[m], keys[m + 1..]);
  }

  lemma Shrink(pages: Pages, g: Gap, h: nat, slack: multiset<nat>, key: ByteString)
    requires Gone(pages, g, h, slack) && InGap(g, key)
    ensures g.id in pages && GoodInner(pages[g.id]) && |pages[g.id].keys| > 0
    ensures Shrunk(pages[g.id := InnerRemove(pages[g.id], key)], g, h, slack)
    ensures InnerRemove(pages[g.id], key).keys == GapKeys(g.keys, g.n)
  {
    hide Rank, Less, Wf, CtxOk, CtxMatches, Matches, Ids, IdsAll, CtxIds, InnerUsed, SortedKeys, WfKids, GapOk,
         LowerBound;
    GapFacts(g, h);
    hide KidIds, InnerRemove, HoleLo, HoleHi, Low, High, Agree;
    var ids := KidIds(g.kids[..g.n]) + [g.dead] + KidIds(g.kids[g.n..]);
    GapIds(g.kids, g.n, g.dead);
    GapPage(g.keys, ids, g.n, HoleLo(g.up), HoleHi(g.up), key);
    var page := InnerRemove(pages[g.id], key);
    var pages2 := pages[g.id := page];
    SameKeys(pages, g.id, page);
    GapApart(pages, pages2, g, slack);
    FrameKids(pages, pages2, g.kids);
    FrameCtx(pages, pages2, g.up, g.id);
    NodeMatches(pages2, Closed(g));
    NodeIdsAre(Closed(g));
  }

  lemma GapIds(kids: seq<Tree>, n: nat, dead: nat)
    requires n <= |kids|
    ensures var ids := KidIds(kids[..n]) + [dead] + KidIds(kids[n..]);
      |ids| == |kids| + 1 && ids[..n] + ids[n + 1..] == KidIds(kids)
  {
  }

  lemma GapFacts(g: Gap, h: nat)
    requires GapOk(g, h)
    ensures |g.kids| == |g.keys| > 0 && g.n <= |g.keys| && (g.up.In? ==> |g.up.left| <= |g.up.keys|)
    ensures SortedKeys(g.keys, HoleLo(g.up), HoleHi(g.up)) && InnerUsed(g.keys) <= INNER_SIZE && CtxOk(g.up, h + 1)
    ensures WfKids(GapKeys(g.keys, g.n), g.kids, h, HoleLo(g.up), HoleHi(g.up))
  {
  }

  lemma NodeIdsAre(t: Tree)
    requires t.Node?
    ensures Ids(t) == multiset{t.id} + IdsAll(t.kids)
  {
  }

  lemma GapApart(pages: Pages, pages2: Pages, g: Gap, slack: multiset<nat>)
    requires CtxIds(g.up) + (multiset{g.id} + IdsAll(g.kids)) + slack == multiset(pages.Keys)
    requires forall id | id in pages && id != g.id :: id in pages2 && pages2[id] == pages[id]
    ensures Agree(pages, pages2, IdsAll(g.kids)) && Agree(pages, pages2, CtxIds(g.up))
  {
    var rest := CtxIds(g.up) + IdsAll(g.kids);
    assert multiset{g.id} + rest + slack == multiset(pages.Keys);
    Once(pages, multiset{g.id}, rest, slack);
    assert g.id in multiset{g.id};
    forall id | id in IdsAll(g.kids) || id in CtxIds(g.up) ensures id != g.id {
      assert id in rest;
    }
  }

  lemma FrameKids(pages: Pages, pages2: Pages, kids: seq<Tree>)
    requires forall i | 0 <= i < |kids| :: Matches(pages, kids[i])
    requires Agree(pages, pages2, IdsAll(kids))
    ensures forall i | 0 <= i < |kids| :: Matches(pages2, kids[i])
  {
    hide Matches, Agree, Ids, IdsAll;
    forall i | 0 <= i < |kids| ensures Matches(pages2, kids[i]) {
      IdIn(kids, i);
      AgreeSub(pages, pages2, Ids(kids[i]), IdsAll(kids));
      FrameMatches(pages, pages2, kids[i]);
    }
  }

  /** Enough keys are left: the tree is whole again. */
  lemma ShrunkSettled(pages: Pages, g: Gap, h: nat, slack: multiset<nat>)
    requires Shrunk(pages, g, h, slack) && |g.keys| >= (if g.up.Top? then 2 else 3)
    ensures Settled(pages, g.up, Closed(g), h + 1, slack)
  {
    hide Rank, Less, CtxOk, CtxMatches, Matches, Ids, CtxIds, InnerUsed, SortedKeys, WfKids, Wf;
    GapUsed(g.keys, g.n);
    WfNode(Closed(g), h + 1, HoleLo(g.up), HoleHi(g.up), g.up.Top?);
  }

  /** Only one child is left below the root: the root page takes its contents over. */
  lemma Collapse(pages: Pages, g: Gap, h: nat, slack: multiset<nat>)
    requires Shrunk(pages, g, h, slack) && |g.keys| == 1
    ensures g.up.Top? && |g.kids| == 1 && g.kids[0].id in pages && g.kids[0].id != g.id
    ensures var t := Moved(g.kids[0], g.id);
      && Settled(pages[g.id := pages[g.kids[0].id]], Top, t, h, slack + multiset{g.kids[0].id})
      && Flat(t) == FlatAll(g.kids)
      && LeafIds(t) == (if g.kids[0].Leaf? then [g.id] else LeafIdsAll(g.kids))
  {
    hide Rank, Less, SortedKeys, InnerUsed, Wf, Matches, Agree, LeafIds, Flat;
    CollapseFacts(pages, g, h, slack);
    var x := g.kids[0];
    AllOne(x);
    var pages2 := pages[g.id := pages[x.id]];
    CollapseApart(pages, pages2, g.id, x, slack);
    MovedMatches(pages, pages2, x, g.id);
    SameKeys(pages, g.id, pages[x.id]);
    MovedIds(x, g.id);
    RootMayBeSmall(x, h);
    MovedWf(x, g.id, h, 0.0, 1.0, true);
    TopIs(pages2, h, g.id);
    MovedLeaves(x, g.id);
  }

  lemma CollapseFacts(pages: Pages, g: Gap, h: nat, slack: multiset<nat>)
    requires Shrunk(pages, g, h, slack) && |g.keys| == 1
    ensures g.up.Top? && |g.kids| == 1 && g.kids == [g.kids[0]] && g.id in pages
    ensures var x := g.kids[0];
      && Wf(x, h, 0.0, 1.0, false) && Matches(pages, x) && x.id in pages
      && (x.Leaf? ==> pages[x.id].LeafPage? && pages[x.id].entries == x.entries)
      && multiset{g.id} + Ids(x) + slack == multiset(pages.Keys)
  {
    hide Rank, Less, SortedKeys, InnerUsed;
    assert Matches(pages, Closed(g).kids[0]);
    AllOne(g.kids[0]);
  }

  lemma CollapseApart(pages: Pages, pages2: Pages, id: nat, x: Tree, slack: multiset<nat>)
    requires multiset{id} + Ids(x) + slack == multiset(pages.Keys)
    requires forall i | i in pages && i != id :: i in pages2 && pages2[i] == pages[i]
    ensures Agree(pages, pages2, Ids(x) - multiset{x.id}) && x.id != id
  {
    Once(pages, multiset{id}, Ids(x), slack);
    assert id in multiset{id} && x.id in Ids(x);
  }

  lemma MovedLeaves(x: Tree, id: nat)
    ensures LeafIds(Moved(x, id)) == if x.Leaf? then [id] else LeafIds(x)
  {
  }

  lemma RootMayBeSmall(t: Tree, h: nat)
    requires Wf(t, h, 0.0, 1.0, false)
    ensures Wf(t, h, 0.0, 1.0, true)
  {
  }

  // ------------------------------------------------------------------ two neighbours

  /** Joining two pages with the separator between them. */
  lemma JoinWf(a: seq<ByteString>, x: seq<Tree>, sep: ByteString, b: seq<ByteString>, y: seq<Tree>, h: nat, lo: real,
               hi: real)
    requires WfKids(a, x, h, lo, Rank(sep)) && WfKids(b, y, h, Rank(sep), hi)
    ensures WfKids(a + [sep] + b, x + y, h, lo, hi)
  {
    hide Rank, Less, Wf, SortedKeys;
    var keys, kids := a + [sep] + b, x + y;
    JoinSorted(a, sep, b, lo, hi);
    forall i | 0 <= i < |kids| ensures Wf(kids[i], h, Low(keys, lo, i), High(keys, hi, i), false) {
      if i < |x| {
        assert kids[i] == x[i];
      } else {
        assert kids[i] == y[i - |x|];
      }
    }
  }

  lemma AscendingConcat(x: seq<ByteString>, y: seq<ByteString>)
    requires Ascending(x) && Ascending(y)
    requires forall i, j | 0 <= i < |x| && 0 <= j < |y| :: Rank(x[i]) < Rank(y[j])
    ensures Ascending(x + y)
  {
    hide Rank, Less;
  }

  lemma JoinAscending(a: seq<ByteString>, sep: ByteString, b: seq<ByteString>)
    requires Ascending(a) && Ascending(b)
    requires (forall i | 0 <= i < |a| :: Rank(a[i]) < Rank(sep)) && (forall i | 0 <= i < |b| :: Rank(sep) < Rank(b[i]))
    ensures Ascending(a + [sep] + b)
  {
    hide Rank, Less, Ascending;
    assert Ascending([sep]) by {
      Single(sep);
    }
    AscendingConcat(a, [sep]);
    AscendingConcat(a + [sep], b);
  }

  lemma Single(sep: ByteString)
    ensures Ascending([sep])
  {
  }

  lemma JoinSorted(a: seq<ByteString>, sep: ByteString, b: seq<ByteString>, lo: real, hi: real)
    requires SortedKeys(a, lo, Rank(sep)) && SortedKeys(b, Rank(sep), hi)
    ensures SortedKeys(a + [sep] + b, lo, hi)
  {
    hide Rank, Less, Ascending;
    JoinAscending(a, sep, b);
  }

  const HUGE: nat := 0x7FFF_FFFF

  /** The code subtracts before it halves. In one place it halves a signed difference, which rounds -1 to
      zero, in the other one an unsigned difference; other negative differences become huge sizes. */
  function HalfSigned(a: nat, b: nat): nat {
    if a >= b then (a - b) / 2 else if a + 1 == b then 0 else HUGE
  }

  function HalfUnsigned(a: nat, b: nat): nat {
    if a >= b then (a - b) / 2 else HUGE
  }

  /** Where the code cuts when two neighbours share their keys again. */
  function ShareAt(left: seq<ByteString>, right: seq<ByteString>): nat {
    var bl, br := Sum(SlotSizes(left)), Sum(SlotSizes(right));
    if InnerUsed(left) < InnerUsed(right)
    then SplitPoint(SlotSizes(right), HalfSigned(br, bl))
    else SplitPoint(SlotSizes(left), if HalfUnsigned(bl, br) <= bl then bl - HalfUnsigned(bl, br) else HUGE)
  }

  function Redistribute(l: NodePage, r: NodePage, sep: ByteString): (NodePage, ByteString, NodePage)
    requires GoodInner(l) && GoodInner(r)
    requires ShareAt(l.keys, r.keys) < (if InnerUsed(l.keys) < InnerUsed(r.keys) then |r.keys| else |l.keys|)
  {
    var m := ShareAt(l.keys, r.keys);
    if InnerUsed(l.keys) < InnerUsed(r.keys) then
      var wide := InnerInsert(l, sep, r.kids[0]);
      (InnerPage(wide.keys + r.keys[..m], wide.kids + r.kids[1..m + 1]), r.keys[m],
       InnerPage(r.keys[m + 1..], r.kids[m + 1..]))
    else
      var wide := InnerInsert(r, sep, r.kids[0]);
      (InnerPage(l.keys[..m], l.kids[..m + 1]), l.keys[m],
       InnerPage(l.keys[m + 1..] + wide.keys, l.kids[m + 1..] + wide.kids[1..]))
  }

  function Merge(l: NodePage, r: NodePage, sep: ByteString): NodePage
    requires GoodInner(l) && GoodInner(r)
  {
    var wide := InnerInsert(l, sep, r.kids[0]);
    InnerPage(wide.keys + r.keys, wide.kids + r.kids[1..])
  }

  lemma {:induction false} InsertLast(keys: seq<ByteString>, kids: seq<nat>, sep: ByteString, right: nat, lo: real)
    requires SortedKeys(keys, lo, Rank(sep)) && |kids| == |keys| + 1
    ensures InnerInsert(InnerPage(keys, kids), sep, right) == InnerPage(keys + [sep], kids + [right])
  {
    hide Rank, Less, LowerBound;
    LowerBoundIs(keys, sep, |keys|);
  }

  lemma {:induction false} InsertFirst(keys: seq<ByteString>, kids: seq<nat>, sep: ByteString, right: nat, hi: real)
    requires SortedKeys(keys, Rank(sep), hi) && |kids| == |keys| + 1
    ensures InnerInsert(InnerPage(keys, kids), sep, right) == InnerPage([sep] + keys, [kids[0], right] + kids[1..])
  {
    hide Rank, Less, LowerBound;
    LowerBoundIs(keys, sep, 0);
  }

  lemma MergeIs(l: NodePage, r: NodePage, sep: ByteString, lo: real)
    requires GoodInner(l) && GoodInner(r) && SortedKeys(l.keys, lo, Rank(sep))
    ensures Merge(l, r, sep) == InnerPage(l.keys + [sep] + r.keys, l.kids + r.kids)
  {
    hide Rank, Less, LowerBound, SortedKeys;
    InsertLast(l.keys, l.kids, sep, r.kids[0], lo);
  }

  /** Where the shared keys are cut, counted in the joined page. */
  ghost function JointCut(left: seq<ByteString>, right: seq<ByteString>): nat {
    if InnerUsed(left) < InnerUsed(right) then |left| + 1 + ShareAt(left, right) else ShareAt(left, right)
  }

  lemma RedistributeIs(l: NodePage, r: NodePage, sep: ByteString, lo: real, hi: real)
    requires GoodInner(l) && GoodInner(r) && SortedKeys(l.keys, lo, Rank(sep)) && SortedKeys(r.keys, Rank(sep), hi)
    requires ShareAt(l.keys, r.keys) < (if InnerUsed(l.keys) < InnerUsed(r.keys) then |r.keys| else |l.keys|)
    ensures var keys, kids, q := l.keys + [sep] + r.keys, l.kids + r.kids, JointCut(l.keys, r.keys);
      && q < |keys|
      && Redistribute(l, r, sep)
         == (InnerPage(keys[..q], kids[..q + 1]), keys[q], InnerPage(keys[q + 1..], kids[q + 1..]))
  {
    hide Rank, Less, LowerBound, SortedKeys, ShareAt, InnerUsed, InnerInsert;
    if InnerUsed(l.keys) < InnerUsed(r.keys) {
      InsertLast(l.keys, l.kids, sep, r.kids[0], lo);
      CutInRight(l.keys, l.kids, sep, r.keys, r.kids, ShareAt(l.keys, r.keys));
    } else {
      InsertFirst(r.keys, r.kids, sep, r.kids[0], hi);
      CutInLeft(l.keys, l.kids, sep, r.keys, r.kids, ShareAt(l.keys, r.keys));
    }
  }

  lemma CutInRight(a: seq<ByteString>, x: seq<nat>, sep: ByteString, b: seq<ByteString>, y: seq<nat>, m: nat)
    requires |x| == |a| + 1 && |y| == |b| + 1 && m < |b|
    ensures var keys, kids, q := a + [sep] + b, x + y, |a| + 1 + m;
      && keys[..q] == a + [sep] + b[..m] && keys[q] == b[m] && keys[q + 1..] == b[m + 1..]
      && kids[..q + 1] == x + [y[0]] + y[1..m + 1] && kids[q + 1..] == y[m + 1..]
  {
  }

  lemma CutInLeft(a: seq<ByteString>, x: seq<nat>, sep: ByteString, b: seq<ByteString>, y: seq<nat>, m: nat)
    requires |x| == |a| + 1 && |y| == |b| + 1 && m < |a|
    ensures var keys, kids := a + [sep] + b, x + y;
      && keys[..m] == a[..m] && keys[m] == a[m] && keys[m + 1..] == a[m + 1..] + ([sep] + b)
      && kids[..m + 1] == x[..m + 1] && kids[m + 1..] == x[m + 1..] + ([y[0], y[0]] + y[1..])[1..]
  {
  }

  lemma SizesBound(keys: seq<ByteString>)
    ensures 5 * |keys| <= Sum(SlotSizes(keys)) <= 260 * |keys|
  {
    SumBounds(SlotSizes(keys), 5, 260);
  }

  /** A page with a single key next to one it cannot be merged with: both get at least two keys, and
      both fit, whatever the lengths of the keys. */
  lemma RedistributeFits(left: seq<ByteString>, sep: ByteString, right: seq<ByteString>)
    requires InnerUsed(left) <= INNER_SIZE && InnerUsed(right) <= INNER_SIZE && !CanMerge(left, sep, right)
    requires |left| == 1 || |right| == 1
    ensures ShareAt(left, right) < (if InnerUsed(left) < InnerUsed(right) then |right| else |left|)
    ensures var keys, q := left + [sep] + right, JointCut(left, right);
      && 2 <= q && q + 3 <= |keys|
      && InnerUsed(keys[..q]) <= INNER_SIZE && InnerUsed(keys[q + 1..]) <= INNER_SIZE
  {
    hide CanMerge, ShareAt, SlotSizes;
    SizesBound(left);
    SizesBound(right);
    BigOne(left, sep, right);
    if InnerUsed(left) < InnerUsed(right) {
      ShareRight(left, sep, right);
    } else {
      ShareLeft(left, sep, right);
    }
  }

  lemma BigOne(left: seq<ByteString>, sep: ByteString, right: seq<ByteString>)
    requires !CanMerge(left, sep, right)
    ensures InnerUsed(left) + InnerUsed(right) >= 3823
  {
  }

  lemma ShareRight(left: seq<ByteString>, sep: ByteString, right: seq<ByteString>)
    requires InnerUsed(right) <= INNER_SIZE && InnerUsed(left) + InnerUsed(right) >= 3823
    requires InnerUsed(left) < InnerUsed(right) && (|left| == 1 || |right| == 1)
    ensures ShareAt(left, right) < |right|
    ensures var keys, q := left + [sep] + right, |left| + 1 + ShareAt(left, right);
      && 2 <= q && q + 3 <= |keys|
      && InnerUsed(keys[..q]) <= INNER_SIZE && InnerUsed(keys[q + 1..]) <= INNER_SIZE
  {
    hide SlotSizes, InnerUsed, ShareAt;
    var keys := left + [sep] + right;
    SizesBound(left);
    SizesBound(right);
    var m := ShareAt(left, right);
    ShareRightAt(left, right);
    SlotSizesSplit(right, m);
    var q := |left| + 1 + m;
    assert keys[..q] == left + [sep] + right[..m] && keys[q + 1..] == right[m + 1..];
    InnerUsedAppend(left, [sep]);
    InnerUsedAppend(left + [sep], right[..m]);
    InnerUsedOne(sep);
    UsedIs(left);
    UsedIs(right);
    UsedIs(right[..m]);
    UsedIs(right[m + 1..]);
  }

  lemma ShareRightAt(left: seq<ByteString>, right: seq<ByteString>)
    requires InnerUsed(left) < InnerUsed(right) && InnerUsed(left) + InnerUsed(right) >= 3823
    requires (|left| == 1 || |right| == 1)
    ensures var m, bl, br := ShareAt(left, right), Sum(SlotSizes(left)), Sum(SlotSizes(right));
      && m < |right| && br >= bl
      && Sum(SlotSizes(right)[..m]) <= (br - bl) / 2 < Sum(SlotSizes(right)[..m + 1])
  {
    SizesBound(left);
    SizesBound(right);
    var sizes := SlotSizes(right);
    assert sizes[..|sizes|] == sizes;
    hide SlotSizes;
  }

  lemma {:induction false} ShareLeft(left: seq<ByteString>, sep: ByteString, right: seq<ByteString>)
    requires InnerUsed(left) <= INNER_SIZE && InnerUsed(left) + InnerUsed(right) >= 3823
    requires InnerUsed(left) >= InnerUsed(right) && (|left| == 1 || |right| == 1)
    ensures ShareAt(left, right) < |left|
    ensures var keys, q := left + [sep] + right, ShareAt(left, right);
      && 2 <= q && q + 3 <= |keys|
      && InnerUsed(keys[..q]) <= INNER_SIZE && InnerUsed(keys[q + 1..]) <= INNER_SIZE
  {
    hide SlotSizes, InnerUsed, ShareAt;
    var keys := left + [sep] + right;
    SizesBound(left);
    SizesBound(right);
    var m := ShareAt(left, right);
    ShareLeftAt(left, right);
    SlotSizesSplit(left, m);
    assert keys[..m] == left[..m] && keys[m + 1..] == left[m + 1..] + [sep] + right;
    InnerUsedAppend(left[m + 1..], [sep]);
    InnerUsedAppend(left[m + 1..] + [sep], right);
    InnerUsedOne(sep);
    UsedIs(left);
    UsedIs(left[..m]);
    UsedIs(left[m + 1..]);
    UsedIs(right);
  }

  lemma UsedIs(keys: seq<ByteString>)
    ensures InnerUsed(keys) == Sum(SlotSizes(keys)) + 2 * |keys|
  {
  }

  lemma ShareLeftAt(left: seq<ByteString>, right: seq<ByteString>)
    requires InnerUsed(left) >= InnerUsed(right) && InnerUsed(left) + InnerUsed(right) >= 3823
    requires (|left| == 1 || |right| == 1)
    ensures var m, bl, br := ShareAt(left, right), Sum(SlotSizes(left)), Sum(SlotSizes(right));
      && m < |left| && bl >= br
      && Sum(SlotSizes(left)[..m]) <= bl - (bl - br) / 2 < Sum(SlotSizes(left)[..m + 1])
  {
    SizesBound(left);
    SizesBound(right);
    var sizes := SlotSizes(left);
    assert sizes[..|sizes|] == sizes;
    hide SlotSizes;
  }
}
