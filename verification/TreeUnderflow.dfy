/** A page with a single key left, its neighbour, and the page above them. */
module TreeUnderflow {
  import opened ByteStrings
  import opened Nodes
  import opened Trees
  import opened TreeInsert
  import opened TreeSteps
  import opened TreeRemove

  /** The separator next to the child that holds `key`, preferring the one on its right. */
  function FindKey(keys: seq<ByteString>, key: ByteString): (i: nat)
    requires keys != []
    ensures i < |keys|
  {
    var i := LowerBound(keys, key);
    if i == |keys| then i - 1 else i
  }

  lemma FindKeyIs(keys: seq<ByteString>, key: ByteString, j: nat)
    requires Ascending(keys) && keys != [] && j <= |keys|
    requires j > 0 ==> Rank(keys[j - 1]) <= Rank(key)
    requires j < |keys| ==> Rank(key) < Rank(keys[j])
    ensures FindKey(keys, key) == j || FindKey(keys, key) + 1 == j
  {
    hide Rank, Less, LowerBound;
  }

  /** The children of the page above, the one with the single key among them. */
  ghost function Siblings(g: Gap): seq<Tree>
    requires g.up.In? && g.keys != [] && g.n <= |g.keys|
  {
    g.up.left + [Closed(g)] + g.up.right
  }

  /** Children `i` and `i + 1` are the one with the single key and a neighbour. */
  ghost predicate Pair(g: Gap, h: nat, i: nat) {
    && g.up.In? && GapOk(g, h) && |g.keys| == 2 && i < |g.up.keys|
    && (i == |g.up.left| || i + 1 == |g.up.left|)
  }

  ghost predicate Inner(t: Tree, h: nat, lo: real, hi: real) {
    t.Node? && WfKids(t.keys, t.kids, h, lo, hi) && InnerUsed(t.keys) <= INNER_SIZE
  }

  /** Every child but these two is as it was. */
  ghost predicate Others(keys: seq<ByteString>, kids: seq<Tree>, i: nat, h: nat, lo: real, hi: real)
    requires |kids| == |keys| + 1
  {
    forall t | 0 <= t < |kids| && t != i && t != i + 1 :: Wf(kids[t], h, Low(keys, lo, t), High(keys, hi, t), false)
  }

  lemma WfInner(t: Tree, h: nat, lo: real, hi: real)
    requires Wf(t, h + 1, lo, hi, false)
    ensures Inner(t, h, lo, hi) && |t.keys| >= 2
  {
  }

  lemma PairInner(g: Gap, h: nat, i: nat)
    requires Pair(g, h, i)
    ensures |Siblings(g)| == |g.up.keys| + 1
    ensures Inner(Siblings(g)[i], h, Low(g.up.keys, g.up.lo, i), Rank(g.up.keys[i]))
    ensures Inner(Siblings(g)[i + 1], h, Rank(g.up.keys[i]), High(g.up.keys, g.up.hi, i + 1))
    ensures |Siblings(g)[i].keys| == 1 || |Siblings(g)[i + 1].keys| == 1
    ensures |Siblings(g)[i].keys| >= 1 && |Siblings(g)[i + 1].keys| >= 1
  {
    hide Rank, Less, Wf, SortedKeys, InnerUsed, WfKids;
    var p, kids := g.up, Siblings(g);
    GapUsed(g.keys, g.n);
    assert Inner(Closed(g), h, HoleLo(p), HoleHi(p));
    if i == |p.left| {
      assert kids[i] == Closed(g) && kids[i + 1] == p.right[0];
      WfInner(p.right[0], h, Low(p.keys, p.lo, i + 1), High(p.keys, p.hi, i + 1));
    } else {
      assert kids[i + 1] == Closed(g) && kids[i] == p.left[i];
      WfInner(p.left[i], h, Low(p.keys, p.lo, i), High(p.keys, p.hi, i));
    }
  }

  lemma PairOthers(g: Gap, h: nat, i: nat)
    requires Pair(g, h, i)
    ensures |Siblings(g)| == |g.up.keys| + 1
    ensures Others(g.up.keys, Siblings(g), i, h + 1, g.up.lo, g.up.hi)
    ensures SortedKeys(g.up.keys, g.up.lo, g.up.hi) && InnerUsed(g.up.keys) <= INNER_SIZE && CtxOk(g.up.up, h + 2)
    ensures g.up.lo == HoleLo(g.up.up) && g.up.hi == HoleHi(g.up.up) && |g.up.keys| >= (if g.up.up.Top? then 1 else 2)
    ensures g.up.up.In? ==> |g.up.up.left| <= |g.up.up.keys|
  {
    hide Rank, Less, Wf, SortedKeys, InnerUsed, WfKids;
    var p, kids := g.up, Siblings(g);
    assert CtxOk(p, h + 1);
    forall t | 0 <= t < |kids| && t != i && t != i + 1
      ensures Wf(kids[t], h + 1, Low(p.keys, p.lo, t), High(p.keys, p.hi, t), false)
    {
      if t < |p.left| {
        assert kids[t] == p.left[t];
      } else {
        assert kids[t] == p.right[t - |p.left| - 1];
      }
    }
  }

  /** The pages of the two, of the page above, and of everything else are different pages. */
  lemma {:induction false} PairPages(pages: Pages, g: Gap, h: nat, slack: multiset<nat>, i: nat)
    requires Pair(g, h, i) && Shrunk(pages, g, h, slack)
    ensures var p, kids := g.up, Siblings(g);
      && |kids| == |p.keys| + 1 && p.id in pages && pages[p.id] == InnerPage(p.keys, KidIds(kids))
      && CtxMatches(pages, p.up, p.id) && (forall t | 0 <= t < |kids| :: Matches(pages, kids[t]))
      && CtxIds(p.up) + (multiset{p.id} + IdsAll(kids)) + slack == multiset(pages.Keys)
  {
    hide Rank, Less, Matches, SortedKeys, InnerUsed, WfKids, Wf, IdsAll, Ids, KidIds, CtxMatches, CtxOk;
    var p, kids := g.up, Siblings(g);
    CtxFacts(p, h + 1);
    CtxKid(pages, p, g.id);
    KidIdsAround(p.left, Closed(g), p.right);
    AllAround(p.left, Closed(g), p.right);
    UpIds(p, Ids(Closed(g)));
    forall t | 0 <= t < |kids| ensures Matches(pages, kids[t]) {
      if t < |p.left| {
        assert kids[t] == p.left[t];
      } else if t > |p.left| {
        assert kids[t] == p.right[t - |p.left| - 1];
      }
    }
  }

  lemma KidIdsAround(a: seq<Tree>, t: Tree, b: seq<Tree>)
    ensures KidIds(a + [t] + b) == KidIds(a) + [t.id] + KidIds(b)
  {
  }

  lemma UpIds(c: Ctx, ids: multiset<nat>)
    requires c.In?
    ensures CtxIds(c) + ids == CtxIds(c.up) + (multiset{c.id} + (IdsAll(c.left) + ids + IdsAll(c.right)))
  {
    hide IdsAll;
  }

  // ------------------------------------------------------------------ replacing two children

  ghost function Replaced(kids: seq<Tree>, i: nat, mids: seq<Tree>): seq<Tree>
    requires i + 2 <= |kids|
  {
    kids[..i] + mids + kids[i + 2..]
  }

  lemma {:induction false} ReplacedIds(kids: seq<Tree>, i: nat)
    requires i + 2 <= |kids|
    ensures IdsAll(kids) == IdsAll(kids[..i]) + IdsAll(kids[i + 2..]) + Ids(kids[i]) + Ids(kids[i + 1])
    ensures FlatAll(kids) == FlatAll(kids[..i]) + (Flat(kids[i]) + Flat(kids[i + 1])) + FlatAll(kids[i + 2..])
    ensures LeafIdsAll(kids) == LeafIdsAll(kids[..i]) + (LeafIds(kids[i]) + LeafIds(kids[i + 1]))
            + LeafIdsAll(kids[i + 2..])
  {
    hide FlatAll, LeafIdsAll, IdsAll, Flat, LeafIds, Ids;
    var x, l, r, y := kids[..i], kids[i], kids[i + 1], kids[i + 2..];
    assert kids == x + [l] + [r] + y;
    TwoAround(x, l, r, y);
  }

  lemma TwoAround(x: seq<Tree>, l: Tree, r: Tree, y: seq<Tree>)
    ensures IdsAll(x + [l] + [r] + y) == IdsAll(x) + IdsAll(y) + Ids(l) + Ids(r)
    ensures FlatAll(x + [l] + [r] + y) == FlatAll(x) + (Flat(l) + Flat(r)) + FlatAll(y)
    ensures LeafIdsAll(x + [l] + [r] + y) == LeafIdsAll(x) + (LeafIds(l) + LeafIds(r)) + LeafIdsAll(y)
  {
    hide FlatAll, LeafIdsAll, IdsAll, Flat, LeafIds, Ids;
    AllAround(x + [l], r, y);
    AllAppend(x, [l]);
    AllOne(l);
    Apart4(FlatAll(x), Flat(l), Flat(r), FlatAll(y));
    Apart4(LeafIdsAll(x), LeafIds(l), LeafIds(r), LeafIdsAll(y));
  }

  lemma Apart4<T>(a: seq<T>, b: seq<T>, c: seq<T>, d: seq<T>)
    ensures a + b + c + d == a + (b + c) + d
  {
  }

  lemma ReplacedContents(kids: seq<Tree>, i: nat, mids: seq<Tree>)
    requires i + 2 <= |kids|
    ensures IdsAll(Replaced(kids, i, mids)) == IdsAll(kids[..i]) + IdsAll(mids) + IdsAll(kids[i + 2..])
    ensures FlatAll(Replaced(kids, i, mids)) == FlatAll(kids[..i]) + FlatAll(mids) + FlatAll(kids[i + 2..])
    ensures LeafIdsAll(Replaced(kids, i, mids)) == LeafIdsAll(kids[..i]) + LeafIdsAll(mids) + LeafIdsAll(kids[i + 2..])
  {
    AllAppend(kids[..i] + mids, kids[i + 2..]);
    AllAppend(kids[..i], mids);
  }

  lemma {:induction false} KeySwapped(keys: seq<ByteString>, i: nat, mid: ByteString, lo: real, hi: real)
    requires SortedKeys(keys, lo, hi) && i < |keys| && Low(keys, lo, i) < Rank(mid) < High(keys, hi, i + 1)
    ensures SortedKeys(keys[i := mid], lo, hi)
  {
    hide Rank, Less, Ascending, SortedKeys;
    GapSorted(keys, i + 1, lo, hi);
    var gap := GapKeys(keys, i + 1);
    SwapIs(keys, i, mid);
    KeysAround(gap, i, mid, lo, hi);
  }

  lemma SwapIs(keys: seq<ByteString>, i: nat, mid: ByteString)
    requires i < |keys|
    ensures var gap := GapKeys(keys, i + 1);
      |gap| == |keys| - 1 && gap[..i] + [mid] + gap[i..] == keys[i := mid]
      && (i > 0 ==> gap[i - 1] == keys[i - 1]) && (i < |gap| ==> gap[i] == keys[i + 1])
  {
    var gap := GapKeys(keys, i + 1);
    assert gap == keys[..i] + keys[i + 1..];
  }

  lemma TwoWf(keys: seq<ByteString>, kids: seq<Tree>, i: nat, mid: ByteString, a: Tree, b: Tree, h: nat, lo: real,
              hi: real)
    requires |kids| == |keys| + 1 && SortedKeys(keys, lo, hi) && i < |keys| && Others(keys, kids, i, h, lo, hi)
    requires Low(keys, lo, i) < Rank(mid) < High(keys, hi, i + 1)
    requires Wf(a, h, Low(keys, lo, i), Rank(mid), false) && Wf(b, h, Rank(mid), High(keys, hi, i + 1), false)
    ensures WfKids(keys[i := mid], Replaced(kids, i, [a, b]), h, lo, hi)
  {
    hide Rank, Less, Wf, SortedKeys;
    KeySwapped(keys, i, mid, lo, hi);
    var keys2, kids2 := keys[i := mid], Replaced(kids, i, [a, b]);
    forall t | 0 <= t < |kids2| ensures Wf(kids2[t], h, Low(keys2, lo, t), High(keys2, hi, t), false) {
      if t == i {
        assert kids2[t] == a;
      } else if t == i + 1 {
        assert kids2[t] == b;
      } else {
        assert kids2[t] == kids[t];
        assert Low(keys2, lo, t) == Low(keys, lo, t) && High(keys2, hi, t) == High(keys, hi, t);
      }
    }
  }

  lemma OneWf(keys: seq<ByteString>, kids: seq<Tree>, i: nat, m: Tree, h: nat, lo: real, hi: real)
    requires |kids| == |keys| + 1 && SortedKeys(keys, lo, hi) && i < |keys| && Others(keys, kids, i, h, lo, hi)
    requires Wf(m, h, Low(keys, lo, i), High(keys, hi, i + 1), false)
    ensures WfKids(GapKeys(keys, i + 1), Replaced(kids, i, [m]), h, lo, hi)
  {
    hide Rank, Less, Wf, SortedKeys;
    GapSorted(keys, i + 1, lo, hi);
    var keys2, kids2 := GapKeys(keys, i + 1), Replaced(kids, i, [m]);
    assert keys2 == keys[..i] + keys[i + 1..];
    forall t | 0 <= t < |kids2| ensures Wf(kids2[t], h, Low(keys2, lo, t), High(keys2, hi, t), false) {
      if t < i {
        assert kids2[t] == kids[t];
      } else if t == i {
        assert kids2[t] == m;
      } else {
        assert kids2[t] == kids[t + 1];
      }
    }
  }

  // ------------------------------------------------------------------ frames for the two steps

  lemma PairApart(pages: Pages, pages2: Pages, p: Ctx, kids: seq<Tree>, i: nat, slack: multiset<nat>)
    requires p.In? && i + 2 <= |kids|
    requires CtxIds(p.up) + (multiset{p.id} + IdsAll(kids)) + slack == multiset(pages.Keys)
    requires kids[i].Node? && kids[i + 1].Node?
    requires forall id | id in pages && id != p.id && id != kids[i].id && id != kids[i + 1].id ::
             id in pages2 && pages2[id] == pages[id]
    ensures Agree(pages, pages2, CtxIds(p.up)) && Agree(pages, pages2, IdsAll(kids[..i]))
    ensures Agree(pages, pages2, IdsAll(kids[i + 2..]))
    ensures Agree(pages, pages2, IdsAll(kids[i].kids)) && Agree(pages, pages2, IdsAll(kids[i + 1].kids))
    ensures p.id != kids[i].id && p.id != kids[i + 1].id && kids[i].id != kids[i + 1].id
  {
    var l, r := kids[i], kids[i + 1];
    ReplacedIds(kids, i);
    var x, y := IdsAll(kids[..i]), IdsAll(kids[i + 2..]);
    var three := multiset{p.id} + multiset{l.id} + multiset{r.id};
    var rest := CtxIds(p.up) + x + y + IdsAll(l.kids) + IdsAll(r.kids);
    Six(CtxIds(p.up), multiset{p.id}, x, y, multiset{l.id}, IdsAll(l.kids), multiset{r.id}, IdsAll(r.kids));
    Once(pages, three, rest, slack);
    Distinct(pages, p.id, l.id, r.id, rest + slack);
    assert p.id in three && l.id in three && r.id in three;
    forall id | id in rest ensures id != p.id && id != l.id && id != r.id {
    }
    AgreeRest(pages, pages2, rest, p.id, l.id, r.id);
    assert CtxIds(p.up) <= rest && x <= rest && y <= rest && IdsAll(l.kids) <= rest && IdsAll(r.kids) <= rest;
    AgreeSub(pages, pages2, CtxIds(p.up), rest);
    AgreeSub(pages, pages2, x, rest);
    AgreeSub(pages, pages2, y, rest);
    AgreeSub(pages, pages2, IdsAll(l.kids), rest);
    AgreeSub(pages, pages2, IdsAll(r.kids), rest);
  }

  lemma AgreeRest(pages: Pages, pages2: Pages, rest: multiset<nat>, a: nat, b: nat, c: nat)
    requires forall id | id in rest :: id != a && id != b && id != c
    requires forall id | id in pages && id != a && id != b && id != c :: id in pages2 && pages2[id] == pages[id]
    ensures Agree(pages, pages2, rest)
  {
  }

  lemma Six(c: multiset<nat>, p: multiset<nat>, x: multiset<nat>, y: multiset<nat>, l: multiset<nat>, lk: multiset<nat>,
            r: multiset<nat>, rk: multiset<nat>)
    ensures c + (p + (x + y + (l + lk) + (r + rk))) == (p + l + r) + (c + x + y + lk + rk)
  {
  }

  lemma Distinct(pages: Pages, a: nat, b: nat, c: nat, rest: multiset<nat>)
    requires multiset{a} + multiset{b} + multiset{c} + rest == multiset(pages.Keys)
    ensures a != b && a != c && b != c
  {
    var m := multiset{a} + multiset{b} + multiset{c} + rest;
    assert m[a] <= 1 && m[b] <= 1;
  }

  // ------------------------------------------------------------------ the two outcomes

  /** Every child outside the two, and the children of the two, are still on their pages. */
  lemma PairFrame(pages: Pages, pages2: Pages, p: Ctx, kids: seq<Tree>, i: nat, slack: multiset<nat>)
    requires p.In? && i + 2 <= |kids|
    requires CtxIds(p.up) + (multiset{p.id} + IdsAll(kids)) + slack == multiset(pages.Keys)
    requires kids[i].Node? && kids[i + 1].Node? && forall t | 0 <= t < |kids| :: Matches(pages, kids[t])
    requires forall id | id in pages && id != p.id && id != kids[i].id && id != kids[i + 1].id ::
             id in pages2 && pages2[id] == pages[id]
    ensures forall t | 0 <= t < |kids| && t != i && t != i + 1 :: Matches(pages2, kids[t])
    ensures var joined := kids[i].kids + kids[i + 1].kids; forall t | 0 <= t < |joined| :: Matches(pages2, joined[t])
    ensures CtxMatches(pages, p.up, p.id) ==> CtxMatches(pages2, p.up, p.id)
    ensures p.id != kids[i].id && p.id != kids[i + 1].id && kids[i].id != kids[i + 1].id
  {
    hide CtxMatches, CtxIds, Agree, KidIds, IdsAll;
    PairApart(pages, pages2, p, kids, i, slack);
    var l, r := kids[i], kids[i + 1];
    NodeKids(pages, l);
    NodeKids(pages, r);
    FrameKids(pages, pages2, kids[..i]);
    FrameKids(pages, pages2, kids[i + 2..]);
    FrameKids(pages, pages2, l.kids);
    FrameKids(pages, pages2, r.kids);
    if CtxMatches(pages, p.up, p.id) {
      FrameCtx(pages, pages2, p.up, p.id);
    }
    forall t | 0 <= t < |kids| && t != i && t != i + 1 ensures Matches(pages2, kids[t]) {
      if t < i {
        assert kids[t] == kids[..i][t];
      } else {
        assert kids[t] == kids[i + 2..][t - i - 2];
      }
    }
  }

  lemma NodeKids(pages: Pages, t: Tree)
    requires t.Node? && Matches(pages, t)
    ensures t.id in pages && pages[t.id] == InnerPage(t.keys, KidIds(t.kids))
    ensures forall i | 0 <= i < |t.kids| :: Matches(pages, t.kids[i])
  {
  }

  lemma ReplacedMatches(pages: Pages, kids: seq<Tree>, i: nat, mids: seq<Tree>)
    requires i + 2 <= |kids| && forall t | 0 <= t < |kids| && t != i && t != i + 1 :: Matches(pages, kids[t])
    requires forall t | 0 <= t < |mids| :: Matches(pages, mids[t])
    ensures var kids2 := Replaced(kids, i, mids); forall t | 0 <= t < |kids2| :: Matches(pages, kids2[t])
  {
    hide Matches;
    var kids2 := Replaced(kids, i, mids);
    forall t | 0 <= t < |kids2| ensures Matches(pages, kids2[t]) {
      if i <= t < i + |mids| {
        assert kids2[t] == mids[t - i];
      } else if t >= i {
        assert kids2[t] == kids[t - |mids| + 2];
      }
    }
  }

  /** The page above gets the new separator in the old one's place. */
  lemma SwapPage(keys: seq<ByteString>, ids: seq<nat>, i: nat, mid: ByteString, lo: real, hi: real)
    requires SortedKeys(keys, lo, hi) && i < |keys| && |ids| == |keys| + 1
    requires Low(keys, lo, i) < Rank(mid) < High(keys, hi, i + 1)
    ensures InnerInsert(InnerRemove(InnerPage(keys, ids), keys[i]), mid, ids[i + 1]) == InnerPage(keys[i := mid], ids)
  {
    hide Rank, Less, LowerBound, InnerRemove, InnerInsert, SortedKeys, GapKeys;
    AboveKey(keys, lo, hi, i);
    GapPage(keys, ids, i + 1, lo, hi, keys[i]);
    var gap := GapKeys(keys, i + 1);
    GapSorted(keys, i + 1, lo, hi);
    GapAgain(keys, ids, i, mid);
    GapEnds(keys, i, lo, hi);
    KeysAround(gap, i, mid, lo, hi);
    InsertAt(gap, ids[..i + 1] + ids[i + 2..], mid, ids[i + 1], i);
  }

  lemma InsertAt(keys: seq<ByteString>, ids: seq<nat>, key: ByteString, right: nat, i: nat)
    requires LowerBound(keys, key) == i && |ids| == |keys| + 1
    ensures InnerInsert(InnerPage(keys, ids), key, right)
         == InnerPage(keys[..i] + [key] + keys[i..], ids[..i + 1] + [right] + ids[i + 1..])
  {
    hide LowerBound;
  }

  lemma GapEnds(keys: seq<ByteString>, i: nat, lo: real, hi: real)
    requires i < |keys|
    ensures |GapKeys(keys, i + 1)| == |keys| - 1
    ensures Low(GapKeys(keys, i + 1), lo, i) == Low(keys, lo, i)
    ensures High(GapKeys(keys, i + 1), hi, i) == High(keys, hi, i + 1)
  {
    hide Rank;
  }

  lemma GapAgain(keys: seq<ByteString>, ids: seq<nat>, i: nat, mid: ByteString)
    requires i < |keys| && |ids| == |keys| + 1
    ensures var gap, rest := GapKeys(keys, i + 1), ids[..i + 1] + ids[i + 2..];
      gap[..i] + [mid] + gap[i..] == keys[i := mid] && rest[..i + 1] + [ids[i + 1]] + rest[i + 1..] == ids
  {
  }

  lemma AboveKey(keys: seq<ByteString>, lo: real, hi: real, i: nat)
    requires SortedKeys(keys, lo, hi) && i < |keys|
    ensures Rank(keys[i]) < High(keys, hi, i + 1) && Low(keys, lo, i) < Rank(keys[i])
    ensures lo <= Low(keys, lo, i) && High(keys, hi, i + 1) <= hi
  {
    hide Rank, Less;
  }

  /** The two share their children again; `cut` says where. */
  ghost function SharedLeft(l: Tree, r: Tree, sep: ByteString, q: nat): Tree
    requires l.Node? && r.Node? && q <= |l.keys| + |r.keys| && |l.kids| + |r.kids| > q
  {
    Node(l.id, (l.keys + [sep] + r.keys)[..q], (l.kids + r.kids)[..q + 1])
  }

  ghost function SharedRight(l: Tree, r: Tree, sep: ByteString, q: nat): Tree
    requires l.Node? && r.Node? && q <= |l.keys| + |r.keys| && |l.kids| + |r.kids| > q
  {
    Node(r.id, (l.keys + [sep] + r.keys)[q + 1..], (l.kids + r.kids)[q + 1..])
  }

  lemma SharedWf(l: Tree, r: Tree, sep: ByteString, h: nat, lo: real, hi: real)
    requires Inner(l, h, lo, Rank(sep)) && Inner(r, h, Rank(sep), hi) && (|l.keys| == 1 || |r.keys| == 1)
    requires !CanMerge(l.keys, sep, r.keys)
    ensures ShareAt(l.keys, r.keys) < (if InnerUsed(l.keys) < InnerUsed(r.keys) then |r.keys| else |l.keys|)
    ensures |l.kids| == |l.keys| + 1 && |r.kids| == |r.keys| + 1
    ensures var q := JointCut(l.keys, r.keys);
      && q <= |l.keys| + |r.keys|
      && lo < Rank((l.keys + [sep] + r.keys)[q]) < hi
      && Wf(SharedLeft(l, r, sep, q), h + 1, lo, Rank((l.keys + [sep] + r.keys)[q]), false)
      && Wf(SharedRight(l, r, sep, q), h + 1, Rank((l.keys + [sep] + r.keys)[q]), hi, false)
  {
    hide Rank, Less, Wf, CanMerge, ShareAt, InnerUsed, JointCut;
    RedistributeFits(l.keys, sep, r.keys);
    JoinWf(l.keys, l.kids, sep, r.keys, r.kids, h, lo, hi);
    var q := JointCut(l.keys, r.keys);
    var keys := l.keys + [sep] + r.keys;
    CutWf(keys, l.kids + r.kids, h, lo, hi, q);
    hide SortedKeys, WfKids;
    WfNode(SharedLeft(l, r, sep, q), h + 1, lo, Rank(keys[q]), false);
    WfNode(SharedRight(l, r, sep, q), h + 1, Rank(keys[q]), hi, false);
  }

  lemma SharedContents(l: Tree, r: Tree, sep: ByteString, q: nat)
    requires l.Node? && r.Node? && q <= |l.keys| + |r.keys| && |l.kids| + |r.kids| > q
    ensures var a, b := SharedLeft(l, r, sep, q), SharedRight(l, r, sep, q);
      && Ids(a) + Ids(b) == Ids(l) + Ids(r) && Flat(a) + Flat(b) == Flat(l) + Flat(r)
      && LeafIds(a) + LeafIds(b) == LeafIds(l) + LeafIds(r)
  {
    var kids := l.kids + r.kids;
    assert kids == kids[..q + 1] + kids[q + 1..];
    AllAppend(kids[..q + 1], kids[q + 1..]);
    AllAppend(l.kids, r.kids);
    Exchange(multiset{l.id}, multiset{r.id}, IdsAll(kids[..q + 1]), IdsAll(kids[q + 1..]), IdsAll(l.kids),
             IdsAll(r.kids));
  }

  lemma Exchange(l: multiset<nat>, r: multiset<nat>, a: multiset<nat>, b: multiset<nat>, x: multiset<nat>,
                 y: multiset<nat>)
    requires a + b == x + y
    ensures (l + a) + (r + b) == (l + x) + (r + y)
  {
    assert (l + a) + (r + b) == l + r + (a + b);
  }

  lemma TwoContents(a: Tree, b: Tree)
    ensures IdsAll([a, b]) == Ids(a) + Ids(b) && FlatAll([a, b]) == Flat(a) + Flat(b)
    ensures LeafIdsAll([a, b]) == LeafIds(a) + LeafIds(b)
  {
    assert [a, b] == [a] + [b];
    AllAppend([a], [b]);
    AllOne(a);
    AllOne(b);
  }

  /** Replacing two children by two with the same contents changes nothing above. */
  lemma SameContents(kids: seq<Tree>, i: nat, a: Tree, b: Tree)
    requires i + 2 <= |kids| && Ids(a) + Ids(b) == Ids(kids[i]) + Ids(kids[i + 1])
    requires Flat(a) + Flat(b) == Flat(kids[i]) + Flat(kids[i + 1])
    requires LeafIds(a) + LeafIds(b) == LeafIds(kids[i]) + LeafIds(kids[i + 1])
    ensures IdsAll(Replaced(kids, i, [a, b])) == IdsAll(kids)
    ensures FlatAll(Replaced(kids, i, [a, b])) == FlatAll(kids)
    ensures LeafIdsAll(Replaced(kids, i, [a, b])) == LeafIdsAll(kids)
  {
    hide IdsAll, FlatAll, LeafIdsAll, Ids, Flat, LeafIds;
    ReplacedIds(kids, i);
    ReplacedContents(kids, i, [a, b]);
    TwoContents(a, b);
  }

  /** The parts of a pair that the two steps below work on. */
  lemma Parts(pages: Pages, g: Gap, h: nat, slack: multiset<nat>, i: nat)
    requires Pair(g, h, i) && Shrunk(pages, g, h, slack)
    ensures |Siblings(g)| == |g.up.keys| + 1
    ensures var p, kids := g.up, Siblings(g);
      && i + 2 <= |kids| && kids[i].Node? && kids[i + 1].Node? && p.id in pages
      && pages[p.id] == InnerPage(p.keys, KidIds(kids))
      && kids[i].id in pages && pages[kids[i].id] == InnerPage(kids[i].keys, KidIds(kids[i].kids))
      && kids[i + 1].id in pages && pages[kids[i + 1].id] == InnerPage(kids[i + 1].keys, KidIds(kids[i + 1].kids))
      && |kids[i].kids| == |kids[i].keys| + 1 && |kids[i + 1].kids| == |kids[i + 1].keys| + 1 && |kids[i + 1].keys| > 0
  {
    hide Rank, Less, Wf, SortedKeys, InnerUsed, CtxMatches, Shrunk, Siblings, GapOk;
    PairInner(g, h, i);
    PairPages(pages, g, h, slack, i);
  }

  /** What the neighbours become when their children are shared again. */
  ghost function SharedTree(g: Gap, i: nat): Tree
    requires g.up.In? && g.keys != [] && g.n <= |g.keys| && i < |g.up.keys| && |Siblings(g)| == |g.up.keys| + 1
    requires Siblings(g)[i].Node? && Siblings(g)[i + 1].Node?
    requires var l, r, q := Siblings(g)[i], Siblings(g)[i + 1], JointCut(Siblings(g)[i].keys, Siblings(g)[i + 1].keys);
      q <= |l.keys| + |r.keys| && |l.kids| + |r.kids| > q
  {
    var l, r := Siblings(g)[i], Siblings(g)[i + 1];
    var sep, q := g.up.keys[i], JointCut(l.keys, r.keys);
    Node(g.up.id, g.up.keys[i := (l.keys + [sep] + r.keys)[q]],
         Replaced(Siblings(g), i, [SharedLeft(l, r, sep, q), SharedRight(l, r, sep, q)]))
  }

  lemma SharedShape(g: Gap, h: nat, i: nat)
    requires Pair(g, h, i) && |Siblings(g)| == |g.up.keys| + 1 && Siblings(g)[i].Node? && Siblings(g)[i + 1].Node?
    requires !CanMerge(Siblings(g)[i].keys, g.up.keys[i], Siblings(g)[i + 1].keys)
    ensures var l, r, q := Siblings(g)[i], Siblings(g)[i + 1], JointCut(Siblings(g)[i].keys, Siblings(g)[i + 1].keys);
      && ShareAt(l.keys, r.keys) < (if InnerUsed(l.keys) < InnerUsed(r.keys) then |r.keys| else |l.keys|)
      && q <= |l.keys| + |r.keys| && |l.kids| + |r.kids| > q
      && var mid := (l.keys + [g.up.keys[i]] + r.keys)[q];
      && Low(g.up.keys, g.up.lo, i) < Rank(mid) < High(g.up.keys, g.up.hi, i + 1)
      && SortedKeys(g.up.keys, g.up.lo, g.up.hi)
      && (InnerUsed(g.up.keys[i := mid]) <= INNER_SIZE ==> Wf(SharedTree(g, i), h + 2, g.up.lo, g.up.hi, g.up.up.Top?))
  {
    hide Rank, Less, Wf, SortedKeys, InnerUsed, WfKids, CanMerge, ShareAt, JointCut, Siblings, GapOk, SharedLeft,
         SharedRight;
    GapFacts(g, h);
    var p, kids := g.up, Siblings(g);
    PairInner(g, h, i);
    PairOthers(g, h, i);
    var l, r, sep := kids[i], kids[i + 1], p.keys[i];
    var lo, hi := Low(p.keys, p.lo, i), High(p.keys, p.hi, i + 1);
    SharedWf(l, r, sep, h, lo, hi);
    var q := JointCut(l.keys, r.keys);
    var mid := (l.keys + [sep] + r.keys)[q];
    TwoWf(p.keys, kids, i, mid, SharedLeft(l, r, sep, q), SharedRight(l, r, sep, q), h + 1, p.lo, p.hi);
    if InnerUsed(p.keys[i := mid]) <= INNER_SIZE {
      WfNode(SharedTree(g, i), h + 2, p.lo, p.hi, p.up.Top?);
    }
  }

  /** The pages after the neighbours have shared their children again. */
  function SharedPages(pages: Pages, parent: nat, i: nat): Pages
    requires parent in pages && GoodInner(pages[parent]) && i < |pages[parent].keys|
    requires var l, r := pages[parent].kids[i], pages[parent].kids[i + 1];
      && l in pages && r in pages && GoodInner(pages[l]) && GoodInner(pages[r])
      && ShareAt(pages[l].keys, pages[r].keys)
         < (if InnerUsed(pages[l].keys) < InnerUsed(pages[r].keys) then |pages[r].keys| else |pages[l].keys|)
  {
    var p := pages[parent];
    var l, r := p.kids[i], p.kids[i + 1];
    var (a, mid, b) := Redistribute(pages[l], pages[r], p.keys[i]);
    pages[l := a][r := b][parent := InnerInsert(InnerRemove(p, p.keys[i]), mid, r)]
  }

  /** A neighbour too large to be merged with shares its children instead, and the tree is whole again. */
  lemma Shared(pages: Pages, g: Gap, h: nat, slack: multiset<nat>, i: nat)
    requires Pair(g, h, i) && Shrunk(pages, g, h, slack) && |Siblings(g)| == |g.up.keys| + 1
    requires Siblings(g)[i].Node? && Siblings(g)[i + 1].Node?
    requires g.up.id in pages && GoodInner(pages[g.up.id])
    requires pages[g.up.id] == InnerPage(g.up.keys, KidIds(Siblings(g)))
    requires var l, r := Siblings(g)[i], Siblings(g)[i + 1];
      && l.id in pages && r.id in pages && pages[l.id] == InnerPage(l.keys, KidIds(l.kids))
      && pages[r.id] == InnerPage(r.keys, KidIds(r.kids))
      && GoodInner(pages[l.id]) && GoodInner(pages[r.id]) && !CanMerge(l.keys, g.up.keys[i], r.keys)
      && ShareAt(l.keys, r.keys) < (if InnerUsed(l.keys) < InnerUsed(r.keys) then |r.keys| else |l.keys|)
      && JointCut(l.keys, r.keys) <= |l.keys| + |r.keys| && |l.kids| + |r.kids| > JointCut(l.keys, r.keys)
      && InnerUsed(g.up.keys[i := (l.keys + [g.up.keys[i]] + r.keys)[JointCut(l.keys, r.keys)]]) <= INNER_SIZE
    ensures Settled(SharedPages(pages, g.up.id, i), g.up.up, SharedTree(g, i), h + 2, slack)
  {
    hide Rank, Less, Wf, SortedKeys, InnerUsed, WfKids, CanMerge, ShareAt, JointCut, Siblings, GapOk, SharedLeft,
         SharedRight;
    hide Matches, CtxMatches, CtxOk, Ids, IdsAll, CtxIds, Redistribute, InnerInsert, InnerRemove, Replaced, HoleLo,
         HoleHi;
    GapFacts(g, h);
    var p, kids := g.up, Siblings(g);
    var l, r, sep := kids[i], kids[i + 1], p.keys[i];
    var q := JointCut(l.keys, r.keys);
    var mid := (l.keys + [sep] + r.keys)[q];
    var pages2 := SharedPages(pages, p.id, i);
    SharedShape(g, h, i);
    PairOthers(g, h, i);
    PairPages(pages, g, h, slack, i);
    SharedPage(pages, g, h, i);
    SwapPage(p.keys, KidIds(kids), i, mid, p.lo, p.hi);
    PairFrame(pages, pages2, p, kids, i, slack);
    CutMatches(pages2, l.keys + [sep] + r.keys, l.kids + r.kids, q, l.id, r.id);
    SharedIs(l, r, sep, q);
    PairMatches(pages2, p.id, p.keys[i := mid], kids, i, SharedLeft(l, r, sep, q), SharedRight(l, r, sep, q));
    SharedContents(l, r, sep, q);
    SameContents(kids, i, SharedLeft(l, r, sep, q), SharedRight(l, r, sep, q));
    NodeIdsAre(SharedTree(g, i));
    assert pages2.Keys == pages.Keys;
  }

  lemma SharedIs(l: Tree, r: Tree, sep: ByteString, q: nat)
    requires l.Node? && r.Node? && q <= |l.keys| + |r.keys| && |l.kids| + |r.kids| > q
    ensures SharedLeft(l, r, sep, q) == Node(l.id, (l.keys + [sep] + r.keys)[..q], (l.kids + r.kids)[..q + 1])
    ensures SharedRight(l, r, sep, q) == Node(r.id, (l.keys + [sep] + r.keys)[q + 1..], (l.kids + r.kids)[q + 1..])
  {
  }

  lemma PairMatches(pages: Pages, id: nat, keys: seq<ByteString>, kids: seq<Tree>, i: nat, a: Tree, b: Tree)
    requires i + 2 <= |kids| && forall t | 0 <= t < |kids| && t != i && t != i + 1 :: Matches(pages, kids[t])
    requires Matches(pages, a) && Matches(pages, b) && a.id == kids[i].id && b.id == kids[i + 1].id
    requires id in pages && pages[id] == InnerPage(keys, KidIds(kids))
    ensures Matches(pages, Node(id, keys, Replaced(kids, i, [a, b])))
  {
    hide Matches;
    ReplacedMatches(pages, kids, i, [a, b]);
    assert KidIds(Replaced(kids, i, [a, b])) == KidIds(kids);
    NodeMatches(pages, Node(id, keys, Replaced(kids, i, [a, b])));
  }

  lemma SharedPage(pages: Pages, g: Gap, h: nat, i: nat)
    requires Pair(g, h, i) && |Siblings(g)| == |g.up.keys| + 1
    requires Siblings(g)[i].Node? && Siblings(g)[i + 1].Node?
    requires var l, r := Siblings(g)[i], Siblings(g)[i + 1];
      && |l.kids| == |l.keys| + 1 && |r.kids| == |r.keys| + 1
      && ShareAt(l.keys, r.keys) < (if InnerUsed(l.keys) < InnerUsed(r.keys) then |r.keys| else |l.keys|)
    ensures var l, r, sep := Siblings(g)[i], Siblings(g)[i + 1], g.up.keys[i];
      var keys, kids, q := l.keys + [sep] + r.keys, l.kids + r.kids, JointCut(l.keys, r.keys);
      && q < |keys|
      && Redistribute(InnerPage(l.keys, KidIds(l.kids)), InnerPage(r.keys, KidIds(r.kids)), sep)
         == (InnerPage(keys[..q], KidIds(kids)[..q + 1]), keys[q], InnerPage(keys[q + 1..], KidIds(kids)[q + 1..]))
  {
    hide Rank, Less, Wf, SortedKeys, InnerUsed, ShareAt, JointCut, Siblings, GapOk, Redistribute;
    GapFacts(g, h);
    PairInner(g, h, i);
    var p, kids := g.up, Siblings(g);
    var l, r, sep := kids[i], kids[i + 1], p.keys[i];
    RedistributeIs(InnerPage(l.keys, KidIds(l.kids)), InnerPage(r.keys, KidIds(r.kids)), sep,
                   Low(p.keys, p.lo, i), High(p.keys, p.hi, i + 1));
    assert KidIds(l.kids) + KidIds(r.kids) == KidIds(l.kids + r.kids);
  }

  lemma SharedTreeContents(g: Gap, i: nat)
    requires g.up.In? && g.keys != [] && g.n <= |g.keys| && i < |g.up.keys| && |Siblings(g)| == |g.up.keys| + 1
    requires Siblings(g)[i].Node? && Siblings(g)[i + 1].Node?
    requires var l, r, q := Siblings(g)[i], Siblings(g)[i + 1], JointCut(Siblings(g)[i].keys, Siblings(g)[i + 1].keys);
      q <= |l.keys| + |r.keys| && |l.kids| + |r.kids| > q
    ensures Flat(SharedTree(g, i)) == FlatAll(g.up.left) + FlatAll(g.kids) + FlatAll(g.up.right)
    ensures LeafIds(SharedTree(g, i)) == LeafIdsAll(g.up.left) + LeafIdsAll(g.kids) + LeafIdsAll(g.up.right)
  {
    hide FlatAll, LeafIdsAll, SharedLeft, SharedRight, JointCut, Replaced;
    var l, r, q := Siblings(g)[i], Siblings(g)[i + 1], JointCut(Siblings(g)[i].keys, Siblings(g)[i + 1].keys);
    SharedContents(l, r, g.up.keys[i], q);
    SameContents(Siblings(g), i, SharedLeft(l, r, g.up.keys[i], q), SharedRight(l, r, g.up.keys[i], q));
    AllAround(g.up.left, Closed(g), g.up.right);
  }

  /** The neighbours merged into the left one's page. */
  ghost function MergedTree(g: Gap, i: nat): Tree
    requires g.up.In? && g.keys != [] && g.n <= |g.keys| && i < |g.up.keys| && |Siblings(g)| == |g.up.keys| + 1
    requires Siblings(g)[i].Node? && Siblings(g)[i + 1].Node?
  {
    var l, r := Siblings(g)[i], Siblings(g)[i + 1];
    Node(l.id, l.keys + [g.up.keys[i]] + r.keys, l.kids + r.kids)
  }

  /** The page above still names the page that is now free. */
  ghost function NextGap(g: Gap, i: nat): Gap
    requires g.up.In? && g.keys != [] && g.n <= |g.keys| && i < |g.up.keys| && |Siblings(g)| == |g.up.keys| + 1
    requires Siblings(g)[i].Node? && Siblings(g)[i + 1].Node?
  {
    Gap(g.up.up, g.up.id, g.up.keys, i + 1, Replaced(Siblings(g), i, [MergedTree(g, i)]), Siblings(g)[i + 1].id)
  }

  function MergedPages(pages: Pages, parent: nat, i: nat): Pages
    requires parent in pages && GoodInner(pages[parent]) && i < |pages[parent].keys|
    requires var l, r := pages[parent].kids[i], pages[parent].kids[i + 1];
      l in pages && r in pages && GoodInner(pages[l]) && GoodInner(pages[r])
  {
    var p := pages[parent];
    pages[p.kids[i] := Merge(pages[p.kids[i]], pages[p.kids[i + 1]], p.keys[i])]
  }

  lemma MergedShape(g: Gap, h: nat, i: nat)
    requires Pair(g, h, i) && |Siblings(g)| == |g.up.keys| + 1 && Siblings(g)[i].Node? && Siblings(g)[i + 1].Node?
    requires InnerUsed(MergedTree(g, i).keys) <= INNER_SIZE
    ensures GapOk(NextGap(g, i), h + 1)
    ensures Siblings(g)[i + 1].keys != [] && InGap(NextGap(g, i), Siblings(g)[i + 1].keys[0])
  {
    hide Rank, Less, Wf, SortedKeys, InnerUsed, WfKids, Siblings, GapOk;
    GapFacts(g, h);
    var p, kids := g.up, Siblings(g);
    PairInner(g, h, i);
    PairOthers(g, h, i);
    var l, r, sep := kids[i], kids[i + 1], p.keys[i];
    var lo, hi := Low(p.keys, p.lo, i), High(p.keys, p.hi, i + 1);
    JoinWf(l.keys, l.kids, sep, r.keys, r.kids, h, lo, hi);
    WfNode(MergedTree(g, i), h + 1, lo, hi, false);
    OneWf(p.keys, kids, i, MergedTree(g, i), h + 1, p.lo, p.hi);
    FirstKey(r.keys, Rank(sep), hi, r.kids, h);
    GapIs(NextGap(g, i), h + 1);
  }

  lemma FirstKey(keys: seq<ByteString>, lo: real, hi: real, kids: seq<Tree>, h: nat)
    requires WfKids(keys, kids, h, lo, hi) && keys != []
    ensures lo < Rank(keys[0]) < hi
  {
  }

  lemma GapIs(g: Gap, h: nat)
    requires |g.kids| == |g.keys| >= (if g.up.Top? then 1 else 2) && g.n <= |g.keys|
    requires CtxOk(g.up, h + 1) && (g.up.In? ==> |g.up.left| <= |g.up.keys|)
    requires SortedKeys(g.keys, HoleLo(g.up), HoleHi(g.up)) && InnerUsed(g.keys) <= INNER_SIZE
    requires WfKids(GapKeys(g.keys, g.n), g.kids, h, HoleLo(g.up), HoleHi(g.up))
    ensures GapOk(g, h)
  {
  }

  /** Two neighbours merge; the page above still has to lose a child. */
  lemma Merged(pages: Pages, g: Gap, h: nat, slack: multiset<nat>, i: nat)
    requires Pair(g, h, i) && Shrunk(pages, g, h, slack) && |Siblings(g)| == |g.up.keys| + 1
    requires Siblings(g)[i].Node? && Siblings(g)[i + 1].Node?
    requires g.up.id in pages && GoodInner(pages[g.up.id])
    requires pages[g.up.id] == InnerPage(g.up.keys, KidIds(Siblings(g)))
    requires var l, r := Siblings(g)[i], Siblings(g)[i + 1];
      && l.id in pages && r.id in pages && pages[l.id] == InnerPage(l.keys, KidIds(l.kids))
      && pages[r.id] == InnerPage(r.keys, KidIds(r.kids))
      && GoodInner(pages[l.id]) && GoodInner(pages[r.id])
    requires InnerUsed(MergedTree(g, i).keys) <= INNER_SIZE
    ensures Gone(MergedPages(pages, g.up.id, i), NextGap(g, i), h + 1, slack + multiset{Siblings(g)[i + 1].id})
    ensures Siblings(g)[i + 1].keys != [] && InGap(NextGap(g, i), Siblings(g)[i + 1].keys[0])
  {
    hide Rank, Less, Wf, SortedKeys, InnerUsed, WfKids, Siblings, GapOk, InGap;
    hide Matches, CtxMatches, CtxOk, Ids, IdsAll, CtxIds, InnerInsert, InnerRemove, HoleLo, HoleHi, Merge;
    GapFacts(g, h);
    var p, kids := g.up, Siblings(g);
    var l, r, sep := kids[i], kids[i + 1], p.keys[i];
    var pages2 := MergedPages(pages, p.id, i);
    var m := MergedTree(g, i);
    MergedShape(g, h, i);
    MergedPage(pages, g, h, i);
    PairPages(pages, g, h, slack, i);
    PairFrame(pages, pages2, p, kids, i, slack);
    NodeMatches(pages2, m);
    ReplacedMatches(pages2, kids, i, [m]);
    NextGapIds(kids, i, m);
    MergedIds(kids, i, m);
    NextSum(CtxIds(p.up), multiset{p.id}, IdsAll(Replaced(kids, i, [m])), multiset{r.id}, slack);
    assert pages2.Keys == pages.Keys;
  }

  lemma MergedPage(pages: Pages, g: Gap, h: nat, i: nat)
    requires Pair(g, h, i) && |Siblings(g)| == |g.up.keys| + 1
    requires Siblings(g)[i].Node? && Siblings(g)[i + 1].Node?
    requires var l, r := Siblings(g)[i], Siblings(g)[i + 1]; |l.kids| == |l.keys| + 1 && |r.kids| == |r.keys| + 1
    ensures var l, r := Siblings(g)[i], Siblings(g)[i + 1];
      Merge(InnerPage(l.keys, KidIds(l.kids)), InnerPage(r.keys, KidIds(r.kids)), g.up.keys[i])
        == InnerPage(MergedTree(g, i).keys, KidIds(MergedTree(g, i).kids))
  {
    hide Rank, Less, Wf, SortedKeys, InnerUsed, Siblings, GapOk, Merge;
    GapFacts(g, h);
    PairInner(g, h, i);
    var p, kids := g.up, Siblings(g);
    var l, r, sep := kids[i], kids[i + 1], p.keys[i];
    MergeIs(InnerPage(l.keys, KidIds(l.kids)), InnerPage(r.keys, KidIds(r.kids)), sep, Low(p.keys, p.lo, i));
    assert KidIds(l.kids) + KidIds(r.kids) == KidIds(l.kids + r.kids);
  }

  lemma NextGapIds(kids: seq<Tree>, i: nat, m: Tree)
    requires i + 2 <= |kids| && m.id == kids[i].id
    ensures var kids2 := Replaced(kids, i, [m]);
      KidIds(kids2[..i + 1]) + [kids[i + 1].id] + KidIds(kids2[i + 1..]) == KidIds(kids)
  {
  }

  lemma MergedIds(kids: seq<Tree>, i: nat, m: Tree)
    requires i + 2 <= |kids| && kids[i].Node? && kids[i + 1].Node? && m.Node? && m.id == kids[i].id
    requires m.kids == kids[i].kids + kids[i + 1].kids
    ensures IdsAll(kids) == IdsAll(Replaced(kids, i, [m])) + multiset{kids[i + 1].id}
    ensures FlatAll(kids) == FlatAll(Replaced(kids, i, [m])) && LeafIdsAll(kids) == LeafIdsAll(Replaced(kids, i, [m]))
  {
    hide IdsAll, FlatAll, LeafIdsAll;
    ReplacedIds(kids, i);
    ReplacedContents(kids, i, [m]);
    AllOne(m);
    AllAppend(kids[i].kids, kids[i + 1].kids);
  }

  lemma NextSum(c: multiset<nat>, p: multiset<nat>, k: multiset<nat>, r: multiset<nat>, slack: multiset<nat>)
    ensures c + (p + k) + (slack + r) == c + (p + (k + r)) + slack
  {
  }

  lemma NextGapContents(g: Gap, i: nat)
    requires g.up.In? && g.keys != [] && g.n <= |g.keys| && i < |g.up.keys| && |Siblings(g)| == |g.up.keys| + 1
    requires Siblings(g)[i].Node? && Siblings(g)[i + 1].Node?
    ensures FlatAll(NextGap(g, i).kids) == FlatAll(g.up.left) + FlatAll(g.kids) + FlatAll(g.up.right)
    ensures LeafIdsAll(NextGap(g, i).kids) == LeafIdsAll(g.up.left) + LeafIdsAll(g.kids) + LeafIdsAll(g.up.right)
  {
    hide FlatAll, LeafIdsAll, IdsAll, Replaced;
    MergedIds(Siblings(g), i, MergedTree(g, i));
    AllAround(g.up.left, Closed(g), g.up.right);
  }
}
