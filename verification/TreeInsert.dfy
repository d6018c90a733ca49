/** What one step of an insertion does to the tree: into a leaf, across a split leaf, and up through
    pages that take one more child or split in turn. */
module TreeInsert {
  import opened ByteStrings
  import opened Nodes
  import opened Trees

  ghost predicate Absent(entries: seq<Entry>, key: ByteString) {
    forall e | e in entries :: e.key != key
  }

  lemma SortedAscending(entries: seq<Entry>, lo: real, hi: real)
    requires Sorted(entries, lo, hi)
    ensures Ascending(KeysOf(entries))
  {
    hide Rank, Less;
  }

  lemma SortedJoin(a: seq<Entry>, e: Entry, b: seq<Entry>, lo: real, hi: real)
    requires Sorted(a, lo, Rank(e.key)) && lo <= Rank(e.key) < hi
    requires Sorted(b, Rank(e.key), hi) && forall x | x in b :: Rank(x.key) != Rank(e.key)
    ensures Sorted(a + [e] + b, lo, hi)
  {
    hide Rank, Less;
  }

  /** Where an absent key belongs. */
  lemma {:induction false} Position(entries: seq<Entry>, key: ByteString, lo: real, hi: real)
    requires Sorted(entries, lo, hi) && lo <= Rank(key) < hi && Absent(entries, key)
    ensures var i := LowerBound(KeysOf(entries), key);
      Sorted(entries[..i], lo, Rank(key)) && Sorted(entries[i..], Rank(key), hi)
    ensures forall e | e in entries :: Rank(e.key) != Rank(key)
  {
    hide Rank, Less, LowerBound;
    var i := LowerBound(KeysOf(entries), key);
    forall e | e in entries ensures Rank(e.key) != Rank(key) {
      RankOrders(e.key, key);
    }
    assert forall j | 0 <= j < i :: KeysOf(entries)[j] == entries[j].key;
    if i < |entries| {
      assert KeysOf(entries)[i] == entries[i].key;
      forall j | i <= j < |entries| ensures Rank(key) <= Rank(entries[j].key) {
      }
    }
  }

  lemma LeafInsertSorted(entries: seq<Entry>, key: ByteString, value: ByteString, lo: real, hi: real)
    requires Sorted(entries, lo, hi) && lo <= Rank(key) < hi && Absent(entries, key)
    ensures Sorted(LeafInsert(entries, key, value), lo, hi)
    ensures forall e :: e in LeafInsert(entries, key, value) <==> e == Entry(key, value) || e in entries
  {
    hide Rank, Less, LowerBound, Sorted;
    var i := LowerBound(KeysOf(entries), key);
    Position(entries, key, lo, hi);
    assert entries == entries[..i] + entries[i..];
    SortedJoin(entries[..i], Entry(key, value), entries[i..], lo, hi);
  }

  lemma SortedWithout(entries: seq<Entry>, i: nat, lo: real, hi: real)
    requires Sorted(entries, lo, hi) && i < |entries|
    ensures Sorted(entries[..i] + entries[i + 1..], lo, hi)
    ensures forall e | e in entries[..i] + entries[i + 1..] :: Rank(e.key) != Rank(entries[i].key)
  {
    hide Rank, Less;
    var rest := entries[..i] + entries[i + 1..];
    forall j | 0 <= j < |rest| ensures lo <= Rank(rest[j].key) < hi && Rank(rest[j].key) != Rank(entries[i].key) {
      assert rest[j] == entries[if j < i then j else j + 1];
    }
    forall j, k | 0 <= j < k < |rest| ensures Rank(rest[j].key) < Rank(rest[k].key) {
      assert rest[j] == entries[if j < i then j else j + 1];
      assert rest[k] == entries[if k < i then k else k + 1];
    }
    forall e | e in rest ensures Rank(e.key) != Rank(entries[i].key) {
      var j :| 0 <= j < |rest| && rest[j] == e;
    }
  }

  lemma LeafRemoveSorted(entries: seq<Entry>, key: ByteString, lo: real, hi: real)
    requires Sorted(entries, lo, hi)
    ensures Sorted(LeafRemove(entries, key), lo, hi)
    ensures forall e :: e in LeafRemove(entries, key) <==> e in entries && e.key != key
    ensures |LeafRemove(entries, key)| >= |entries| - 1
  {
    hide Rank, Less, Sorted, Find, Ascending;
    SortedAscending(entries, lo, hi);
    FindFinds(entries, key);
    var i := Find(entries, key);
    if i < |entries| {
      assert entries == entries[..i] + [entries[i]] + entries[i + 1..];
      SortedWithout(entries, i, lo, hi);
    }
  }

  /** The two halves of a split leaf, with the new entry in one of them, are the sorted whole. */
  lemma LeafSplitJoins(entries: seq<Entry>, key: ByteString, value: ByteString, lo: real, hi: real)
    requires Sorted(entries, lo, hi) && Absent(entries, key) && 0 < LeafSplitAt(entries) < |entries|
    ensures var (a, b) := LeafSplit(entries, key, value);
      a + b == LeafInsert(entries, key, value) && a != [] && b != []
  {
    hide Rank, Less, LowerBound, LeafSplitAt, Sorted;
    var m := LeafSplitAt(entries);
    RankOrders(entries[m - 1].key, key);
    SplitPosition(entries, key, m, lo, hi);
    var i := LowerBound(KeysOf(entries), key);
    if i >= m {
      InsertBehind(entries, m, i, Entry(key, value));
    } else {
      InsertBefore(entries, m, i, Entry(key, value));
    }
  }

  lemma InsertBehind<T>(s: seq<T>, m: nat, i: nat, x: T)
    requires m <= i <= |s|
    ensures s[..m] + (s[m..][..i - m] + [x] + s[m..][i - m..]) == s[..i] + [x] + s[i..]
  {
    assert s[m..][..i - m] == s[m..i] && s[m..][i - m..] == s[i..];
    assert s[..m] + s[m..i] == s[..i];
  }

  lemma InsertBefore<T>(s: seq<T>, m: nat, i: nat, x: T)
    requires i <= m <= |s|
    ensures (s[..m][..i] + [x] + s[..m][i..]) + s[m..] == s[..i] + [x] + s[i..]
  {
    assert s[..m][..i] == s[..i] && s[..m][i..] == s[i..m];
    assert s[i..m] + s[m..] == s[i..];
  }

  lemma SortedTwo(a: seq<Entry>, b: seq<Entry>, lo: real, hi: real)
    requires Sorted(a + b, lo, hi) && a != [] && b != []
    ensures lo < Rank(b[0].key) < hi && Sorted(a, lo, Rank(b[0].key)) && Sorted(b, Rank(b[0].key), hi)
  {
    hide Rank, Less;
    var s := a + b;
    assert forall i | 0 <= i < |a| :: s[i] == a[i];
    assert forall i | 0 <= i < |b| :: s[|a| + i] == b[i];
    assert s[0] == a[0] && s[|a|] == b[0];
  }

  lemma LeafSplitSorted(entries: seq<Entry>, key: ByteString, value: ByteString, lo: real, hi: real)
    requires Sorted(entries, lo, hi) && lo <= Rank(key) < hi && Absent(entries, key)
    requires LeafUsed(entries) <= LEAF_SIZE && !LeafHasSpace(entries, key, value)
    ensures 0 < LeafSplitAt(entries)
    ensures var (a, b) := LeafSplit(entries, key, value);
      && a + b == LeafInsert(entries, key, value) && a != [] && b != []
      && LeafUsed(a) <= LEAF_SIZE && LeafUsed(b) <= LEAF_SIZE
      && lo < Rank(b[0].key) < hi && Sorted(a, lo, Rank(b[0].key)) && Sorted(b, Rank(b[0].key), hi)
  {
    hide Rank, Less, LowerBound, LeafSplitAt, LeafUsed, Sorted;
    LeafSplitFits(entries, key, value);
    var m := LeafSplitAt(entries);
    var (a, b) := LeafSplit(entries, key, value);
    LeafInsertUsed(entries[..m], key, value);
    LeafInsertUsed(entries[m..], key, value);
    LeafUsedAppend(entries[..m], entries[m..]);
    assert entries[..m] + entries[m..] == entries;
    LeafSplitJoins(entries, key, value, lo, hi);
    LeafInsertSorted(entries, key, value, lo, hi);
    SortedTwo(a, b, lo, hi);
  }

  lemma AscendingSlices(keys: seq<ByteString>, m: nat)
    requires Ascending(keys) && m <= |keys|
    ensures Ascending(keys[..m]) && Ascending(keys[m..])
  {
    hide Rank, Less;
  }

  lemma {:induction false} SplitPosition(entries: seq<Entry>, key: ByteString, m: nat, lo: real, hi: real)
    requires Sorted(entries, lo, hi) && 0 < m < |entries| && Absent(entries, key)
    ensures var i := LowerBound(KeysOf(entries), key);
      if Rank(entries[m - 1].key) < Rank(key)
      then i >= m && LowerBound(KeysOf(entries[m..]), key) == i - m
      else i < m && LowerBound(KeysOf(entries[..m]), key) == i
  {
    hide Rank, Less, LowerBound, Sorted;
    var keys := KeysOf(entries);
    var i := LowerBound(keys, key);
    SortedAscending(entries, lo, hi);
    assert KeysOf(entries[..m]) == keys[..m] && KeysOf(entries[m..]) == keys[m..];
    AscendingSlices(keys, m);
    assert keys[m - 1] == entries[m - 1].key;
    if Rank(keys[m - 1]) < Rank(key) {
      BoundAbove(keys, key, m);
      LowerBoundIs(keys[m..], key, i - m);
    } else {
      LowerBoundIs(keys[..m], key, i);
    }
  }

  lemma BoundAbove(keys: seq<ByteString>, key: ByteString, m: nat)
    requires Ascending(keys) && 0 < m <= |keys| && Rank(keys[m - 1]) < Rank(key)
    ensures LowerBound(keys, key) >= m
  {
    hide Rank, Less, LowerBound;
  }

  // ------------------------------------------------------------------ one more child

  /** The keys and children of a page in which the open place is filled by two trees with `key`
      between them. */
  ghost function WideKeys(c: Ctx, key: ByteString): seq<ByteString>
    requires c.In? && |c.left| <= |c.keys|
  {
    c.keys[..|c.left|] + [key] + c.keys[|c.left|..]
  }

  ghost function WideKids(c: Ctx, l: Tree, r: Tree): seq<Tree>
    requires c.In?
  {
    c.left + [l, r] + c.right
  }

  ghost predicate Halves(c: Ctx, l: Tree, r: Tree, key: ByteString, h: nat) {
    && CtxOk(c, h) && HoleLo(c) < Rank(key) < HoleHi(c)
    && Wf(l, h, HoleLo(c), Rank(key), false) && Wf(r, h, Rank(key), HoleHi(c), false)
  }

  lemma KeysAround(keys: seq<ByteString>, n: nat, key: ByteString, lo: real, hi: real)
    requires SortedKeys(keys, lo, hi) && n <= |keys| && Low(keys, lo, n) < Rank(key) < High(keys, hi, n)
    ensures SortedKeys(keys[..n] + [key] + keys[n..], lo, hi)
    ensures LowerBound(keys, key) == n
  {
    hide Rank, Less, LowerBound, Ascending;
    AscendingAround(keys, n, key);
    LowerBoundIs(keys, key, n);
  }

  lemma CtxFacts(c: Ctx, h: nat)
    requires c.In? && CtxOk(c, h)
    ensures SortedKeys(c.keys, c.lo, c.hi) && |c.left| + |c.right| == |c.keys| >= 1 && InnerUsed(c.keys) <= INNER_SIZE
    ensures CtxOk(c.up, h + 1) && c.lo == HoleLo(c.up) && c.hi == HoleHi(c.up)
  {
  }

  lemma WideSorted(c: Ctx, key: ByteString, h: nat)
    requires c.In? && CtxOk(c, h) && HoleLo(c) < Rank(key) < HoleHi(c)
    ensures SortedKeys(WideKeys(c, key), c.lo, c.hi)
    ensures LowerBound(c.keys, key) == |c.left|
  {
    hide Rank, Less, LowerBound, CtxOk, SortedKeys;
    CtxFacts(c, h);
    KeysAround(c.keys, |c.left|, key, c.lo, c.hi);
  }

  lemma WideWf(c: Ctx, l: Tree, r: Tree, key: ByteString, h: nat)
    requires c.In? && Halves(c, l, r, key, h)
    ensures WfKids(WideKeys(c, key), WideKids(c, l, r), h, c.lo, c.hi)
  {
    hide Rank, Less, Wf, SortedKeys;
    WideSorted(c, key, h);
    var keys, kids, n := WideKeys(c, key), WideKids(c, l, r), |c.left|;
    forall i | 0 <= i < |kids| ensures Wf(kids[i], h, Low(keys, c.lo, i), High(keys, c.hi, i), false) {
      if i < n {
        assert kids[i] == c.left[i];
      } else if i > n + 1 {
        assert kids[i] == c.right[i - n - 2];
      }
    }
  }

  lemma WidePage(c: Ctx, l: Tree, r: Tree, key: ByteString, h: nat)
    requires c.In? && Halves(c, l, r, key, h)
    ensures InnerInsert(InnerPage(c.keys, KidIds(c.left) + [l.id] + KidIds(c.right)), key, r.id)
         == InnerPage(WideKeys(c, key), KidIds(WideKids(c, l, r)))
  {
    hide Rank, Less, LowerBound, Wf, SortedKeys;
    WideSorted(c, key, h);
  }

  lemma WideIs(c: Ctx, l: Tree, r: Tree)
    requires c.In?
    ensures WideKids(c, l, r) == (c.left + [l]) + [r] + c.right
  {
  }

  lemma {:induction false} WideContents(c: Ctx, l: Tree, r: Tree)
    requires c.In?
    ensures FlatAll(WideKids(c, l, r)) == FlatAll(c.left) + (Flat(l) + Flat(r)) + FlatAll(c.right)
    ensures IdsAll(WideKids(c, l, r)) == IdsAll(c.left) + Ids(l) + Ids(r) + IdsAll(c.right)
    ensures LeafIdsAll(WideKids(c, l, r)) == LeafIdsAll(c.left) + (LeafIds(l) + LeafIds(r)) + LeafIdsAll(c.right)
  {
    hide FlatAll, IdsAll, LeafIdsAll, WideKids;
    WideIs(c, l, r);
    AllAround(c.left + [l], r, c.right);
    AllAppend(c.left, [l]);
    AllOne(l);
    Regroup(FlatAll(c.left), Flat(l), Flat(r), [], FlatAll(c.right));
    Regroup(LeafIdsAll(c.left), LeafIds(l), LeafIds(r), [], LeafIdsAll(c.right));
  }

  // ------------------------------------------------------------------ splitting a page

  /** The inner split of the code, which splits first and inserts then, cuts the widened page at `q`. */
  ghost function CutAt(c: Ctx, key: ByteString): nat
    requires c.In?
  {
    if |c.left| <= InnerSplitAt(c.keys) then InnerSplitAt(c.keys) + 1 else InnerSplitAt(c.keys)
  }

  lemma SplitIsCut(c: Ctx, l: Tree, r: Tree, key: ByteString, h: nat)
    requires c.In? && Halves(c, l, r, key, h) && InnerSplitAt(c.keys) < |c.keys|
    ensures var keys, ids, q := WideKeys(c, key), KidIds(WideKids(c, l, r)), CutAt(c, key);
      && q < |keys|
      && InnerSplit(InnerPage(c.keys, KidIds(c.left) + [l.id] + KidIds(c.right)), key, r.id)
         == (InnerPage(keys[..q], ids[..q + 1]), keys[q], InnerPage(keys[q + 1..], ids[q + 1..]))
  {
    hide Rank, Less, LowerBound, CtxOk, InnerSplitAt, SortedKeys, Wf;
    CtxFacts(c, h);
    var n, m := |c.left|, InnerSplitAt(c.keys);
    var was := KidIds(c.left) + [l.id] + KidIds(c.right);
    WideSorted(c, key, h);
    RankOrders(key, c.keys[m]);
    CutBound(c.keys, n, key, c.lo, c.hi, m);
    if n <= m {
      CutLeft(c, l, r, key, m);
    } else {
      CutRight(c, l, r, key, m);
    }
  }

  lemma CutBound(keys: seq<ByteString>, n: nat, key: ByteString, lo: real, hi: real, m: nat)
    requires SortedKeys(keys, lo, hi) && n <= |keys| && Low(keys, lo, n) < Rank(key) < High(keys, hi, n) && m < |keys|
    ensures n <= m ==> Rank(key) < Rank(keys[m]) && LowerBound(keys[..m], key) == n
    ensures n > m ==> Rank(keys[m]) < Rank(key) && LowerBound(keys[m + 1..], key) == n - m - 1
  {
    hide Rank, Less, LowerBound;
    AscendingSlices(keys, m);
    AscendingSlices(keys, m + 1);
    if n <= m {
      LowerBoundIs(keys[..m], key, n);
    } else {
      LowerBoundIs(keys[m + 1..], key, n - m - 1);
    }
  }

  lemma {:induction false} CutLeft(c: Ctx, l: Tree, r: Tree, key: ByteString, m: nat)
    requires c.In? && |c.left| + |c.right| == |c.keys| && |c.left| <= m < |c.keys|
    requires LowerBound(c.keys[..m], key) == |c.left|
    ensures var keys, ids, was := WideKeys(c, key), KidIds(WideKids(c, l, r)), KidIds(c.left) + [l.id]
            + KidIds(c.right);
      && InnerInsert(InnerPage(c.keys[..m], was[..m + 1]), key, r.id) == InnerPage(keys[..m + 1], ids[..m + 2])
      && c.keys[m] == keys[m + 1] && c.keys[m + 1..] == keys[m + 2..] && was[m + 1..] == ids[m + 2..]
  {
    hide LowerBound;
    var keys, ids, was := WideKeys(c, key), KidIds(WideKids(c, l, r)), KidIds(c.left) + [l.id] + KidIds(c.right);
    var n := |c.left|;
    assert ids == was[..n + 1] + [r.id] + was[n + 1..];
    InsertFront(was, n + 1, m + 1, r.id);
    InsertFront(c.keys, n, m, key);
  }

  lemma InsertFront<T>(s: seq<T>, i: nat, k: nat, x: T)
    requires i <= k <= |s|
    ensures s[..k][..i] + [x] + s[..k][i..] == (s[..i] + [x] + s[i..])[..k + 1]
    ensures s[k..] == (s[..i] + [x] + s[i..])[k + 1..]
  {
  }

  lemma CutRight(c: Ctx, l: Tree, r: Tree, key: ByteString, m: nat)
    requires c.In? && |c.left| + |c.right| == |c.keys| && m < |c.left|
    requires LowerBound(c.keys[m + 1..], key) == |c.left| - m - 1
    ensures var keys, ids, was := WideKeys(c, key), KidIds(WideKids(c, l, r)), KidIds(c.left) + [l.id]
            + KidIds(c.right);
      && InnerInsert(InnerPage(c.keys[m + 1..], was[m + 1..]), key, r.id) == InnerPage(keys[m + 1..], ids[m + 1..])
      && c.keys[m] == keys[m] && c.keys[..m] == keys[..m] && was[..m + 1] == ids[..m + 1]
  {
    hide LowerBound;
    var keys, ids, was := WideKeys(c, key), KidIds(WideKids(c, l, r)), KidIds(c.left) + [l.id] + KidIds(c.right);
    var n := |c.left|;
    assert ids == was[..n + 1] + [r.id] + was[n + 1..];
    InsertBack(was, n + 1, m + 1, r.id);
    InsertBack(c.keys, n, m + 1, key);
  }

  lemma InsertBack<T>(s: seq<T>, i: nat, k: nat, x: T)
    requires k <= i <= |s|
    ensures s[k..][..i - k] + [x] + s[k..][i - k..] == (s[..i] + [x] + s[i..])[k..]
    ensures s[..k] == (s[..i] + [x] + s[i..])[..k] && forall j | 0 <= j < k :: s[j] == (s[..i] + [x] + s[i..])[j]
  {
  }

  lemma CutWf(keys: seq<ByteString>, kids: seq<Tree>, h: nat, lo: real, hi: real, q: nat)
    requires WfKids(keys, kids, h, lo, hi) && q < |keys|
    ensures lo < Rank(keys[q]) < hi
    ensures WfKids(keys[..q], kids[..q + 1], h, lo, Rank(keys[q]))
    ensures WfKids(keys[q + 1..], kids[q + 1..], h, Rank(keys[q]), hi)
  {
    hide Rank, Less, Wf;
    forall i {:trigger kids[q + 1..][i]} | 0 <= i < |kids| - q - 1
      ensures Wf(kids[q + 1..][i], h, Low(keys[q + 1..], Rank(keys[q]), i), High(keys[q + 1..], hi, i), false)
    {
      assert kids[q + 1..][i] == kids[q + 1 + i];
    }
  }

  /** Both halves of a split page hold at least two keys and fit. */
  lemma CutFits(c: Ctx, key: ByteString, h: nat)
    requires c.In? && CtxOk(c, h) && !InnerHasSpace(c.keys, key)
    ensures InnerSplitAt(c.keys) < |c.keys|
    ensures var keys, q := WideKeys(c, key), CutAt(c, key);
      && 2 <= q && q + 3 <= |keys|
      && InnerUsed(keys[..q]) <= INNER_SIZE && InnerUsed(keys[q + 1..]) <= INNER_SIZE
  {
    hide Rank, Less, Wf, SortedKeys, InnerUsed, InnerSplitAt;
    InnerSplitFits(c.keys, key);
    var n, m := |c.left|, InnerSplitAt(c.keys);
    var keys := WideKeys(c, key);
    InnerUsedOne(key);
    if n <= m {
      assert keys[..m + 1] == c.keys[..n] + [key] + c.keys[n..m] && keys[m + 2..] == c.keys[m + 1..];
      assert c.keys[..m] == c.keys[..n] + c.keys[n..m];
      Inserted(c.keys[..n], key, c.keys[n..m]);
      UsedOfHasSpace(c.keys[m + 1..], key);
    } else {
      assert keys[m + 1..] == c.keys[m + 1..n] + [key] + c.keys[n..] && keys[..m] == c.keys[..m];
      assert c.keys[m + 1..] == c.keys[m + 1..n] + c.keys[n..];
      Inserted(c.keys[m + 1..n], key, c.keys[n..]);
      UsedOfHasSpace(c.keys[..m], key);
    }
  }

  lemma Inserted(a: seq<ByteString>, key: ByteString, b: seq<ByteString>)
    ensures InnerUsed(a + [key] + b) == InnerUsed(a + b) + |key| + 7
  {
    hide InnerUsed;
    InnerUsedAppend(a, b);
    InnerUsedAppend(a, [key]);
    InnerUsedAppend(a + [key], b);
    InnerUsedOne(key);
  }

  lemma UsedOfHasSpace(a: seq<ByteString>, key: ByteString)
    requires InnerHasSpace(a, key)
    ensures InnerUsed(a) <= INNER_SIZE
  {
  }

  // ------------------------------------------------------------------ contents as a map

  ghost function ToMap(entries: seq<Entry>): map<ByteString, ByteString> {
    if entries == [] then map[] else
      ToMap(entries[..|entries| - 1])[entries[|entries| - 1].key := entries[|entries| - 1].value]
  }

  lemma {:induction false} ToMapIs(entries: seq<Entry>, lo: real, hi: real)
    requires Sorted(entries, lo, hi)
    ensures forall k :: k in ToMap(entries) <==> exists e :: e in entries && e.key == k
    ensures forall e | e in entries :: e.key in ToMap(entries) && ToMap(entries)[e.key] == e.value
  {
    hide Rank, Less;
    if entries != [] {
      var init, last := entries[..|entries| - 1], entries[|entries| - 1];
      assert entries == init + [last];
      ToMapIs(init, lo, hi);
      forall e | e in entries ensures e.key in ToMap(entries) && ToMap(entries)[e.key] == e.value {
        if e in init {
          assert Rank(e.key) < Rank(last.key);
        }
      }
      forall k ensures k in ToMap(entries) <==> exists e :: e in entries && e.key == k {
        if k == last.key {
          assert last in entries;
        } else if k in ToMap(init) {
          var e :| e in init && e.key == k;
          assert e in entries;
        }
      }
    }
  }

  /** Sorted sequences with one entry more, or with one replaced, are maps with that key set. */
  lemma PutIsMapPut(a: seq<Entry>, b: seq<Entry>, key: ByteString, value: ByteString)
    requires Sorted(a, 0.0, 1.0) && Sorted(b, 0.0, 1.0)
    requires forall e :: e in b <==> e == Entry(key, value) || (e in a && e.key != key)
    ensures ToMap(b) == ToMap(a)[key := value]
  {
    hide Rank, Less, ToMap, Sorted;
    ToMapIs(a, 0.0, 1.0);
    ToMapIs(b, 0.0, 1.0);
    assert Entry(key, value) in b;
    forall k ensures k in ToMap(b) <==> k == key || k in ToMap(a) {
      if k != key && k in ToMap(a) {
        var e :| e in a && e.key == k;
        assert e in b;
      }
    }
    forall k | k in ToMap(a) && k != key ensures ToMap(b)[k] == ToMap(a)[k] {
      var e :| e in a && e.key == k;
      assert e in b;
    }
  }

  lemma DropIsMapDrop(a: seq<Entry>, b: seq<Entry>, key: ByteString)
    requires Sorted(a, 0.0, 1.0) && Sorted(b, 0.0, 1.0)
    requires forall e :: e in b <==> e in a && e.key != key
    ensures ToMap(b) == ToMap(a) - {key}
  {
    hide Rank, Less, ToMap, Sorted;
    ToMapIs(a, 0.0, 1.0);
    ToMapIs(b, 0.0, 1.0);
    forall k ensures k in ToMap(b) <==> k != key && k in ToMap(a) {
      if k != key && k in ToMap(a) {
        var e :| e in a && e.key == k;
        assert e in b;
      }
    }
    forall k | k in ToMap(b) ensures ToMap(b)[k] == ToMap(a)[k] {
      var e :| e in b && e.key == k;
      assert e in a;
    }
  }

  /** What is below the open place decides about the keys within its bounds. */
  lemma OutsideHole(c: Ctx, h: nat, key: ByteString)
    requires CtxOk(c, h) && HoleLo(c) <= Rank(key) < HoleHi(c)
    ensures Absent(Before(c), key) && Absent(After(c), key)
  {
    hide Rank, Less;
    CtxSorted(c, h);
  }
}
