/** What an insertion does to the pages: which are written, how many are new, and where the links lead. */
module TreeGrowth {
  import opened Basics
  import opened ByteStrings
  import opened Nodes
  import opened Trees
  import opened TreeSteps
  import opened TreeLinks

  /** Of the pages that were there only these are written. */
  ghost predicate OnlyOn(was: Pages, now: Pages, ids: seq<nat>) {
    was.Keys <= now.Keys && forall id | id in was && id !in ids :: now[id] == was[id]
  }

  /** How many pages are new when a key goes up this path: one for each full page, until one has room, and one more
      for the root. */
  ghost function Spread(pages: Pages, path: seq<nat>, key: ByteString): nat
    decreases |path|
  {
    if path == [] then 1 else
      var id := path[|path| - 1];
      if id !in pages || !GoodInner(pages[id]) || InnerHasSpace(pages[id].keys, key) then 0
      else if InnerSplitAt(pages[id].keys) >= |pages[id].keys| then 0
      else 1 + Spread(pages, path[..|path| - 1], pages[id].keys[InnerSplitAt(pages[id].keys)])
  }

  /** Leaf number `k` has become two with the entries `a` and `b`: the left one stays where it was, unless it is the
      root, and the right one is new. No other leaf is changed, the one behind them included. */
  ghost predicate SplitInto(was: Pages, leaves: seq<nat>, k: nat, now: Pages, leaves2: seq<nat>, a: seq<Entry>,
                            b: seq<Entry>) {
    && k < |leaves| && |leaves2| == |leaves| + 1 && leaves2[..k] == leaves[..k] && leaves2[k + 2..] == leaves[k + 1..]
    && leaves[k] in was && was[leaves[k]].LeafPage?
    && leaves2[k] in now && now[leaves2[k]] == LeafPage(a, was[leaves[k]].prev, leaves2[k + 1])
    && leaves2[k + 1] in now && now[leaves2[k + 1]] == LeafPage(b, leaves2[k], was[leaves[k]].next)
    && (leaves2[k] == leaves[k] || (leaves2[k] !in was && |leaves| == 1)) && leaves2[k + 1] !in was
    && forall i | 0 <= i < |leaves| && i != k ::
         leaves[i] in was && leaves[i] in now && now[leaves[i]] == was[leaves[i]]
  }

  /** The root leaf becomes an inner page; what it held is in a new page now, and the leaf behind it leads there. */
  ghost predicate RootMoved(was: Pages, left: nat, right: nat, now: Pages, leaves: seq<nat>) {
    && |leaves| == 2 && leaves[0] !in was && leaves[1] == right && left in was && right in was && was[right].LeafPage?
    && leaves[0] in now && now[leaves[0]] == was[left]
    && right in now && now[right] == was[right].(prev := leaves[0])
  }

  /** A new key goes into leaf number `k`, which is on the pages given and now has the entries given. If it has room,
      nothing else is written; otherwise it becomes two, and a key goes up the path to it. */
  ghost predicate LeafPut(was: Pages, leaves: seq<nat>, k: nat, path: seq<nat>, entries: seq<Entry>, key: ByteString,
                          value: ByteString, now: Pages, leaves2: seq<nat>) {
    && k < |leaves| && leaves[k] in was && was[leaves[k]].LeafPage?
    && if LeafHasSpace(entries, key, value) then
      leaves2 == leaves && now == was[leaves[k] := was[leaves[k]].(entries := LeafInsert(entries, key, value))]
    else
      0 < LeafSplitAt(entries) && LeafSplit(entries, key, value).1 != [] &&
      SplitInto(was, leaves, k, now, leaves2, LeafSplit(entries, key, value).0, LeafSplit(entries, key, value).1) &&
      |now| == |was| + 1 + Spread(was, path, LeafSplit(entries, key, value).1[0].key) &&
      OnlyOn(was, now, path + [leaves[k]])
  }

  lemma OnlyOnSame(pages: Pages, ids: seq<nat>)
    ensures OnlyOn(pages, pages, ids) && LeavesKept(pages, pages)
  {
  }

  lemma OnlyOnNext(was: Pages, now: Pages, ids: seq<nat>, id: nat, page: NodePage)
    requires OnlyOn(was, now, ids) && (id in ids || id !in was)
    ensures OnlyOn(was, now[id := page], ids)
  {
  }

  lemma OnlyOnMore(was: Pages, now: Pages, ids: seq<nat>, more: seq<nat>)
    requires OnlyOn(was, now, ids) && forall id | id in ids :: id in more || id !in was
    ensures OnlyOn(was, now, more)
  {
  }

  lemma OnlyOnThrough(was: Pages, mid: Pages, now: Pages, ids: seq<nat>, more: seq<nat>)
    requires OnlyOn(was, mid, ids) && OnlyOn(mid, now, more) && forall id | id in more :: id in ids || id !in was
    ensures OnlyOn(was, now, ids)
  {
  }

  lemma LeavesKeptNext(was: Pages, now: Pages, id: nat, page: NodePage)
    requires LeavesKept(was, now) && (id in was ==> !was[id].LeafPage?)
    ensures LeavesKept(was, now[id := page])
  {
  }

  lemma {:induction false} SpreadFrame(pages: Pages, pages2: Pages, path: seq<nat>, key: ByteString)
    requires forall id | id in path :: id in pages && id in pages2 && pages2[id] == pages[id]
    ensures Spread(pages2, path, key) == Spread(pages, path, key)
    decreases |path|
  {
    if path != [] {
      var id, rest := path[|path| - 1], path[..|path| - 1];
      assert id in path;
      if GoodInner(pages[id]) && InnerSplitAt(pages[id].keys) < |pages[id].keys| {
        SpreadFrame(pages, pages2, rest, pages[id].keys[InnerSplitAt(pages[id].keys)]);
      }
    }
  }

  lemma OnlyOnSplit(was: Pages, mid: Pages, now: Pages, path: seq<nat>, id: nat, right: nat)
    requires mid.Keys == was.Keys + {right} && right !in was && OnlyOn(mid, now, path + [id, right])
    requires forall x | x in was && x != id :: mid[x] == was[x]
    ensures OnlyOn(was, now, path + [id])
  {
    assert (path + [id])[|path|] == id;
    forall x | x in was && x !in path + [id] ensures now[x] == was[x] {
      assert x !in path + [id, right];
    }
  }

  /** Which entries the leaf had does not matter. */
  lemma SplitFrom(was: Pages, mid: Pages, leaves: seq<nat>, k: nat, now: Pages, leaves2: seq<nat>, a: seq<Entry>,
                  b: seq<Entry>)
    requires SplitInto(mid, leaves, k, now, leaves2, a, b) && NoRepeat(leaves)
    requires forall i | 0 <= i < |leaves| :: leaves[i] in was && was[leaves[i]].LeafPage?
    requires mid == was || mid == was[leaves[k] := was[leaves[k]].(entries := mid[leaves[k]].entries)]
    ensures SplitInto(was, leaves, k, now, leaves2, a, b)
  {
    forall i | 0 <= i < |leaves| && i != k ensures mid[leaves[i]] == was[leaves[i]] {
      assert leaves[i] != leaves[k];
    }
  }

  /** The leaf is not the root. */
  lemma SplitIntoNode(was: Pages, x: seq<nat>, id: nat, y: seq<nat>, now: Pages, right: nat, a: seq<Entry>,
                      b: seq<Entry>)
    requires id in was && was[id].LeafPage? && right !in was && NoRepeat(x + [id] + y)
    requires forall i | 0 <= i < |x + [id] + y| :: (x + [id] + y)[i] in was && was[(x + [id] + y)[i]].LeafPage?
    requires LeavesKept(SplitPages(was, id, right, a, b), now)
    ensures SplitInto(was, x + [id] + y, |x|, now, x + [id, right] + y, a, b)
  {
    var leaves, leaves2, k := x + [id] + y, x + [id, right] + y, |x|;
    var mid := SplitPages(was, id, right, a, b);
    assert leaves[k] == id && leaves2[k] == id && leaves2[k + 1] == right;
    assert leaves2[..k] == leaves[..k] && leaves2[k + 2..] == leaves[k + 1..];
    forall i | 0 <= i < |leaves| && i != k ensures leaves[i] in now && now[leaves[i]] == was[leaves[i]] {
      assert leaves[i] != leaves[k];
      assert mid[leaves[i]] == was[leaves[i]];
    }
    assert mid[id].LeafPage? && mid[right].LeafPage?;
  }

  /** The leaf is the root. */
  lemma SplitIntoRoot(was: Pages, id: nat, now: Pages, right: nat, leaves2: seq<nat>, a: seq<Entry>, b: seq<Entry>)
    requires id in was && was[id].LeafPage? && right !in was
    requires RootMoved(SplitPages(was, id, right, a, b), id, right, now, leaves2)
    ensures SplitInto(was, [id], 0, now, leaves2, a, b)
  {
    assert leaves2[..0] == [id][..0] && leaves2[2..] == [id][1..];
  }

  lemma SpreadRoom(pages: Pages, path: seq<nat>, key: ByteString)
    requires path != [] && path[|path| - 1] in pages && GoodInner(pages[path[|path| - 1]])
    requires InnerHasSpace(pages[path[|path| - 1]].keys, key)
    ensures Spread(pages, path, key) == 0
  {
  }

  lemma SpreadFull(pages: Pages, path: seq<nat>, key: ByteString, right: nat)
    requires path != [] && path[|path| - 1] in pages && GoodInner(pages[path[|path| - 1]])
    requires var p := pages[path[|path| - 1]]; !InnerHasSpace(p.keys, key) && InnerSplitAt(p.keys) < |p.keys|
    ensures var (_, mid, _) := InnerSplit(pages[path[|path| - 1]], key, right);
      Spread(pages, path, key) == 1 + Spread(pages, path[..|path| - 1], mid)
  {
    hide InnerSplitAt, InnerHasSpace, InnerInsert;
  }

  lemma SpreadTop(pages: Pages, key: ByteString)
    ensures Spread(pages, [], key) == 1
  {
  }

  // ------------------------------------------------------------------ links

  /** A leaf split keeps all links to the left right if and only if no leaf is behind the one that splits. */
  lemma SplitKeepsBack(was: Pages, leaves: seq<nat>, k: nat, now: Pages, leaves2: seq<nat>, a: seq<Entry>,
                       b: seq<Entry>)
    requires SplitInto(was, leaves, k, now, leaves2, a, b) && Back(was, leaves)
    ensures Back(now, leaves2) <==> k + 1 == |leaves|
  {
    hide SplitInto, Back;
    SplitSize(was, leaves, k, now, leaves2, a, b);
    if k + 1 < |leaves| {
      BehindSplit(was, leaves, k, now, leaves2, a, b);
    } else {
      forall i | 0 <= i < |leaves2|
        ensures leaves2[i] in now && now[leaves2[i]].LeafPage?
        ensures now[leaves2[i]].prev == (if i == 0 then INVALID else leaves2[i - 1])
      {
        SplitPrev(was, leaves, k, now, leaves2, a, b, i);
      }
      BackIs(now, leaves2);
    }
  }

  lemma SplitSize(was: Pages, leaves: seq<nat>, k: nat, now: Pages, leaves2: seq<nat>, a: seq<Entry>, b: seq<Entry>)
    requires SplitInto(was, leaves, k, now, leaves2, a, b)
    ensures k < |leaves| && |leaves2| == |leaves| + 1
  {
  }

  lemma BehindSplit(was: Pages, leaves: seq<nat>, k: nat, now: Pages, leaves2: seq<nat>, a: seq<Entry>, b: seq<Entry>)
    requires SplitInto(was, leaves, k, now, leaves2, a, b) && Back(was, leaves) && k + 1 < |leaves|
    ensures !Back(now, leaves2)
  {
    hide Back;
    BackAt(was, leaves, k + 1);
    Middle(leaves, leaves2, k, k + 2);
    if Back(now, leaves2) {
      BackAt(now, leaves2, k + 2);
    }
  }

  lemma SplitPrev(was: Pages, leaves: seq<nat>, k: nat, now: Pages, leaves2: seq<nat>, a: seq<Entry>, b: seq<Entry>,
                  i: nat)
    requires SplitInto(was, leaves, k, now, leaves2, a, b) && Back(was, leaves) && k + 1 == |leaves| && i < |leaves2|
    ensures leaves2[i] in now && now[leaves2[i]].LeafPage?
    ensures now[leaves2[i]].prev == (if i == 0 then INVALID else leaves2[i - 1])
  {
    hide Back;
    Middle(leaves, leaves2, k, i);
    if i <= k {
      BackAt(was, leaves, i);
      Middle(leaves, leaves2, k, if i == 0 then 0 else i - 1);
    }
  }

  lemma Middle(leaves: seq<nat>, leaves2: seq<nat>, k: nat, i: nat)
    requires k < |leaves| && |leaves2| == |leaves| + 1 && leaves2[..k] == leaves[..k]
    requires leaves2[k + 2..] == leaves[k + 1..] && i < |leaves2|
    ensures i < k ==> leaves2[i] == leaves[i]
    ensures i >= k + 2 ==> leaves2[i] == leaves[i - 1]
  {
    if i < k {
      assert leaves2[..k][i] == leaves[..k][i];
    } else if i >= k + 2 {
      assert leaves2[k + 2..][i - k - 2] == leaves[k + 1..][i - k - 2];
    }
  }

  /** Whether the link of a leaf to the left is right stays as it was, save for the leaf behind the two: its link leads
      to the left one of them, which is wrong. The link of the new leaf is right. */
  lemma SplitKeepsLeft(was: Pages, leaves: seq<nat>, k: nat, now: Pages, leaves2: seq<nat>, a: seq<Entry>,
                       b: seq<Entry>, i: nat)
    requires SplitInto(was, leaves, k, now, leaves2, a, b) && NoRepeat(leaves) && NoRepeat(leaves2)
    requires i < |leaves| && LeafLinked(was, leaves[i]) && INVALID !in now
    ensures i != k + 1 ==>
              (LeftIs(now, leaves2, leaves2[if i <= k then i else i + 1]) <==> LeftIs(was, leaves, leaves[i]))
    ensures LeftIs(now, leaves2, leaves2[k + 1])
    ensures i == k + 1 && LeftIs(was, leaves, leaves[i]) ==> !LeftIs(now, leaves2, leaves2[i + 1])
  {
    hide SplitInto, LeftIs, NoRepeat, LeafLinked;
    SplitFacts(was, leaves, k, now, leaves2, a, b, i);
    var j := if i <= k then i else i + 1;
    LeftAt(was, leaves, i);
    LeftAt(now, leaves2, j);
    LeftAt(now, leaves2, k + 1);
  }

  lemma LeftAt(pages: Pages, leaves: seq<nat>, i: nat)
    requires NoRepeat(leaves) && i < |leaves| && leaves[i] in pages && pages[leaves[i]].LeafPage?
    ensures LeftIs(pages, leaves, leaves[i]) <==>
            if i == 0 then pages[leaves[0]].prev !in leaves[1..] else pages[leaves[i]].prev == leaves[i - 1]
  {
    assert forall k | 0 <= k < |leaves| && leaves[k] == leaves[i] :: k == i;
  }

  lemma SplitFacts(was: Pages, leaves: seq<nat>, k: nat, now: Pages, leaves2: seq<nat>, a: seq<Entry>, b: seq<Entry>,
                   i: nat)
    requires SplitInto(was, leaves, k, now, leaves2, a, b) && i < |leaves| && NoRepeat(leaves) && NoRepeat(leaves2)
    requires LeafLinked(was, leaves[i]) && INVALID !in now
    ensures |leaves2| == |leaves| + 1 && k < |leaves| && leaves[i] in was && was[leaves[i]].LeafPage?
    ensures leaves2[k + 1] in now && now[leaves2[k + 1]].LeafPage? && now[leaves2[k + 1]].prev == leaves2[k]
    ensures var j, p := if i <= k then i else i + 1, was[leaves[i]].prev;
      && leaves2[j] in now && now[leaves2[j]].LeafPage? && now[leaves2[j]].prev == p
      && (i == 0 ==> (p in leaves[1..] <==> p in leaves2[1..]))
      && (i > 0 && i != k + 1 ==> leaves2[j - 1] == leaves[i - 1])
      && (i == k + 1 && p == leaves[k] ==> p != leaves2[k + 1])
  {
    var j, p := if i <= k then i else i + 1, was[leaves[i]].prev;
    Middle(leaves, leaves2, k, j);
    Middle(leaves, leaves2, k, if j == 0 then 0 else j - 1);
    if i == 0 {
      forall m | 0 < m < |leaves| ensures leaves[m] in leaves2[1..] || leaves[m] == leaves[k] {
        Middle(leaves, leaves2, k, if m <= k then m else m + 1);
      }
    }
  }
}
