/** Taking an emptied leaf out of the chain of leaves. */
module TreeLinks {
  import opened Basics
  import opened ByteStrings
  import opened Nodes
  import opened Trees
  import opened TreeSteps

  /** Same pages, same contents; only links between leaves may differ. */
  ghost predicate SameBut(pages: Pages, pages2: Pages) {
    && pages2.Keys == pages.Keys
    && forall id | id in pages ::
         if pages[id].LeafPage? then pages2[id].LeafPage? && pages2[id].entries == pages[id].entries
         else pages2[id] == pages[id]
  }

  lemma {:induction false} SameMatches(pages: Pages, pages2: Pages, t: Tree)
    requires SameBut(pages, pages2) && Matches(pages, t)
    ensures Matches(pages2, t)
    decreases t
  {
    if t.Node? {
      forall i | 0 <= i < |t.kids| ensures Matches(pages2, t.kids[i]) {
        SameMatches(pages, pages2, t.kids[i]);
      }
    }
  }

  lemma {:induction false} SameCtx(pages: Pages, pages2: Pages, c: Ctx, hole: nat)
    requires SameBut(pages, pages2) && CtxMatches(pages, c, hole)
    ensures CtxMatches(pages2, c, hole)
  {
    hide Matches;
    if c.In? {
      forall i | 0 <= i < |c.left| ensures Matches(pages2, c.left[i]) {
        SameMatches(pages, pages2, c.left[i]);
      }
      forall i | 0 <= i < |c.right| ensures Matches(pages2, c.right[i]) {
        SameMatches(pages, pages2, c.right[i]);
      }
      SameCtx(pages, pages2, c.up, c.id);
    }
  }

  function SkipRight(pages: Pages, prev: nat, next: nat): Pages
    requires prev == INVALID || (prev in pages && pages[prev].LeafPage?)
  {
    if prev == INVALID then pages else pages[prev := pages[prev].(next := next)]
  }

  function SkipLeft(pages: Pages, prev: nat, next: nat): Pages
    requires next == INVALID || (next in pages && pages[next].LeafPage?)
  {
    if next == INVALID then pages else pages[next := pages[next].(prev := prev)]
  }

  /** The pages after the neighbours of leaf `id` have been linked to each other. */
  function Unlinked(pages: Pages, id: nat): Pages
    requires id in pages && pages[id].LeafPage?
    requires pages[id].prev == INVALID || (pages[id].prev in pages && pages[pages[id].prev].LeafPage?)
    requires pages[id].next == INVALID || (pages[id].next in pages && pages[pages[id].next].LeafPage?)
  {
    SkipLeft(SkipRight(pages, pages[id].prev, pages[id].next), pages[id].prev, pages[id].next)
  }

  lemma UnlinkedKeeps(pages: Pages, id: nat, leaves: seq<nat>, root: nat)
    requires Linked(pages, leaves, root) && id in leaves
    ensures LeafLinked(pages, id) && SameBut(pages, Unlinked(pages, id))
    ensures Linked(Unlinked(pages, id), leaves, root)
  {
    var i :| 0 <= i < |leaves| && leaves[i] == id;
    assert LeafLinked(pages, leaves[i]) && pages[leaves[i]].prev != root && pages[leaves[i]].next != root;
    var pages2 := Unlinked(pages, id);
    forall x | LinkOk(pages, x) ensures LinkOk(pages2, x) {
    }
    forall j | 0 <= j < |leaves|
      ensures LeafLinked(pages2, leaves[j]) && pages2[leaves[j]].prev != root && pages2[leaves[j]].next != root
    {
      assert LeafLinked(pages, leaves[j]);
    }
  }

  lemma LinkedWithout(pages: Pages, x: seq<nat>, id: nat, y: seq<nat>, root: nat)
    requires Linked(pages, x + [id] + y, root)
    ensures Linked(pages, x + y, root)
  {
    var was, now := x + [id] + y, x + y;
    forall i | 0 <= i < |now|
      ensures LeafLinked(pages, now[i]) && pages[now[i]].prev != root && pages[now[i]].next != root
    {
      assert now[i] == was[if i < |x| then i else i + 1];
    }
  }

  /** The link to the left of each of these leaves is right. */
  ghost predicate Back(pages: Pages, leaves: seq<nat>) {
    forall i {:trigger leaves[i]} | 0 <= i < |leaves| :: leaves[i] in pages && pages[leaves[i]].LeafPage?
      && pages[leaves[i]].prev == (if i == 0 then INVALID else leaves[i - 1])
  }

  ghost predicate NoRepeat(leaves: seq<nat>) {
    forall i, j | 0 <= i < j < |leaves| :: leaves[i] != leaves[j]
  }

  /** An emptied leaf drops out of the chain exactly when its link to the left is right. */
  lemma UnlinkKeepsChain(pages: Pages, x: seq<nat>, id: nat, y: seq<nat>)
    requires Chain(pages, x + [id] + y) && NoRepeat(x + [id] + y) && INVALID !in pages && LeafLinked(pages, id)
    ensures Chain(Unlinked(pages, id), x + y) <==>
            if x == [] then pages[id].prev !in y else pages[id].prev == x[|x| - 1]
  {
    hide Chain, NoRepeat;
    ChainParts(pages, x, id, y);
    var pages2, now, n := Unlinked(pages, id), x + y, |x|;
    var prev := pages[id].prev;
    if (if x == [] then prev !in y else prev == x[n - 1]) {
      forall i {:trigger now[i]} | 0 <= i < |now|
        ensures now[i] in pages2 && pages2[now[i]].LeafPage?
        ensures pages2[now[i]].next == (if i + 1 < |now| then now[i + 1] else INVALID)
      {
        if i < n {
          assert now[i] == x[i];
        } else {
          assert now[i] == y[i - n];
        }
      }
      ChainIs(pages2, now);
    } else {
      Broken(pages, x, id, y);
    }
  }

  /** The link of leaf `id` to the left leads to the leaf before it or, if it is the first one, to none of the
      others. */
  ghost predicate LeftIs(pages: Pages, leaves: seq<nat>, id: nat) {
    forall i {:trigger leaves[i]} | 0 <= i < |leaves| && leaves[i] == id ::
      && id in pages && pages[id].LeafPage?
      && if i == 0 then pages[id].prev !in leaves[1..] else pages[id].prev == leaves[i - 1]
  }

  lemma LeftOf(pages: Pages, x: seq<nat>, id: nat, y: seq<nat>)
    requires NoRepeat(x + [id] + y) && id in pages && pages[id].LeafPage?
    ensures LeftIs(pages, x + [id] + y, id) <==>
            if x == [] then pages[id].prev !in y else pages[id].prev == x[|x| - 1]
  {
    var leaves, n := x + [id] + y, |x|;
    assert leaves[n] == id && (x == [] ==> leaves[1..] == y);
    assert n > 0 ==> leaves[n - 1] == x[n - 1];
    forall i | 0 <= i < |leaves| && leaves[i] == id ensures i == n {
    }
    if LeftIs(pages, leaves, id) {
      assert if n == 0 then pages[id].prev !in leaves[1..] else pages[id].prev == leaves[n - 1];
    }
  }

  lemma ChainIs(pages: Pages, leaves: seq<nat>)
    requires forall i {:trigger leaves[i]} | 0 <= i < |leaves| ::
               && leaves[i] in pages && pages[leaves[i]].LeafPage?
               && pages[leaves[i]].next == (if i + 1 < |leaves| then leaves[i + 1] else INVALID)
    ensures Chain(pages, leaves)
  {
  }

  lemma ChainParts(pages: Pages, x: seq<nat>, id: nat, y: seq<nat>)
    requires Chain(pages, x + [id] + y) && NoRepeat(x + [id] + y)
    ensures id in pages && pages[id].LeafPage? && pages[id].next == (if y == [] then INVALID else y[0])
    ensures forall i {:trigger x[i]} | 0 <= i < |x| :: x[i] in pages && pages[x[i]].LeafPage? && x[i] != id
              && pages[x[i]].next == (if i + 1 < |x| then x[i + 1] else id)
    ensures forall i {:trigger y[i]} | 0 <= i < |y| :: y[i] in pages && pages[y[i]].LeafPage? && y[i] != id
              && pages[y[i]].next == (if i + 1 < |y| then y[i + 1] else INVALID)
    ensures forall i, j | 0 <= i < |x| && 0 <= j < |y| :: x[i] != y[j]
    ensures NoRepeat(x) && NoRepeat(y)
  {
    hide Chain, NoRepeat;
    var was, n := x + [id] + y, |x|;
    Parts3(x, id, y);
    ChainAt(pages, was, n);
    forall i {:trigger x[i]} | 0 <= i < |x|
      ensures x[i] in pages && pages[x[i]].LeafPage? && pages[x[i]].next == (if i + 1 < |x| then x[i + 1] else id)
    {
      ChainAt(pages, was, i);
      assert was[i] == x[i] && was[i + 1] == if i + 1 < n then x[i + 1] else id;
    }
    forall i {:trigger y[i]} | 0 <= i < |y|
      ensures y[i] in pages && pages[y[i]].LeafPage? && pages[y[i]].next == (if i + 1 < |y| then y[i + 1] else INVALID)
    {
      ChainAt(pages, was, n + 1 + i);
      assert was[n + 1 + i] == y[i] && (i + 1 < |y| ==> was[n + 2 + i] == y[i + 1]);
    }
  }

  lemma Parts3(x: seq<nat>, id: nat, y: seq<nat>)
    requires NoRepeat(x + [id] + y)
    ensures NoRepeat(x) && NoRepeat(y)
    ensures (forall i | 0 <= i < |x| :: x[i] != id) && (forall i | 0 <= i < |y| :: y[i] != id)
    ensures forall i, j | 0 <= i < |x| && 0 <= j < |y| :: x[i] != y[j]
  {
    var was, n := x + [id] + y, |x|;
    assert was[n] == id;
    assert forall i | 0 <= i < n :: was[i] == x[i];
    assert forall i | 0 <= i < |y| :: was[n + 1 + i] == y[i];
  }

  lemma Broken(pages: Pages, x: seq<nat>, id: nat, y: seq<nat>)
    requires Chain(pages, x + [id] + y) && NoRepeat(x + [id] + y) && INVALID !in pages && LeafLinked(pages, id)
    requires if x == [] then pages[id].prev in y else pages[id].prev != x[|x| - 1]
    ensures !Chain(Unlinked(pages, id), x + y)
  {
    hide NoRepeat, Chain;
    ChainParts(pages, x, id, y);
    var pages2, now, n := Unlinked(pages, id), x + y, |x|;
    if x != [] {
      assert now[n - 1] == x[n - 1] && pages2[x[n - 1]].next == id;
      assert y != [] ==> now[n] == y[0];
      NotChain(pages2, now, n - 1);
    } else {
      assert now == y;
      var k :| 0 <= k < |y| && y[k] == pages[id].prev;
      FirstOnce(y, k);
      NotChain(pages2, now, k);
    }
  }

  lemma NotChain(pages: Pages, leaves: seq<nat>, i: nat)
    requires i < |leaves| && leaves[i] in pages && pages[leaves[i]].LeafPage?
    requires pages[leaves[i]].next != (if i + 1 < |leaves| then leaves[i + 1] else INVALID)
    ensures !Chain(pages, leaves)
  {
  }

  lemma ChainAt(pages: Pages, leaves: seq<nat>, i: nat)
    requires Chain(pages, leaves) && i < |leaves|
    ensures leaves[i] in pages && pages[leaves[i]].LeafPage?
    ensures pages[leaves[i]].next == (if i + 1 < |leaves| then leaves[i + 1] else INVALID)
  {
  }

  lemma FirstOnce(y: seq<nat>, k: nat)
    requires NoRepeat(y) && k < |y|
    ensures k + 1 < |y| ==> y[k + 1] != y[0]
  {
  }

  /** With right links in both directions, an emptied leaf drops out and all links stay right. */
  lemma UnlinkKeepsBoth(pages: Pages, x: seq<nat>, id: nat, y: seq<nat>)
    requires Chain(pages, x + [id] + y) && Back(pages, x + [id] + y) && NoRepeat(x + [id] + y)
    requires INVALID !in pages && LeafLinked(pages, id)
    ensures Chain(Unlinked(pages, id), x + y) && Back(Unlinked(pages, id), x + y)
  {
    hide Chain, NoRepeat, Back;
    LastLink(pages, x, id, y);
    UnlinkKeepsChain(pages, x, id, y);
    var pages2, now := Unlinked(pages, id), x + y;
    hide LeafLinked, Unlinked;
    forall i | 0 <= i < |now|
      ensures now[i] in pages2 && pages2[now[i]].LeafPage?
      ensures pages2[now[i]].prev == (if i == 0 then INVALID else now[i - 1])
    {
      BothAt(pages, x, id, y, i);
    }
    BackIs(pages2, now);
  }

  lemma LastLink(pages: Pages, x: seq<nat>, id: nat, y: seq<nat>)
    requires Chain(pages, x + [id] + y) && Back(pages, x + [id] + y) && NoRepeat(x + [id] + y) && INVALID !in pages
    ensures id in pages && pages[id].LeafPage? && pages[id].prev == (if x == [] then INVALID else x[|x| - 1])
    ensures x == [] ==> pages[id].prev !in y
  {
    hide Chain, NoRepeat, Back;
    ChainParts(pages, x, id, y);
    BackAt(pages, x + [id] + y, |x|);
  }

  lemma BothAt(pages: Pages, x: seq<nat>, id: nat, y: seq<nat>, i: nat)
    requires Chain(pages, x + [id] + y) && Back(pages, x + [id] + y) && NoRepeat(x + [id] + y)
    requires INVALID !in pages && LeafLinked(pages, id) && i < |x| + |y|
    ensures var now, pages2 := x + y, Unlinked(pages, id);
      now[i] in pages2 && pages2[now[i]].LeafPage? && pages2[now[i]].prev == (if i == 0 then INVALID else now[i - 1])
  {
    hide Chain, NoRepeat, Back, LeafLinked, Unlinked;
    LastLink(pages, x, id, y);
    NotNext(pages, x, id, y, i);
    BackAt(pages, x + [id] + y, if i < |x| then i else i + 1);
    UnlinkedPrev(pages, x, id, y, i);
  }

  lemma NotNext(pages: Pages, x: seq<nat>, id: nat, y: seq<nat>, i: nat)
    requires Chain(pages, x + [id] + y) && NoRepeat(x + [id] + y) && i < |x| + |y|
    ensures id in pages && pages[id].LeafPage? && pages[id].next == (if y == [] then INVALID else y[0])
    ensures y != [] && i != |x| ==> (if i < |x| then x[i] else y[i - |x|]) != y[0]
  {
    hide Chain, NoRepeat;
    ChainParts(pages, x, id, y);
    if i > |x| {
      NotFirst(y, i - |x|);
    }
  }

  lemma UnlinkedPrev(pages: Pages, x: seq<nat>, id: nat, y: seq<nat>, i: nat)
    requires INVALID !in pages && LeafLinked(pages, id) && pages[id].next == (if y == [] then INVALID else y[0])
    requires i < |x| + |y|
    requires y != [] && i != |x| ==> (if i < |x| then x[i] else y[i - |x|]) != y[0]
    requires pages[id].prev == if x == [] then INVALID else x[|x| - 1]
    requires var was, j := x + [id] + y, if i < |x| then i else i + 1;
      was[j] in pages && pages[was[j]].LeafPage? && pages[was[j]].prev == (if j == 0 then INVALID else was[j - 1])
    ensures var now, pages2 := x + y, Unlinked(pages, id);
      now[i] in pages2 && pages2[now[i]].LeafPage? && pages2[now[i]].prev == (if i == 0 then INVALID else now[i - 1])
  {
    var was, now, n := x + [id] + y, x + y, |x|;
    if i < n {
      assert now[i] == x[i] == was[i] && (i > 0 ==> now[i - 1] == x[i - 1] == was[i - 1]);
    } else {
      assert now[i] == y[i - n] == was[i + 1];
      if i > n {
        assert now[i - 1] == y[i - n - 1] == was[i];
      } else {
        assert n > 0 ==> now[n - 1] == x[n - 1];
      }
    }
  }

  lemma BackIs(pages: Pages, leaves: seq<nat>)
    requires forall i {:trigger leaves[i]} | 0 <= i < |leaves| ::
               && leaves[i] in pages && pages[leaves[i]].LeafPage?
               && pages[leaves[i]].prev == (if i == 0 then INVALID else leaves[i - 1])
    ensures Back(pages, leaves)
  {
  }

  lemma BackAt(pages: Pages, leaves: seq<nat>, i: nat)
    requires Back(pages, leaves) && i < |leaves|
    ensures leaves[i] in pages && pages[leaves[i]].LeafPage?
    ensures pages[leaves[i]].prev == (if i == 0 then INVALID else leaves[i - 1])
  {
  }

  lemma NotFirst(y: seq<nat>, k: nat)
    requires NoRepeat(y) && 0 < k < |y|
    ensures y[k] != y[0]
  {
  }

  /** A split does not tell the next leaf about its new neighbour. When that leaf is emptied later, the
      chain breaks. */
  lemma UnlinkAfterSplit(pages: Pages, x: seq<nat>, id: nat, n: nat, y: seq<nat>, right: nat, a: seq<Entry>,
                         b: seq<Entry>)
    requires Chain(pages, x + [id, n] + y) && NoRepeat(x + [id, n] + y) && INVALID !in pages
    requires LeafLinked(pages, n) && pages[n].prev == id && right !in pages && right != INVALID
    ensures id in pages && pages[id].LeafPage? && LeafLinked(SplitPages(pages, id, right, a, b), n)
    ensures Chain(SplitPages(pages, id, right, a, b), x + [id, right] + [n] + y)
    ensures !Chain(Unlinked(SplitPages(pages, id, right, a, b), n), x + [id, right] + y)
  {
    hide Chain, NoRepeat;
    var z := [n] + y;
    assert x + [id, n] + y == x + [id] + z && x + [id, right] + [n] + y == x + [id, right] + z;
    ChainParts(pages, x, id, z);
    assert z[0] == n;
    ChainSplit(pages, x, id, z, right, a, b);
    var pages2 := SplitPages(pages, id, right, a, b);
    assert forall v | LinkOk(pages, v) :: LinkOk(pages2, v);
    FreshNoRepeat(pages, x, id, z, right);
    UnlinkKeepsChain(pages2, x + [id, right], n, y);
  }

  /** Taking a leaf out of the chain leaves other pages `rest` as they are if and only if the links between them
      and the leaf lead past the leaf already: a page that a stale link leads to is written. */
  lemma UnlinkOutside(pages: Pages, id: nat, rest: multiset<nat>)
    requires LeafLinked(pages, id) && INVALID !in pages
    ensures Agree(pages, Unlinked(pages, id), rest) <==> (
        && (pages[id].prev in rest && pages[id].prev != INVALID ==> pages[pages[id].prev].next == pages[id].next)
        && (pages[id].next in rest && pages[id].next != INVALID ==> pages[pages[id].next].prev == pages[id].prev))
  {
    var now, p, n := Unlinked(pages, id), pages[id].prev, pages[id].next;
    assert p != INVALID ==> now[p].next == n;
    assert n != INVALID ==> now[n].prev == p;
    assert forall i | i in pages && i != p && i != n :: now[i] == pages[i];
  }

  /** Where the links are right in both directions, only leaves of the chain are written. */
  lemma UnlinkInside(pages: Pages, x: seq<nat>, id: nat, y: seq<nat>, rest: multiset<nat>)
    requires Chain(pages, x + [id] + y) && Back(pages, x + [id] + y) && NoRepeat(x + [id] + y)
    requires INVALID !in pages && LeafLinked(pages, id)
    requires forall i | 0 <= i < |x + y| :: (x + y)[i] !in rest
    ensures Agree(pages, Unlinked(pages, id), rest)
  {
    hide Chain, NoRepeat, Back, Unlinked, Agree;
    LastLink(pages, x, id, y);
    ChainParts(pages, x, id, y);
    assert x != [] ==> (x + y)[|x| - 1] == x[|x| - 1];
    assert y != [] ==> (x + y)[|x|] == y[0];
    UnlinkOutside(pages, id, rest);
  }

  /** A leaf splits and is emptied, then the one that was next to it: its link still leads to the page freed, and
      this page is written. */
  lemma UnlinkWritesFreed(pages: Pages, x: seq<nat>, id: nat, n: nat, y: seq<nat>, right: nat, a: seq<Entry>,
                          b: seq<Entry>)
    requires Chain(pages, x + [id, n] + y) && Back(pages, x + [id, n] + y) && NoRepeat(x + [id, n] + y)
    requires INVALID !in pages && LeafLinked(pages, n) && LeafLinked(pages, id)
    requires right !in pages && right != INVALID
    ensures var split := SplitPages(pages, id, right, a, b);
      && LeafLinked(split, id) && LeafLinked(Unlinked(split, id), n)
      && !Agree(Unlinked(split, id), Unlinked(Unlinked(split, id), n), multiset{id})
  {
    var all, i := x + [id, n] + y, |x|;
    assert all[i] == id && all[i + 1] == n;
    assert pages[all[i + 1]].prev == all[i] && pages[all[i]].prev != n;
    var split := SplitPages(pages, id, right, a, b);
    var gone := Unlinked(split, id);
    assert gone[id].next == right && gone[n].prev == id && gone[n].next == pages[n].next != right;
    UnlinkOutside(gone, n, multiset{id});
  }

  lemma FreshNoRepeat(pages: Pages, x: seq<nat>, id: nat, z: seq<nat>, right: nat)
    requires NoRepeat(x + [id] + z) && right !in pages && id in pages
    requires (forall i | 0 <= i < |x| :: x[i] in pages) && (forall i | 0 <= i < |z| :: z[i] in pages)
    ensures NoRepeat(x + [id, right] + z)
  {
    Parts3(x, id, z);
  }
}
