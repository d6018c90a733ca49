/** Whole runs of a tree: any number of insertions and removals in any order. */
module TreeRuns {
  import opened ByteStrings
  import opened Nodes
  import opened Trees
  import opened TreeInsert
  import opened TreeCursors
  import opened BTrees

  datatype Op = Put(key: ByteString, value: ByteString) | Delete(key: ByteString)

  function Then(m: map<ByteString, ByteString>, op: Op): map<ByteString, ByteString> {
    if op.Put? then m[op.key := op.value] else m - {op.key}
  }

  /** What a run makes of a map. */
  function Result(m: map<ByteString, ByteString>, ops: seq<Op>): map<ByteString, ByteString> {
    if ops == [] then m else Then(Result(m, ops[..|ops| - 1]), ops[|ops| - 1])
  }

  /** Operation number `k` takes the last entry out of the map. */
  ghost predicate Empties(m: map<ByteString, ByteString>, ops: seq<Op>, k: nat)
    requires k < |ops|
  {
    ops[k].Delete? && ops[k].key in Result(m, ops[..k]) && Result(m, ops[..k + 1]) == map[]
  }

  /** With keys of one length no run gets stuck, and the tree always is the map. No page is lost or used twice if and
      only if no removal takes the last entry. */
  method RunAll(tree: BTree, ops: seq<Op>, length: nat)
    requires tree.Valid() && tree.Uniform(length) && forall op | op in ops :: |op.key| == length
    modifies tree
    ensures tree.Valid() && tree.Uniform(length) && tree.root == old(tree.root)
    ensures tree.Contents() == Result(old(tree.Contents()), ops)
    ensures old(tree.Conserved()) ==>
              (tree.Conserved() <==> forall k | 0 <= k < |ops| :: !Empties(old(tree.Contents()), ops, k))
  {
    hide BTree.Valid, BTree.Conserved, BTree.Contents, BTree.Uniform, BTree.BackLinked, BTree.Chained, Result, Written,
         IsLast;
    hide LeafIds, LeafOf, PathTo;
    ghost var before, emptied := tree.Contents(), false;
    ResultNext(before, ops, 0);
    for i := 0 to |ops|
      invariant tree.Valid() && tree.Uniform(length) && tree.root == old(tree.root)
      invariant tree.Contents() == Result(before, ops[..i])
      invariant emptied <==> exists k :: 0 <= k < i && Empties(before, ops, k)
      invariant if emptied then tree.root in tree.freePages else old(tree.Conserved()) ==> tree.Conserved()
    {
      ResultNext(before, ops, i);
      match ops[i]
      case Put(key, value) =>
        var r := tree.Insert(key, value, _ => true);
      case Delete(key) =>
        var r := tree.Remove(key);
      emptied := emptied || Empties(before, ops, i);
    }
    assert ops[..|ops|] == ops;
    if emptied {
      RootTwice(tree);
    }
  }

  lemma ResultNext(m: map<ByteString, ByteString>, ops: seq<Op>, i: nat)
    ensures Result(m, []) == m && ops[..0] == []
    ensures i < |ops| ==> Result(m, ops[..i + 1]) == Then(Result(m, ops[..i]), ops[i])
  {
    if i < |ops| {
      assert ops[..i + 1][..i] == ops[..i];
    }
  }

  lemma RootTwice(tree: BTree)
    requires tree.Valid() && tree.root in tree.freePages
    ensures !tree.Conserved()
  {
    var ids, free := Ids(tree.tree), multiset(tree.freePages);
    assert tree.root in ids && tree.root in free;
    assert (ids + free)[tree.root] == ids[tree.root] + free[tree.root] > multiset(tree.pages.Keys)[tree.root];
  }

  function Puts(entries: seq<Entry>): seq<Op> {
    seq(|entries|, i requires 0 <= i < |entries| => Put(entries[i].key, entries[i].value))
  }

  lemma ResultMore(m: map<ByteString, ByteString>, entries: seq<Entry>, i: nat)
    requires i < |entries|
    ensures |Puts(entries)| == |entries|
    ensures Result(m, Puts(entries)[..i + 1])
         == Result(m, Puts(entries)[..i])[entries[i].key := entries[i].value]
  {
    assert Puts(entries)[..i + 1][..i] == Puts(entries)[..i];
  }

  lemma ResultNone(m: map<ByteString, ByteString>, entries: seq<Entry>)
    ensures |Puts(entries)| == |entries| && Puts(entries)[..0] == [] && Puts(entries)[..|entries|] == Puts(entries)
    ensures Result(m, []) == m
  {
  }

  /** Insertions into a new tree, and a walk from its beginning: each key once, in ascending order, with the value
      put last. */
  method PutAndVisit(entries: seq<Entry>) returns (visited: seq<Entry>)
    ensures ToMap(visited) == Result(map[], Puts(entries))
    ensures forall i, j | 0 <= i < j < |visited| :: Less(visited[i].key, visited[j].key)
  {
    hide BTree.Valid, BTree.Chained, BTree.BackLinked, BTree.Contents, Result, Puts, ToMap, Less, Written, IsLast;
    var tree := new BTree(0);
    ResultNone(map[], entries);
    for i := 0 to |entries|
      invariant fresh(tree) && tree.Valid() && tree.Chained() && tree.Contents() == Result(map[], Puts(entries)[..i])
    {
      ResultMore(map[], entries, i);
      var r := tree.Insert(entries[i].key, entries[i].value, _ => true);
    }
    visited := tree.VisitAll();
  }

  /** Keys that come in ascending order, all above those in the tree, leave the links in both directions right. */
  method PutAscending(tree: BTree, entries: seq<Entry>)
    requires tree.Valid() && tree.Chained() && tree.BackLinked()
    requires forall i, j | 0 <= i < j < |entries| :: Less(entries[i].key, entries[j].key)
    requires forall k, i | k in tree.Contents() && 0 <= i < |entries| :: Less(k, entries[i].key)
    modifies tree
    ensures tree.Valid() && tree.Chained() && tree.BackLinked()
    ensures tree.Contents() == Result(old(tree.Contents()), Puts(entries))
  {
    hide BTree.Valid, BTree.Chained, BTree.BackLinked, BTree.Contents, Result, Puts, ToMap, Less, IsLast, Written;
    ghost var before := tree.Contents();
    ResultNone(before, entries);
    for i := 0 to |entries|
      invariant tree.Valid() && tree.Chained() && tree.BackLinked()
      invariant tree.Contents() == Result(before, Puts(entries)[..i])
      invariant forall k, j | k in tree.Contents() && i <= j < |entries| :: Less(k, entries[j].key)
    {
      ResultMore(before, entries, i);
      AboveAll(tree, entries[i].key);
      var r := tree.Insert(entries[i].key, entries[i].value, _ => true);
    }
  }

  lemma AboveAll(tree: BTree, key: ByteString)
    requires tree.Valid() && forall k | k in tree.Contents() :: Less(k, key)
    ensures IsLast(LeafIds(tree.tree), LeafOf(tree.tree, key).id)
  {
    hide Rank, Less, Wf, Flat, LeafIds, Ids, LeafOf, ToMap, IsLast;
    var all := tree.Entries();
    FlatSorted(tree.tree, tree.height, 0.0, 1.0, true);
    ToMapIs(all, 0.0, 1.0);
    forall e | e in Flat(tree.tree) ensures Rank(e.key) < Rank(key) {
      assert e.key in tree.Contents();
      RankOrders(e.key, key);
    }
    LastFor(tree.tree, tree.height, 0.0, 1.0, true, key);
  }
}
