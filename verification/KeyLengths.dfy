/** Trees whose keys all have one length: there a removal always finds the room it needs. */
module KeyLengths {
  import opened ByteStrings
  import opened Nodes
  import opened Trees
  import opened TreeInsert
  import opened TreeRemove

  ghost predicate EntriesAre(entries: seq<Entry>, length: nat) {
    forall e | e in entries :: |e.key| == length
  }

  ghost predicate PageOf(p: NodePage, length: nat) {
    match p
    case LeafPage(entries, _, _) => EntriesAre(entries, length)
    case InnerPage(keys, _) => AllLength(keys, length)
  }

  /** Every key on every page has this length. */
  ghost predicate AllOf(pages: Pages, length: nat) {
    forall id | id in pages :: PageOf(pages[id], length)
  }

  lemma InnerInsertOf(p: NodePage, key: ByteString, right: nat, length: nat)
    requires GoodInner(p) && PageOf(p, length) && |key| == length
    ensures PageOf(InnerInsert(p, key, right), length)
  {
    hide LowerBound;
  }

  lemma InnerRemoveOf(p: NodePage, key: ByteString, length: nat)
    requires GoodInner(p) && |p.keys| > 0 && PageOf(p, length)
    ensures PageOf(InnerRemove(p, key), length)
  {
    hide LowerBound;
  }

  lemma InnerSplitOf(p: NodePage, key: ByteString, right: nat, length: nat)
    requires GoodInner(p) && InnerSplitAt(p.keys) < |p.keys| && PageOf(p, length) && |key| == length
    ensures var (a, mid, b) := InnerSplit(p, key, right); PageOf(a, length) && |mid| == length && PageOf(b, length)
  {
    hide LowerBound, InnerSplitAt, InnerInsert;
    var m := InnerSplitAt(p.keys);
    var a := InnerPage(p.keys[..m], p.kids[..m + 1]);
    var b := InnerPage(p.keys[m + 1..], p.kids[m + 1..]);
    InnerInsertOf(a, key, right, length);
    InnerInsertOf(b, key, right, length);
  }

  lemma LeafInsertOf(entries: seq<Entry>, key: ByteString, value: ByteString, length: nat)
    requires |key| == length && EntriesAre(entries, length)
    ensures EntriesAre(LeafInsert(entries, key, value), length)
  {
    hide LowerBound;
  }

  lemma LeafSplitOf(entries: seq<Entry>, key: ByteString, value: ByteString, length: nat)
    requires 0 < LeafSplitAt(entries) && |key| == length && EntriesAre(entries, length)
    ensures var (a, b) := LeafSplit(entries, key, value); EntriesAre(a, length) && EntriesAre(b, length)
  {
    hide LowerBound, LeafSplitAt, LeafInsert;
    var m := LeafSplitAt(entries);
    LeafInsertOf(entries[..m], key, value, length);
    LeafInsertOf(entries[m..], key, value, length);
  }

  lemma InsertOf(pages: Pages, id: nat, key: ByteString, right: nat, length: nat)
    requires id in pages && GoodInner(pages[id])
    ensures AllOf(pages, length) && |key| == length ==> AllOf(pages[id := InnerInsert(pages[id], key, right)], length)
  {
    hide InnerInsert;
    if AllOf(pages, length) && |key| == length {
      InnerInsertOf(pages[id], key, right, length);
    }
  }

  lemma SplitOf(pages: Pages, id: nat, key: ByteString, right: nat, id2: nat, length: nat)
    requires id in pages && GoodInner(pages[id]) && InnerSplitAt(pages[id].keys) < |pages[id].keys|
    ensures var (a, mid, b) := InnerSplit(pages[id], key, right);
      AllOf(pages, length) && |key| == length ==> AllOf(pages[id := a][id2 := b], length) && |mid| == length
  {
    hide InnerSplit, InnerSplitAt;
    if AllOf(pages, length) && |key| == length {
      InnerSplitOf(pages[id], key, right, length);
    }
  }

  lemma MergeOf(l: NodePage, r: NodePage, sep: ByteString, length: nat)
    requires GoodInner(l) && GoodInner(r) && PageOf(l, length) && PageOf(r, length) && |sep| == length
    ensures PageOf(Merge(l, r, sep), length)
  {
    hide InnerInsert;
    InnerInsertOf(l, sep, r.kids[0], length);
  }

  lemma RedistributeOf(l: NodePage, r: NodePage, sep: ByteString, length: nat)
    requires GoodInner(l) && GoodInner(r) && PageOf(l, length) && PageOf(r, length) && |sep| == length
    requires ShareAt(l.keys, r.keys) < (if InnerUsed(l.keys) < InnerUsed(r.keys) then |r.keys| else |l.keys|)
    ensures var (a, mid, b) := Redistribute(l, r, sep); PageOf(a, length) && |mid| == length && PageOf(b, length)
  {
    hide InnerInsert, ShareAt, InnerUsed;
    InnerInsertOf(l, sep, r.kids[0], length);
    InnerInsertOf(r, sep, r.kids[0], length);
  }

  // ------------------------------------------------------------------ when the room is there

  /** Children `i` and `i + 1` of page `parent` are inner pages; if they cannot be merged, there is a place
      to cut. */
  predicate Neighbours(pages: Pages, parent: nat, i: nat) {
    && parent in pages && GoodInner(pages[parent]) && i < |pages[parent].keys|
    && var l, r := pages[parent].kids[i], pages[parent].kids[i + 1];
    && l in pages && r in pages && GoodInner(pages[l]) && GoodInner(pages[r])
    && (CanMerge(pages[l].keys, pages[parent].keys[i], pages[r].keys) || CutInside(pages[l].keys, pages[r].keys))
  }

  predicate CutInside(left: seq<ByteString>, right: seq<ByteString>) {
    ShareAt(left, right) < (if InnerUsed(left) < InnerUsed(right) then |right| else |left|)
  }

  /** The page that results where two neighbours meet fits: the merged page, or the page above with the
      new separator. */
  predicate RoomFor(pages: Pages, parent: nat, i: nat)
    requires Neighbours(pages, parent, i)
  {
    var p := pages[parent];
    var l, r := pages[p.kids[i]], pages[p.kids[i + 1]];
    if CanMerge(l.keys, p.keys[i], r.keys)
    then InnerUsed(l.keys + [p.keys[i]] + r.keys) <= INNER_SIZE
    else InnerUsed(p.keys[i := Redistribute(l, r, p.keys[i]).1]) <= INNER_SIZE
  }

  lemma SwapUsed(keys: seq<ByteString>, i: nat, mid: ByteString)
    requires i < |keys|
    ensures InnerUsed(keys[i := mid]) == InnerUsed(keys) - |keys[i]| + |mid|
  {
    hide InnerUsed;
    var a, b := keys[..i], keys[i + 1..];
    assert keys == a + [keys[i]] + b && keys[i := mid] == a + [mid] + b;
    Inserted(a, keys[i], b);
    Inserted(a, mid, b);
  }

  /** It is missing in two cases only: the merged page is one byte too large, or the separator above
      grows by more than what is left there. */
  lemma RoomIs(pages: Pages, parent: nat, i: nat)
    requires Neighbours(pages, parent, i)
    ensures var p := pages[parent]; var l, r := pages[p.kids[i]], pages[p.kids[i + 1]];
      RoomFor(pages, parent, i) <==>
        if CanMerge(l.keys, p.keys[i], r.keys)
        then InnerUsed(l.keys) + InnerUsed(r.keys) + |p.keys[i]| + 6 != INNER_SIZE
        else InnerUsed(p.keys) + |Redistribute(l, r, p.keys[i]).1| <= INNER_SIZE + |p.keys[i]|
  {
    hide InnerUsed, Redistribute, ShareAt, CanMerge;
    var p := pages[parent];
    var l, r := pages[p.kids[i]], pages[p.kids[i + 1]];
    if CanMerge(l.keys, p.keys[i], r.keys) {
      CanMergeFits(l.keys, p.keys[i], r.keys);
    } else {
      SwapUsed(p.keys, i, Redistribute(l, r, p.keys[i]).1);
    }
  }

  lemma RoomOfOneLength(pages: Pages, parent: nat, i: nat, length: nat)
    requires Neighbours(pages, parent, i) && AllOf(pages, length)
    requires InnerUsed(pages[parent].keys) <= INNER_SIZE
    ensures RoomFor(pages, parent, i)
  {
    hide InnerUsed, Redistribute, ShareAt, CanMerge;
    var p := pages[parent];
    var l, r := pages[p.kids[i]], pages[p.kids[i + 1]];
    assert p.keys[i] in p.keys;
    if CanMerge(l.keys, p.keys[i], r.keys) {
      MergeOfOneLength(l.keys, p.keys[i], r.keys, length);
    } else {
      RedistributeOf(l, r, p.keys[i], length);
      SwapUsed(p.keys, i, Redistribute(l, r, p.keys[i]).1);
    }
  }

  // ------------------------------------------------------------------ when it is missing

  /** A key of 255 bytes. */
  function Big(a: Byte, b: Byte): (r: ByteString)
    ensures |r| == 255
  {
    [a, b] + seq(253, _ => 0)
  }

  function Bigs(a: Byte, n: nat): (r: seq<ByteString>)
    requires n <= 256
    ensures |r| == n && forall i | 0 <= i < n :: r[i] == Big(a, i as Byte)
  {
    seq(n, i requires 0 <= i < n => Big(a, i as Byte))
  }

  lemma BigsUsed(a: Byte, n: nat)
    requires n <= 256
    ensures InnerUsed(Bigs(a, n)) == 262 * n
  {
    AllLengthUsed(Bigs(a, n), 255);
  }

  /** The forgotten byte: these two pages pass the test and do not fit into one. */
  lemma NoRoomToMerge(pages: Pages, parent: nat, first: ByteString)
    requires parent in pages && GoodInner(pages[parent]) && pages[parent].keys != []
    requires var l, r := pages[parent].kids[0], pages[parent].kids[1];
      && l in pages && r in pages && GoodInner(pages[l]) && GoodInner(pages[r])
      && pages[l].keys == [first] && |first| == 70 && |pages[parent].keys[0]| == 70 && pages[r].keys == Bigs(2, 15)
    ensures Neighbours(pages, parent, 0) && !RoomFor(pages, parent, 0)
    ensures CanMerge(pages[pages[parent].kids[0]].keys, pages[parent].keys[0], pages[pages[parent].kids[1]].keys)
  {
    hide Redistribute, ShareAt, InnerUsed;
    BigsUsed(2, 15);
    InnerUsedOne(first);
    RoomIs(pages, parent, 0);
  }

  /** The separator that grows: these two pages cannot be merged, and the page above would have to take a key of 255
      bytes for one of a single byte. */
  lemma NoRoomToShare(pages: Pages, parent: nat, first: ByteString)
    requires parent in pages && GoodInner(pages[parent]) && pages[parent].keys == [[1]] + Bigs(3, 15)
    requires var l, r := pages[parent].kids[0], pages[parent].kids[1];
      && l in pages && r in pages && GoodInner(pages[l]) && GoodInner(pages[r])
      && pages[l].keys == [first] && |first| == 255 && pages[r].keys == Bigs(2, 15)
    ensures InnerUsed(pages[parent].keys) == 3938
    ensures Neighbours(pages, parent, 0) && !RoomFor(pages, parent, 0)
    ensures !CanMerge(pages[pages[parent].kids[0]].keys, pages[parent].keys[0], pages[pages[parent].kids[1]].keys)
  {
    hide ShareAt, InnerUsed, InnerInsert;
    BigsUsed(2, 15);
    BigsUsed(3, 15);
    InnerUsedOne(first);
    InnerUsedOne([1]);
    InnerUsedAppend([[1]], Bigs(3, 15));
    RedistributeFits([first], pages[parent].keys[0], Bigs(2, 15));
    RoomIs(pages, parent, 0);
  }

  // ------------------------------------------------------------------ order

  lemma FirstOrders(a: ByteString, b: ByteString)
    requires a != [] && b != [] && a[0] < b[0]
    ensures Rank(a) < Rank(b)
  {
    RankOrders(a, b);
  }

  lemma SecondOrders(a: ByteString, b: ByteString)
    requires |a| > 1 && |b| > 1 && a[0] == b[0] && a[1] < b[1]
    ensures Rank(a) < Rank(b)
  {
    assert a[1..] != [] && b[1..] != [] && a[1..][0] < b[1..][0];
    assert Less(a[1..], b[1..]);
    RankOrders(a, b);
  }
}
