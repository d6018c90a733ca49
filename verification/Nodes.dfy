/** The two kinds of tree pages as sequences, and what the operations on one page do to them. The
    byte-level pages are proved to implement exactly these. */
module Nodes {
  import opened ByteStrings

  const LEAF_SIZE: nat := 4079
  const INNER_SIZE: nat := 4083

  /** `kids[i]` holds the keys from `keys[i - 1]` up to, but not including, `keys[i]`. */
  datatype NodePage =
    | LeafPage(entries: seq<Entry>, prev: nat, next: nat)
    | InnerPage(keys: seq<ByteString>, kids: seq<nat>)

  function KeysOf(entries: seq<Entry>): seq<ByteString> {
    seq(|entries|, i requires 0 <= i < |entries| => entries[i].key)
  }

  /** The first position whose key is not below `key`. */
  function LowerBound(keys: seq<ByteString>, key: ByteString): (r: nat)
    ensures r <= |keys|
    ensures forall i | 0 <= i < r :: Rank(keys[i]) < Rank(key)
    ensures r < |keys| ==> Rank(key) <= Rank(keys[r])
  {
    if keys == [] then 0 else
      RankOrders(keys[0], key);
      if !Less(keys[0], key) then 0 else 1 + LowerBound(keys[1..], key)
  }

  ghost predicate Ascending(keys: seq<ByteString>) {
    forall i, j | 0 <= i < j < |keys| :: Rank(keys[i]) < Rank(keys[j])
  }

  lemma LowerBoundIs(keys: seq<ByteString>, key: ByteString, i: nat)
    requires Ascending(keys) && i <= |keys|
    requires i > 0 ==> Rank(keys[i - 1]) < Rank(key)
    requires i < |keys| ==> Rank(key) <= Rank(keys[i])
    ensures LowerBound(keys, key) == i
  {
    hide Rank, Less, LowerBound;
  }

  lemma AscendingAround(keys: seq<ByteString>, n: nat, key: ByteString)
    requires Ascending(keys) && n <= |keys|
    requires n > 0 ==> Rank(keys[n - 1]) < Rank(key)
    requires n < |keys| ==> Rank(key) < Rank(keys[n])
    ensures Ascending(keys[..n] + [key] + keys[n..])
  {
    hide Rank, Less;
    var wide := keys[..n] + [key] + keys[n..];
    assert forall i | 0 <= i < n :: wide[i] == keys[i] && Rank(keys[i]) < Rank(key);
    assert forall i | n < i < |wide| :: wide[i] == keys[i - 1] && Rank(key) < Rank(keys[i - 1]);
  }

  /** Where a key is; the length of the page when it is not there. */
  function Find(entries: seq<Entry>, key: ByteString): (r: nat)
    ensures r <= |entries|
    ensures r < |entries| ==> entries[r].key == key
  {
    var i := LowerBound(KeysOf(entries), key);
    if i < |entries| && entries[i].key == key then i else |entries|
  }

  lemma FindFinds(entries: seq<Entry>, key: ByteString)
    requires Ascending(KeysOf(entries))
    ensures Find(entries, key) == |entries| ==> forall e | e in entries :: e.key != key
    ensures Find(entries, key) < |entries| ==> forall e | e in entries && e.key == key ::
            e == entries[Find(entries, key)]
  {
    var keys := KeysOf(entries);
    var i := LowerBound(keys, key);
    forall j | 0 <= j < |entries| && entries[j].key == key ensures i == j {
      assert keys[j] == key;
    }
  }

  function LeafInsert(entries: seq<Entry>, key: ByteString, value: ByteString): seq<Entry> {
    var i := LowerBound(KeysOf(entries), key);
    entries[..i] + [Entry(key, value)] + entries[i..]
  }

  function LeafRemove(entries: seq<Entry>, key: ByteString): seq<Entry> {
    var i := Find(entries, key);
    if i == |entries| then entries else entries[..i] + entries[i + 1..]
  }

  // ------------------------------------------------------------------ space

  function Sum(sizes: seq<nat>): nat {
    if sizes == [] then 0 else Sum(sizes[..|sizes| - 1]) + sizes[|sizes| - 1]
  }

  lemma {:induction false} SumAppend(a: seq<nat>, b: seq<nat>)
    ensures Sum(a + b) == Sum(a) + Sum(b)
    decreases |b|
  {
    if b == [] {
      assert a + b == a;
    } else {
      assert (a + b)[..|a + b| - 1] == a + b[..|b| - 1];
      SumAppend(a, b[..|b| - 1]);
    }
  }

  lemma SumOne(x: nat)
    ensures Sum([x]) == x
  {
    assert [x][..0] == [];
  }

  lemma {:induction false} SumBounds(sizes: seq<nat>, least: nat, most: nat)
    requires forall i | 0 <= i < |sizes| :: least <= sizes[i] <= most
    ensures least * |sizes| <= Sum(sizes) <= most * |sizes|
  {
    if sizes != [] {
      SumBounds(sizes[..|sizes| - 1], least, most);
      assert least * |sizes| == least * (|sizes| - 1) + least;
      assert most * |sizes| == most * (|sizes| - 1) + most;
    }
  }

  /** Bytes an entry takes in the data area; its table slot takes two more. */
  function EntrySize(e: Entry): nat {
    |e.key| + 1 + |e.value| + 1
  }

  function SlotSize(key: ByteString): nat {
    |key| + 1 + 4
  }

  function EntrySizes(entries: seq<Entry>): (r: seq<nat>)
    ensures forall i | 0 <= i < |r| :: 2 <= r[i] <= 512
  {
    seq(|entries|, i requires 0 <= i < |entries| => EntrySize(entries[i]))
  }

  function SlotSizes(keys: seq<ByteString>): (r: seq<nat>)
    ensures forall i | 0 <= i < |r| :: 5 <= r[i] <= 260
  {
    seq(|keys|, i requires 0 <= i < |keys| => SlotSize(keys[i]))
  }

  function LeafUsed(entries: seq<Entry>): nat {
    Sum(EntrySizes(entries)) + 2 * |entries|
  }

  function InnerUsed(keys: seq<ByteString>): nat {
    Sum(SlotSizes(keys)) + 2 * |keys|
  }

  predicate LeafHasSpace(entries: seq<Entry>, key: ByteString, value: ByteString) {
    LeafUsed(entries) + 2 + |key| + |value| + 2 <= LEAF_SIZE
  }

  predicate InnerHasSpace(keys: seq<ByteString>, key: ByteString) {
    InnerUsed(keys) + |key| + 1 + 4 + 2 <= INNER_SIZE
  }

  lemma LeafUsedAppend(a: seq<Entry>, b: seq<Entry>)
    ensures LeafUsed(a + b) == LeafUsed(a) + LeafUsed(b)
  {
    assert EntrySizes(a + b) == EntrySizes(a) + EntrySizes(b);
    SumAppend(EntrySizes(a), EntrySizes(b));
  }

  lemma LeafUsedOne(e: Entry)
    ensures LeafUsed([e]) == EntrySize(e) + 2
  {
    assert EntrySizes([e]) == [EntrySize(e)];
    SumOne(EntrySize(e));
  }

  lemma InnerUsedAppend(a: seq<ByteString>, b: seq<ByteString>)
    ensures InnerUsed(a + b) == InnerUsed(a) + InnerUsed(b)
  {
    assert SlotSizes(a + b) == SlotSizes(a) + SlotSizes(b);
    SumAppend(SlotSizes(a), SlotSizes(b));
  }

  lemma InnerUsedOne(key: ByteString)
    ensures InnerUsed([key]) == SlotSize(key) + 2
  {
    assert SlotSizes([key]) == [SlotSize(key)];
    SumOne(SlotSize(key));
  }

  lemma LeafInsertUsed(entries: seq<Entry>, key: ByteString, value: ByteString)
    ensures LeafUsed(LeafInsert(entries, key, value)) == LeafUsed(entries) + |key| + |value| + 4
  {
    var i := LowerBound(KeysOf(entries), key);
    var e := Entry(key, value);
    assert entries == entries[..i] + entries[i..];
    LeafUsedAppend(entries[..i], entries[i..]);
    LeafUsedAppend(entries[..i], [e]);
    LeafUsedAppend(entries[..i] + [e], entries[i..]);
    LeafUsedOne(e);
  }

  lemma LeafRemoveUsed(entries: seq<Entry>, key: ByteString)
    ensures LeafUsed(LeafRemove(entries, key)) <= LeafUsed(entries)
  {
    var i := Find(entries, key);
    if i < |entries| {
      assert entries == entries[..i] + ([entries[i]] + entries[i + 1..]);
      LeafUsedAppend(entries[..i], [entries[i]] + entries[i + 1..]);
      LeafUsedAppend([entries[i]], entries[i + 1..]);
      LeafUsedAppend(entries[..i], entries[i + 1..]);
    }
  }

  /** The first item with which the sizes add up to more than `limit`. */
  function SplitPoint(sizes: seq<nat>, limit: nat): (r: nat)
    ensures r <= |sizes| && Sum(sizes[..r]) <= limit
    ensures r < |sizes| ==> Sum(sizes[..r + 1]) > limit
  {
    if sizes == [] then 0 else
      var init := sizes[..|sizes| - 1];
      var r := SplitPoint(init, limit);
      assert init[..r] == sizes[..r];
      assert r < |init| ==> init[..r + 1] == sizes[..r + 1];
      assert sizes[..|sizes|] == sizes && init[..|init|] == init;
      if r < |init| then r else if Sum(sizes) > limit then r else |sizes|
  }

  lemma {:induction false} PrefixSum(sizes: seq<nat>, a: nat, b: nat)
    requires a <= b <= |sizes|
    ensures Sum(sizes[..a]) <= Sum(sizes[..b])
    decreases b
  {
    if a < b {
      PrefixSum(sizes, a, b - 1);
      assert sizes[..b][..b - 1] == sizes[..b - 1];
    }
  }

  /** The first prefix above the limit is found from the front as well. */
  lemma SplitPointIs(sizes: seq<nat>, limit: nat, m: nat)
    requires m <= |sizes| && Sum(sizes[..m]) <= limit && (m < |sizes| ==> Sum(sizes[..m + 1]) > limit)
    ensures SplitPoint(sizes, limit) == m
  {
    var r := SplitPoint(sizes, limit);
    if r < m {
      PrefixSum(sizes, r + 1, m);
    } else if m < r {
      PrefixSum(sizes, m + 1, r);
    }
  }

  // ------------------------------------------------------------------ leaf split

  /** Half the bytes stay, the rest moves to a new right leaf, and the new entry goes to the right
      exactly when it is above everything that stayed. */
  function LeafSplitAt(entries: seq<Entry>): (m: nat)
    ensures m <= |entries|
  {
    SplitPoint(EntrySizes(entries), Sum(EntrySizes(entries)) / 2)
  }

  function LeafSplit(entries: seq<Entry>, key: ByteString, value: ByteString): (seq<Entry>, seq<Entry>)
    requires 0 < LeafSplitAt(entries)
  {
    var m := LeafSplitAt(entries);
    RankOrders(entries[m - 1].key, key);
    if Less(entries[m - 1].key, key)
    then (entries[..m], LeafInsert(entries[m..], key, value))
    else (LeafInsert(entries[..m], key, value), entries[m..])
  }

  /** A leaf without room for an entry splits into two that both hold something and both have room
      for it. */
  lemma LeafSplitFits(entries: seq<Entry>, key: ByteString, value: ByteString)
    requires LeafUsed(entries) <= LEAF_SIZE && !LeafHasSpace(entries, key, value)
    ensures 0 < LeafSplitAt(entries) < |entries|
    ensures LeafHasSpace(entries[..LeafSplitAt(entries)], key, value)
    ensures LeafHasSpace(entries[LeafSplitAt(entries)..], key, value)
  {
    var sizes := EntrySizes(entries);
    var m := LeafSplitAt(entries);
    SumBounds(sizes, 2, 512);
    assert sizes[..|sizes|] == sizes;
    EntrySizesSplit(entries, m);
  }

  lemma EntrySizesSplit(entries: seq<Entry>, m: nat)
    requires m < |entries|
    ensures Sum(EntrySizes(entries)[..m]) == Sum(EntrySizes(entries[..m]))
    ensures Sum(EntrySizes(entries)[..m + 1]) <= Sum(EntrySizes(entries[..m])) + 512
    ensures Sum(EntrySizes(entries)) == Sum(EntrySizes(entries[..m])) + Sum(EntrySizes(entries[m..]))
    ensures 2 * m <= Sum(EntrySizes(entries[..m])) <= 512 * m
    ensures 2 * (|entries| - m) <= Sum(EntrySizes(entries[m..])) <= 512 * (|entries| - m)
  {
    var sizes := EntrySizes(entries);
    assert sizes[..m] == EntrySizes(entries[..m]) && sizes[m..] == EntrySizes(entries[m..]);
    assert sizes[..m + 1] == sizes[..m] + [sizes[m]];
    assert sizes == sizes[..m] + sizes[m..];
    SumAppend(sizes[..m], [sizes[m]]);
    SumOne(sizes[m]);
    SumAppend(sizes[..m], sizes[m..]);
    SumBounds(EntrySizes(entries[..m]), 2, 512);
    SumBounds(EntrySizes(entries[m..]), 2, 512);
  }

  // ------------------------------------------------------------------ inner pages

  /** Which child holds `key`. */
  function ChildAt(keys: seq<ByteString>, key: ByteString): (j: nat)
    ensures j <= |keys|
  {
    var i := LowerBound(keys, key);
    if i < |keys| && keys[i] == key then i + 1 else i
  }

  /** In an ascending page that child is the one whose bounds the key respects. */
  lemma ChildAtIs(keys: seq<ByteString>, key: ByteString, j: nat)
    requires Ascending(keys) && j <= |keys|
    requires j > 0 ==> Rank(keys[j - 1]) <= Rank(key)
    requires j < |keys| ==> Rank(key) < Rank(keys[j])
    ensures ChildAt(keys, key) == j
  {
    hide Rank, Less, LowerBound;
    var i := LowerBound(keys, key);
    if i < |keys| {
      RankOrders(keys[i], key);
    }
  }

  predicate GoodInner(p: NodePage) {
    p.InnerPage? && |p.kids| == |p.keys| + 1
  }

  function InnerInsert(p: NodePage, key: ByteString, right: nat): (r: NodePage)
    requires GoodInner(p)
    ensures GoodInner(r)
  {
    var i := LowerBound(p.keys, key);
    InnerPage(p.keys[..i] + [key] + p.keys[i..], p.kids[..i + 1] + [right] + p.kids[i + 1..])
  }

  /** Removes the child that holds `key` and the separator on its left; the first child goes with the
      separator on its right. */
  function InnerRemove(p: NodePage, key: ByteString): (r: NodePage)
    requires GoodInner(p) && |p.keys| > 0
    ensures GoodInner(r)
  {
    var j := ChildAt(p.keys, key);
    if j == 0 then InnerPage(p.keys[1..], p.kids[1..])
    else InnerPage(p.keys[..j - 1] + p.keys[j..], p.kids[..j] + p.kids[j + 1..])
  }

  function InnerSplitAt(keys: seq<ByteString>): (m: nat)
    ensures m <= |keys|
  {
    SplitPoint(SlotSizes(keys), Sum(SlotSizes(keys)) / 2)
  }

  /** The middle key leaves the page; what is right of it moves to a new page. */
  function InnerSplit(p: NodePage, key: ByteString, right: nat): (NodePage, ByteString, NodePage)
    requires GoodInner(p) && InnerSplitAt(p.keys) < |p.keys|
  {
    var m := InnerSplitAt(p.keys);
    var a := InnerPage(p.keys[..m], p.kids[..m + 1]);
    var b := InnerPage(p.keys[m + 1..], p.kids[m + 1..]);
    RankOrders(key, p.keys[m]);
    if Less(key, p.keys[m]) then (InnerInsert(a, key, right), p.keys[m], b)
    else (a, p.keys[m], InnerInsert(b, key, right))
  }

  lemma SlotSizesSplit(keys: seq<ByteString>, m: nat)
    requires m < |keys|
    ensures InnerUsed(keys) == InnerUsed(keys[..m]) + SlotSize(keys[m]) + 2 + InnerUsed(keys[m + 1..])
    ensures Sum(SlotSizes(keys)[..m]) == Sum(SlotSizes(keys[..m]))
    ensures Sum(SlotSizes(keys)[..m + 1]) == Sum(SlotSizes(keys[..m])) + SlotSize(keys[m])
    ensures Sum(SlotSizes(keys)) == Sum(SlotSizes(keys[..m])) + SlotSize(keys[m]) + Sum(SlotSizes(keys[m + 1..]))
    ensures 5 * m <= Sum(SlotSizes(keys[..m])) <= 260 * m
    ensures 5 * (|keys| - m - 1) <= Sum(SlotSizes(keys[m + 1..])) <= 260 * (|keys| - m - 1)
  {
    var sizes := SlotSizes(keys);
    assert sizes[..m] == SlotSizes(keys[..m]) && sizes[m + 1..] == SlotSizes(keys[m + 1..]);
    assert sizes[..m + 1] == sizes[..m] + [sizes[m]];
    assert sizes == sizes[..m + 1] + sizes[m + 1..];
    SumAppend(sizes[..m], [sizes[m]]);
    SumOne(sizes[m]);
    SumAppend(sizes[..m + 1], sizes[m + 1..]);
    SumBounds(SlotSizes(keys[..m]), 5, 260);
    SumBounds(SlotSizes(keys[m + 1..]), 5, 260);
  }

  /** An inner page without room for a key splits into two of at least two keys each, both with room
      for it. */
  lemma InnerSplitFits(keys: seq<ByteString>, key: ByteString)
    requires InnerUsed(keys) <= INNER_SIZE && !InnerHasSpace(keys, key)
    ensures var m := InnerSplitAt(keys);
      && 2 <= m && m + 3 <= |keys|
      && InnerHasSpace(keys[..m], key) && InnerHasSpace(keys[m + 1..], key)
  {
    var sizes := SlotSizes(keys);
    SumBounds(sizes, 5, 260);
    var m := InnerSplitAt(keys);
    assert sizes[..|sizes|] == sizes;
    SlotSizesSplit(keys, m);
  }

  // ------------------------------------------------------------------ merging neighbours

  /** The test the code makes before it merges two pages. It forgets the length byte of the parent's
      key. */
  predicate CanMerge(left: seq<ByteString>, parentKey: ByteString, right: seq<ByteString>) {
    InnerUsed(left) + InnerUsed(right) + |parentKey| + 4 + 2 <= INNER_SIZE
  }

  /** Exactly one size passes the test without fitting. */
  lemma CanMergeFits(left: seq<ByteString>, parentKey: ByteString, right: seq<ByteString>)
    requires CanMerge(left, parentKey, right)
    ensures InnerUsed(left + [parentKey] + right) <= INNER_SIZE <==>
            InnerUsed(left) + InnerUsed(right) + |parentKey| + 4 + 2 != INNER_SIZE
  {
    InnerUsedAppend(left, [parentKey]);
    InnerUsedAppend(left + [parentKey], right);
    InnerUsedOne(parentKey);
  }

  ghost predicate AllLength(keys: seq<ByteString>, length: nat) {
    forall k | k in keys :: |k| == length
  }

  lemma {:induction false} SumAll(sizes: seq<nat>, x: nat)
    requires forall i | 0 <= i < |sizes| :: sizes[i] == x
    ensures Sum(sizes) == |sizes| * x
  {
    if sizes != [] {
      SumAll(sizes[..|sizes| - 1], x);
      assert |sizes| * x == (|sizes| - 1) * x + x;
    }
  }

  lemma AllLengthUsed(keys: seq<ByteString>, length: nat)
    requires AllLength(keys, length)
    ensures Sum(SlotSizes(keys)) == |keys| * (length + 5)
    ensures InnerUsed(keys) == |keys| * (length + 7)
  {
    SumAll(SlotSizes(keys), length + 5);
    assert |keys| * (length + 7) == |keys| * (length + 5) + |keys| * 2;
  }

  /** 4084 has no divisor from 7 to 262. */
  lemma NoDivisor(n: nat, u: nat)
    requires 7 <= u <= 262
    ensures n * u != 4084
  {
  }

  /** With keys of one length the forgotten byte never matters. */
  lemma MergeOfOneLength(left: seq<ByteString>, parentKey: ByteString, right: seq<ByteString>, length: nat)
    requires AllLength(left, length) && AllLength(right, length) && |parentKey| == length
    requires CanMerge(left, parentKey, right)
    ensures InnerUsed(left + [parentKey] + right) <= INNER_SIZE
  {
    AllLengthUsed(left, length);
    AllLengthUsed(right, length);
    CanMergeFits(left, parentKey, right);
    var u := length + 7;
    assert |left| * u + |right| * u + u == (|left| + |right| + 1) * u;
    NoDivisor(|left| + |right| + 1, u);
  }
}
