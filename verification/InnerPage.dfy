/** The bytes of an inner page. */
module InnerPages {
  import opened Basics
  import opened ByteStrings
  import opened Nodes
  import opened TreeRemove
  import opened TreeUnderflow
  import opened Words
  import Slots

  /** A separator and the child on its right as they lie in the page. */
  function SlotBytes(key: ByteString, right: PageIndex): seq<Byte> {
    Slots.Stream(key) + IdBytes(right)
  }

  ghost function Items(keys: seq<ByteString>, kids: seq<PageIndex>): seq<seq<Byte>>
    requires |kids| == |keys| + 1
  {
    seq(|keys|, i requires 0 <= i < |keys| => SlotBytes(keys[i], kids[i + 1]))
  }

  class InnerNode {
    const data: array<Byte>
    var begin: nat
    var end: nat
    var leftMost: PageIndex
    ghost var keys: seq<ByteString>
    ghost var kids: seq<PageIndex>

    ghost predicate Valid()
      reads this, data
    {
      && data.Length == INNER_SIZE && |kids| == |keys| + 1 && kids[0] == leftMost
      && Slots.Page(data[..], begin, end, Items(keys, kids)) && Ascending(keys)
    }

    lemma Facts()
      requires Valid()
      ensures |kids| == |keys| + 1 && kids[0] == leftMost && InnerUsed(keys) <= INNER_SIZE && Ascending(keys)
      ensures begin == Sum(SlotSizes(keys)) && data.Length == INNER_SIZE
    {
      Used(data[..], begin, end, keys, kids);
    }

    constructor ()
      ensures Valid() && fresh(data) && keys == []
    {
      data := new Byte[INNER_SIZE](i => 0);
      begin, end, leftMost := 0, INNER_SIZE, INVALID;
      keys, kids := [], [INVALID];
      new;
      EmptyPage(data[..], kids);
    }

    /** The root of a tree that grew: one separator and two children. */
    constructor Root(key: ByteString, left: PageIndex, right: PageIndex)
      ensures Valid() && fresh(data) && keys == [key] && kids == [left, right]
    {
      data := new Byte[INNER_SIZE](i => 0);
      begin, end, leftMost := 0, INNER_SIZE, left;
      keys, kids := [], [left];
      new;
      EmptyPage(data[..], kids);
      assert Slots.Sizes([]) == [];
      InnerUsedOne(key);
      Insert(key, right);
    }

    method NofItems() returns (n: nat)
      requires Valid()
      ensures n == |keys|
    {
      Used(data[..], begin, end, keys, kids);
      n := (data.Length - end) / 2;
    }

    /** The bytes in use: keys, page indices and slots. */
    method Size() returns (n: nat)
      requires Valid()
      ensures n == InnerUsed(keys) <= INNER_SIZE
    {
      Used(data[..], begin, end, keys, kids);
      n := INNER_SIZE - (end - begin);
    }

    method HasSpace(key: ByteString) returns (r: bool)
      requires Valid()
      ensures r == InnerHasSpace(keys, key)
    {
      Used(data[..], begin, end, keys, kids);
      r := |key| + 1 + 4 + 2 <= end - begin;
    }

    method GetKey(i: nat) returns (key: ByteString)
      requires Valid() && i < |keys|
      ensures key == keys[i]
    {
      hide Slots.Page, Slots.StreamAt;
      SlotIn(data[..], begin, end, keys, kids, i);
      var o := Slots.SlotAt(data, end, i);
      key := Slots.ReadStream(data, o, keys[i]);
    }

    method GetRight(i: nat) returns (id: PageIndex)
      requires Valid() && i < |keys|
      ensures id == kids[i + 1]
    {
      hide Slots.Page, Slots.StreamAt;
      SlotIn(data[..], begin, end, keys, kids, i);
      var o := Slots.SlotAt(data, end, i);
      var key := Slots.ReadStream(data, o, keys[i]);
      IdRoundTrip(kids[i + 1]);
      var at := o + 1 + |key|;
      id := IdOf(data[at..at + 4]);
    }

    method GetLeft(i: nat) returns (id: PageIndex)
      requires Valid() && i <= |keys|
      ensures id == kids[i]
    {
      if i == 0 {
        return leftMost;
      }
      id := GetRight(i - 1);
    }

    method LowestNotBelow(key: ByteString) returns (i: nat)
      requires Valid()
      ensures i == LowerBound(keys, key)
    {
      hide Slots.Page;
      AllKeys(data[..], begin, end, keys, kids);
      i := Slots.FirstNotBelow(data, end, key, keys);
    }

    /** Which child holds `key`. */
    method FindPage(key: ByteString) returns (id: PageIndex)
      requires Valid()
      ensures id == kids[ChildAt(keys, key)]
    {
      hide Slots.Page, LowerBound;
      var i := LowestNotBelow(key);
      var n := NofItems();
      if i == n {
        id := GetLeft(i);
        return;
      }
      var k := GetKey(i);
      if k == key {
        id := GetRight(i);
      } else {
        id := GetLeft(i);
      }
    }

    method FindSeparator(key: ByteString) returns (i: nat)
      requires Valid() && keys != []
      ensures i == FindKey(keys, key)
    {
      hide Slots.Page, LowerBound;
      i := LowestNotBelow(key);
      var n := NofItems();
      if i == n {
        i := i - 1;
      }
    }

    method Insert(key: ByteString, right: PageIndex)
      requires Valid() && InnerHasSpace(keys, key) && key !in keys
      modifies this`begin, this`end, this`keys, this`kids, data
      ensures Valid() && InnerPage(keys, kids) == InnerInsert(InnerPage(old(keys), old(kids)), key, right)
    {
      hide Slots.Page, LowerBound, InnerUsed, Ascending;
      Used(data[..], begin, end, keys, kids);
      var item := SlotBytes(key, right);
      ghost var items := Items(keys, kids);
      Slots.WriteItem(data, begin, end, item, items);
      var pos := LowestNotBelow(key);
      Slots.OpenSlot(data, begin, end, pos, items, item);
      ItemsInsert(keys, kids, key, right);
      ghost var k, c := keys[..pos] + [key] + keys[pos..], kids[..pos + 1] + [right] + kids[pos + 1..];
      assert InnerPage(k, c) == InnerInsert(InnerPage(keys, kids), key, right) && c[0] == kids[0];
      begin := begin + |item|;
      end := end - 2;
      keys, kids := k, c;
    }

    /** The slot that has the child with `key` on its right. The first child has none: then the first
        slot goes, and the child on its right becomes the first one. */
    method SlotToRemove(key: ByteString) returns (pos: nat, first: bool)
      requires Valid() && keys != []
      ensures pos < |keys| && (first ==> pos == 0)
      ensures InnerRemove(InnerPage(keys, kids), key)
              == InnerPage(Slots.Without(keys, pos), KidsWithout(kids, pos, first))
    {
      hide Slots.Page, LowerBound, Ascending;
      RemoveIs(keys, kids, key);
      pos := LowestNotBelow(key);
      first := false;
      var n := NofItems();
      if pos == n {
        pos := pos - 1;
      } else {
        var k := GetKey(pos);
        if k != key {
          if pos == 0 {
            first := true;
          } else {
            pos := pos - 1;
          }
        }
      }
    }

    /** Takes out the child that holds `key`. */
    method Remove(key: ByteString)
      requires Valid() && keys != []
      modifies this`begin, this`end, this`leftMost, this`keys, this`kids, data
      ensures Valid() && InnerPage(keys, kids) == InnerRemove(InnerPage(old(keys), old(kids)), key)
    {
      hide Slots.Page, LowerBound, InnerUsed, Ascending, InnerRemove, Items, Slots.Without;
      var pos, first := SlotToRemove(key);
      var k := GetKey(pos);
      var right := GetRight(pos);
      var size := |k| + 1 + 4;
      ItemsRemove(keys, kids, pos, first);
      Slots.DropSlot(data, begin, end, pos, size, Items(keys, kids));
      if first {
        leftMost := right;
      }
      begin := begin - size;
      end := end + 2;
      ghost var k2, c2 := Slots.Without(keys, pos), KidsWithout(kids, pos, first);
      keys, kids := k2, c2;
    }

    // ---------------------------------------------------------------- several slots at a time

    constructor Copy(from: InnerNode)
      requires from.Valid()
      ensures Valid() && fresh(data) && keys == from.keys && kids == from.kids && begin == from.begin
    {
      data := new Byte[from.data.Length](i reads from, from.data requires 0 <= i < from.data.Length => from.data[i]);
      begin, end, leftMost := from.begin, from.end, from.leftMost;
      keys, kids := from.keys, from.kids;
      new;
      assert data[..] == from.data[..];
    }

    /** The first slot with which the data passed is more than `limit`. */
    method FindSplitPoint(limit: nat) returns (m: nat)
      requires Valid()
      ensures m == SplitPoint(SlotSizes(keys), limit)
    {
      hide Slots.Page;
      ghost var sizes := SlotSizes(keys);
      var size := 0;
      m := 0;
      var n := NofItems();
      assert sizes[..n] == sizes;
      while m < n
        invariant m <= n && size == Sum(sizes[..m]) <= limit
      {
        var k := GetKey(m);
        size := size + |k| + 1 + 4;
        assert sizes[..m + 1][..m] == sizes[..m];
        if size > limit {
          break;
        }
        m := m + 1;
      }
      SplitPointIs(sizes, limit, m);
    }

    method Reset()
      requires data.Length == INNER_SIZE
      modifies this`begin, this`end, this`leftMost, this`keys, this`kids
      ensures Valid() && keys == [] && kids == [INVALID]
    {
      begin, end, leftMost := 0, INNER_SIZE, INVALID;
      keys, kids := [], [INVALID];
      EmptyPage(data[..], kids);
    }

    /** Slots of another page come before those of this page, with the child left of them. */
    method CopyToFront(from: InnerNode, first: nat, last: nat)
      requires Valid() && from.Valid() && from != this && from.data != data && first <= last <= |from.keys|
      requires InnerUsed(from.keys[first..last] + keys) <= INNER_SIZE && Ascending(from.keys[first..last] + keys)
      modifies this`begin, this`end, this`leftMost, this`keys, this`kids, data
      ensures Valid() && keys == from.keys[first..last] + old(keys)
      ensures kids == from.kids[first..last + 1] + old(kids)[1..]
    {
      hide Slots.Page, InnerUsed, Ascending, Slots.AllSized, Items, Slots.Sizes, Sum;
      InnerUsedAppend(from.keys[first..last], keys);
      CopyFits(data[..], begin, end, keys, kids, from.keys, from.kids, first, last);
      ghost var k, c := from.keys[first..last] + keys, from.kids[first..last + 1] + kids[1..];
      FrontItems(from.keys, from.kids, first, last, keys, kids);
      begin, end := Slots.CopySlots(data, begin, end, 0, from.data, from.begin, from.end, first, last, false,
                                    Items(keys, kids), Items(from.keys, from.kids));
      leftMost := from.GetLeft(first);
      keys, kids := k, c;
    }

    /** Slots of another page come behind those of this page. */
    method CopyToBack(from: InnerNode, first: nat, last: nat)
      requires Valid() && from.Valid() && from != this && from.data != data && first <= last <= |from.keys|
      requires InnerUsed(keys + from.keys[first..last]) <= INNER_SIZE && Ascending(keys + from.keys[first..last])
      modifies this`begin, this`end, this`keys, this`kids, data
      ensures Valid() && keys == old(keys) + from.keys[first..last]
      ensures kids == old(kids) + from.kids[first + 1..last + 1]
    {
      hide Slots.Page, InnerUsed, Ascending, Slots.AllSized, Items, Slots.Sizes, Sum;
      InnerUsedAppend(keys, from.keys[first..last]);
      CopyFits(data[..], begin, end, keys, kids, from.keys, from.kids, first, last);
      ghost var k, c := keys + from.keys[first..last], kids + from.kids[first + 1..last + 1];
      BackItems(from.keys, from.kids, first, last, keys, kids);
      var n := NofItems();
      begin, end := Slots.CopySlots(data, begin, end, n, from.data, from.begin, from.end, first, last, false,
                                    Items(keys, kids), Items(from.keys, from.kids));
      keys, kids := k, c;
    }

    /** The slots of another page become the only ones. */
    method Fill(from: InnerNode, first: nat, last: nat)
      requires data.Length == INNER_SIZE && from.Valid() && from != this && from.data != data
      requires first <= last <= |from.keys|
      modifies this`begin, this`end, this`leftMost, this`keys, this`kids, data
      ensures Valid() && keys == from.keys[first..last] && kids == from.kids[first..last + 1]
    {
      hide Valid, Ascending, InnerUsed;
      from.Facts();
      Reset();
      var k := from.keys;
      assert k == k[..first] + k[first..last] + k[last..] && k[first..last] + [] == k[first..last];
      PartUsed(k[..first], k[first..last], k[last..]);
      PartAscending(k[..first], k[first..last], k[last..]);
      CopyToFront(from, first, last);
    }

    /** The first half of the data stays, an empty page gets the second half, and the separator between
        them leaves the page. */
    method Halve(right: InnerNode) returns (mid: ByteString)
      requires Valid() && right.Valid() && right != this && right.data != data && InnerSplitAt(keys) < |keys|
      modifies this`begin, this`end, this`leftMost, this`keys, this`kids, data
      modifies right`begin, right`end, right`leftMost, right`keys, right`kids, right.data
      ensures Valid() && right.Valid()
      ensures var ks, cs, m := old(keys), old(kids), InnerSplitAt(old(keys));
        && keys == ks[..m] && kids == cs[..m + 1] && mid == ks[m] && right.keys == ks[m + 1..]
        && right.kids == cs[m + 1..]
    {
      hide *;
      Facts();
      right.Facts();
      SplitAtIs(keys);
      var tmp := new InnerNode.Copy(this);
      var m := tmp.FindSplitPoint(tmp.begin / 2);
      var n := tmp.NofItems();
      Fill(tmp, 0, m);
      right.Fill(tmp, m + 1, n);
      mid := tmp.GetKey(m);
    }

    /** A full page splits, and the new separator goes to the half it belongs to. */
    method Split(right: InnerNode, key: ByteString, page: PageIndex) returns (mid: ByteString)
      requires Valid() && right.Valid() && right != this && right.data != data
      requires !InnerHasSpace(keys, key) && key !in keys
      modifies this`begin, this`end, this`leftMost, this`keys, this`kids, data
      modifies right`begin, right`end, right`leftMost, right`keys, right`kids, right.data
      ensures Valid() && right.Valid() && InnerSplitAt(old(keys)) < |old(keys)|
      ensures (InnerPage(keys, kids), mid, InnerPage(right.keys, right.kids))
              == InnerSplit(InnerPage(old(keys), old(kids)), key, page)
    {
      hide Slots.Page, InnerUsed, Ascending, LowerBound, InnerSplitAt, Less, Rank, InnerInsert;
      Used(data[..], begin, end, keys, kids);
      InnerSplitFits(keys, key);
      mid := Halve(right);
      RankOrders(key, mid);
      if Less(key, mid) {
        Insert(key, page);
      } else {
        right.Insert(key, page);
      }
    }

    method CanMergeWith(right: InnerNode, parentKey: ByteString) returns (r: bool)
      requires Valid() && right.Valid()
      ensures r == CanMerge(keys, parentKey, right.keys)
    {
      hide Slots.Page, InnerUsed, Ascending;
      var n := Size();
      var m := right.Size();
      r := INNER_SIZE - n >= m + |parentKey| + 4 + 2;
    }

    method MergeWith(right: InnerNode, parentKey: ByteString)
      requires Valid() && right.Valid() && right != this && right.data != data
      requires InnerUsed(keys + [parentKey] + right.keys) <= INNER_SIZE && Ascending(keys + [parentKey] + right.keys)
      modifies this`begin, this`end, this`keys, this`kids, data
      ensures Valid()
      ensures InnerPage(keys, kids)
              == Merge(InnerPage(old(keys), old(kids)), InnerPage(right.keys, right.kids), parentKey)
    {
      hide Slots.Page, InnerUsed, Ascending, LowerBound;
      JoinParts(keys, parentKey, right.keys);
      AtEnd(keys, kids, parentKey, right.leftMost);
      Insert(parentKey, right.leftMost);
      var n := right.NofItems();
      assert right.keys[0..n] == right.keys && right.kids[0 + 1..n + 1] == right.kids[1..];
      CopyToBack(right, 0, n);
    }

    /** Two neighbours, one with a single separator, share what they have again. */
    static method Redistributed(left: InnerNode, right: InnerNode, parentKey: ByteString) returns (mid: ByteString)
      requires left.Valid() && right.Valid() && left != right && left.data != right.data
      requires (|left.keys| == 1 || |right.keys| == 1) && !CanMerge(left.keys, parentKey, right.keys)
      requires Ascending(left.keys + [parentKey] + right.keys)
      modifies left`begin, left`end, left`leftMost, left`keys, left`kids, left.data
      modifies right`begin, right`end, right`leftMost, right`keys, right`kids, right.data
      ensures left.Valid() && right.Valid()
      ensures ShareAt(old(left.keys), old(right.keys))
            < (if InnerUsed(old(left.keys)) < InnerUsed(old(right.keys)) then |old(right.keys)| else |old(left.keys)|)
      ensures (InnerPage(left.keys, left.kids), mid, InnerPage(right.keys, right.kids))
              == Redistribute(InnerPage(old(left.keys), old(left.kids)),
                              InnerPage(old(right.keys), old(right.kids)), parentKey)
    {
      hide *;
      left.Facts();
      right.Facts();
      var leftSize := left.Size();
      var rightSize := right.Size();
      RedistributeFits(left.keys, parentKey, right.keys);
      ShareCuts(left.keys, parentKey, right.keys);
      JoinParts(left.keys, parentKey, right.keys);
      if leftSize < rightSize {
        RightIs(left.keys, left.kids, parentKey, right.keys, right.kids);
        mid := FromRight(left, right, parentKey);
      } else {
        LeftIs(left.keys, left.kids, parentKey, right.keys, right.kids);
        mid := FromLeft(left, right, parentKey);
      }
    }

    static method FromRight(left: InnerNode, right: InnerNode, parentKey: ByteString) returns (mid: ByteString)
      requires left.Valid() && right.Valid() && left != right && left.data != right.data
      requires Ascending(left.keys + [parentKey] + right.keys) && InnerUsed(left.keys) < InnerUsed(right.keys)
      requires ShareAt(left.keys, right.keys) < |right.keys|
      requires InnerUsed(left.keys + [parentKey] + right.keys[..ShareAt(left.keys, right.keys)]) <= INNER_SIZE
      modifies left`begin, left`end, left`keys, left`kids, left.data
      modifies right`begin, right`end, right`leftMost, right`keys, right`kids, right.data
      ensures left.Valid() && right.Valid()
      ensures var a, x, b, y, m := old(left.keys), old(left.kids), old(right.keys), old(right.kids),
              ShareAt(old(left.keys), old(right.keys));
        && left.keys == a + [parentKey] + b[0..m] && left.kids == x + [y[0]] + y[0 + 1..m + 1] && mid == b[m]
        && right.keys == b[m + 1..|b|] && right.kids == y[m + 1..|b| + 1]
    {
      hide *;
      left.Facts();
      right.Facts();
      ShareAtIs(left.keys, right.keys);
      var tmp := new InnerNode.Copy(right);
      var sp := tmp.FindSplitPoint(HalfSigned(right.begin, left.begin));
      var n := tmp.NofItems();
      JoinParts(left.keys, parentKey, right.keys);
      RightParts(left.keys, parentKey, right.keys, sp);
      AtEnd(left.keys, left.kids, parentKey, right.leftMost);
      left.Insert(parentKey, right.leftMost);
      left.CopyToBack(tmp, 0, sp);
      right.Fill(tmp, sp + 1, n);
      mid := tmp.GetKey(sp);
    }

    static method FromLeft(left: InnerNode, right: InnerNode, parentKey: ByteString) returns (mid: ByteString)
      requires left.Valid() && right.Valid() && left != right && left.data != right.data
      requires Ascending(left.keys + [parentKey] + right.keys) && InnerUsed(left.keys) >= InnerUsed(right.keys)
      requires ShareAt(left.keys, right.keys) < |left.keys|
      requires InnerUsed(left.keys[ShareAt(left.keys, right.keys) + 1..] + [parentKey] + right.keys) <= INNER_SIZE
      modifies left`begin, left`end, left`leftMost, left`keys, left`kids, left.data
      modifies right`begin, right`end, right`leftMost, right`keys, right`kids, right.data
      ensures left.Valid() && right.Valid()
      ensures var a, x, b, y, m := old(left.keys), old(left.kids), old(right.keys), old(right.kids),
              ShareAt(old(left.keys), old(right.keys));
        && left.keys == a[0..m] && left.kids == x[0..m + 1] && mid == a[m]
        && right.keys == a[m + 1..|a|] + ([parentKey] + b)
        && right.kids == x[m + 1..|a| + 1] + ([y[0], y[0]] + y[1..])[1..]
    {
      hide *;
      left.Facts();
      right.Facts();
      ShareAtIs(left.keys, right.keys);
      var tmp := new InnerNode.Copy(left);
      var half := HalfUnsigned(left.begin, right.begin);
      var sp := tmp.FindSplitPoint(if half <= left.begin then left.begin - half else HUGE);
      var n := tmp.NofItems();
      JoinParts(left.keys, parentKey, right.keys);
      LeftParts(left.keys, parentKey, right.keys, sp);
      AtFront(right.keys, right.kids, parentKey, right.leftMost);
      left.Fill(tmp, 0, sp);
      right.Insert(parentKey, right.leftMost);
      right.CopyToFront(tmp, sp + 1, n);
      mid := tmp.GetKey(sp);
    }
  }

  lemma AtEnd(a: seq<ByteString>, x: seq<PageIndex>, sep: ByteString, right: PageIndex)
    requires |x| == |a| + 1 && LowerBound(a, sep) == |a|
    ensures InnerInsert(InnerPage(a, x), sep, right) == InnerPage(a + [sep], x + [right])
  {
    hide LowerBound;
    assert x[..|a| + 1] == x && a[..|a|] == a;
  }

  lemma AtFront(b: seq<ByteString>, y: seq<PageIndex>, sep: ByteString, right: PageIndex)
    requires |y| == |b| + 1 && LowerBound(b, sep) == 0
    ensures InnerInsert(InnerPage(b, y), sep, right) == InnerPage([sep] + b, [y[0], right] + y[1..])
  {
    hide LowerBound;
    assert b[..0] == [] && b[0..] == b && y[..1] == [y[0]];
  }

  lemma RightIs(a: seq<ByteString>, x: seq<PageIndex>, sep: ByteString, b: seq<ByteString>, y: seq<PageIndex>)
    requires |x| == |a| + 1 && |y| == |b| + 1 && LowerBound(a, sep) == |a|
    requires InnerUsed(a) < InnerUsed(b) && ShareAt(a, b) < |b|
    ensures var m := ShareAt(a, b);
      Redistribute(InnerPage(a, x), InnerPage(b, y), sep)
        == (InnerPage(a + [sep] + b[0..m], x + [y[0]] + y[0 + 1..m + 1]), b[m],
            InnerPage(b[m + 1..|b|], y[m + 1..|b| + 1]))
  {
    hide ShareAt, InnerUsed, LowerBound, InnerInsert;
    AtEnd(a, x, sep, y[0]);
    var m := ShareAt(a, b);
    assert b[m + 1..|b|] == b[m + 1..] && y[m + 1..|b| + 1] == y[m + 1..];
    assert b[0..m] == b[..m];
  }

  lemma LeftIs(a: seq<ByteString>, x: seq<PageIndex>, sep: ByteString, b: seq<ByteString>, y: seq<PageIndex>)
    requires |x| == |a| + 1 && |y| == |b| + 1 && LowerBound(b, sep) == 0
    requires InnerUsed(a) >= InnerUsed(b) && ShareAt(a, b) < |a|
    ensures var m := ShareAt(a, b);
      Redistribute(InnerPage(a, x), InnerPage(b, y), sep)
        == (InnerPage(a[0..m], x[0..m + 1]), a[m],
            InnerPage(a[m + 1..|a|] + ([sep] + b), x[m + 1..|a| + 1] + ([y[0], y[0]] + y[1..])[1..]))
  {
    hide ShareAt, InnerUsed, LowerBound, InnerInsert;
    AtFront(b, y, sep, y[0]);
    var m := ShareAt(a, b);
    assert a[0..m] == a[..m] && x[0..m + 1] == x[..m + 1];
    assert a[m + 1..|a|] == a[m + 1..] && x[m + 1..|a| + 1] == x[m + 1..];
  }

  /** Both parts of a joint cut, in terms of the two pages. */
  lemma ShareCuts(a: seq<ByteString>, sep: ByteString, b: seq<ByteString>)
    requires ShareAt(a, b) < (if InnerUsed(a) < InnerUsed(b) then |b| else |a|)
    ensures var keys, q, m := a + [sep] + b, JointCut(a, b), ShareAt(a, b);
      if InnerUsed(a) < InnerUsed(b) then keys[..q] == a + [sep] + b[..m] else keys[q + 1..] == a[m + 1..] + [sep] + b
  {
    hide ShareAt, InnerUsed;
  }

  lemma RightParts(a: seq<ByteString>, sep: ByteString, b: seq<ByteString>, m: nat)
    requires Ascending(a + [sep] + b) && m < |b| && InnerUsed(a + [sep] + b[..m]) <= INNER_SIZE
    requires InnerUsed(b) <= INNER_SIZE
    ensures InnerUsed(a + [sep] + b[0..m]) <= INNER_SIZE && Ascending(a + [sep] + b[0..m])
    ensures InnerHasSpace(a, sep)
  {
    hide InnerUsed, Ascending;
    assert b[0..m] == b[..m];
    assert a + [sep] + b == [] + (a + [sep] + b[..m]) + b[m..];
    PartUsed(a + [sep], b[..m], []);
    assert a + [sep] + b[..m] + [] == a + [sep] + b[..m];
    PartUsed(a, [sep], b[..m]);
    InnerUsedAppend(a, [sep]);
    InnerUsedOne(sep);
    PartAscending([], a + [sep] + b[..m], b[m..]);
  }

  lemma LeftParts(a: seq<ByteString>, sep: ByteString, b: seq<ByteString>, m: nat)
    requires Ascending(a + [sep] + b) && m < |a| && InnerUsed(a[m + 1..] + [sep] + b) <= INNER_SIZE
    requires InnerUsed(a) <= INNER_SIZE
    ensures InnerUsed(a[m + 1..|a|] + ([sep] + b)) <= INNER_SIZE && Ascending(a[m + 1..|a|] + ([sep] + b))
    ensures InnerHasSpace(b, sep)
  {
    hide InnerUsed, Ascending;
    var c := a[m + 1..];
    assert a[m + 1..|a|] == c && c + ([sep] + b) == c + [sep] + b;
    assert a + [sep] + b == a[..m + 1] + (c + [sep] + b) + [];
    PartUsed(c, [sep] + b, []);
    assert c + ([sep] + b) + [] == c + [sep] + b;
    InnerUsedAppend([sep], b);
    InnerUsedOne(sep);
    PartAscending(a[..m + 1], c + [sep] + b, []);
  }

  lemma SplitAtIs(keys: seq<ByteString>)
    ensures InnerSplitAt(keys) == SplitPoint(SlotSizes(keys), Sum(SlotSizes(keys)) / 2)
  {
  }

  lemma ShareAtIs(a: seq<ByteString>, b: seq<ByteString>)
    ensures var bl, br := Sum(SlotSizes(a)), Sum(SlotSizes(b));
      ShareAt(a, b) ==
        if InnerUsed(a) < InnerUsed(b)
        then SplitPoint(SlotSizes(b), HalfSigned(br, bl))
        else SplitPoint(SlotSizes(a), if HalfUnsigned(bl, br) <= bl then bl - HalfUnsigned(bl, br) else HUGE)
  {
  }

  lemma PartUsed(a: seq<ByteString>, b: seq<ByteString>, c: seq<ByteString>)
    ensures InnerUsed(b) <= InnerUsed(a + b + c) && InnerUsed(a + b) <= InnerUsed(a + b + c)
  {
    hide InnerUsed;
    InnerUsedAppend(a, b);
    InnerUsedAppend(a + b, c);
  }

  lemma PartAscending(a: seq<ByteString>, b: seq<ByteString>, c: seq<ByteString>)
    requires Ascending(a + b + c)
    ensures Ascending(b) && Ascending(a + b)
  {
    hide Rank, Less;
    var all, ab := a + b + c, a + b;
    assert forall i | 0 <= i < |ab| :: ab[i] == all[i];
    assert forall i | 0 <= i < |b| :: b[i] == all[|a| + i];
  }

  lemma NotTwice(a: seq<ByteString>, key: ByteString, b: seq<ByteString>)
    requires Ascending(a + [key] + b)
    ensures key !in a && key !in b
  {
    hide Rank, Less;
    var all := a + [key] + b;
    assert all[|a|] == key;
    forall i | 0 <= i < |a| ensures a[i] != key {
      assert all[i] == a[i];
    }
    forall i | 0 <= i < |b| ensures b[i] != key {
      assert all[|a| + 1 + i] == b[i];
    }
  }

  lemma JoinParts(a: seq<ByteString>, sep: ByteString, b: seq<ByteString>)
    requires Ascending(a + [sep] + b)
    ensures sep !in a && sep !in b && LowerBound(a, sep) == |a| && LowerBound(b, sep) == 0
    ensures InnerUsed(a + [sep]) <= InnerUsed(a + [sep] + b) && InnerUsed(a + [sep]) == InnerUsed(a) + |sep| + 7
    ensures InnerUsed([sep] + b) <= InnerUsed(a + [sep] + b) && InnerUsed([sep] + b) == InnerUsed(b) + |sep| + 7
  {
    hide InnerUsed, LowerBound;
    NotTwice(a, sep, b);
    PartUsed(a, [sep], b);
    InnerUsedAppend(a, [sep]);
    InnerUsedAppend([sep], b);
    InnerUsedAppend(a, [sep] + b);
    InnerUsedOne(sep);
    assert a + [sep] + b == a + ([sep] + b);
    Ends(a, sep, b);
  }

  lemma Ends(a: seq<ByteString>, sep: ByteString, b: seq<ByteString>)
    requires Ascending(a + [sep] + b)
    ensures LowerBound(a, sep) == |a| && LowerBound(b, sep) == 0
  {
    hide Rank, Less, LowerBound, Ascending;
    assert [] + (a + [sep]) + b == a + [sep] + b && a + ([sep] + b) + [] == a + [sep] + b;
    PartAscending([], a + [sep], b);
    AllBefore(a, sep);
    PartAscending(a, [sep] + b, []);
    NoneBefore(sep, b);
  }

  lemma AllBefore(a: seq<ByteString>, sep: ByteString)
    requires Ascending(a + [sep])
    ensures LowerBound(a, sep) == |a|
  {
    hide Rank, Less, LowerBound;
    var all := a + [sep];
    assert forall i | 0 <= i < |a| :: all[i] == a[i];
    assert all[|a|] == sep;
    LowerBoundIs(a, sep, |a|);
  }

  lemma NoneBefore(sep: ByteString, b: seq<ByteString>)
    requires Ascending([sep] + b)
    ensures LowerBound(b, sep) == 0
  {
    hide Rank, Less, LowerBound;
    var all := [sep] + b;
    assert all[0] == sep && forall i | 0 <= i < |b| :: all[i + 1] == b[i];
    LowerBoundIs(b, sep, 0);
  }

  lemma AllSized(keys: seq<ByteString>, kids: seq<PageIndex>)
    requires |kids| == |keys| + 1
    ensures Slots.AllSized(Items(keys, kids), false)
  {
    hide IdBytes;
    forall i | 0 <= i < |keys| ensures Slots.SizedBy(Items(keys, kids)[i], false) {
      SlotBytesSize(keys[i], kids[i + 1]);
      assert SlotBytes(keys[i], kids[i + 1])[0] == |keys[i]|;
    }
  }

  lemma PartSize(keys: seq<ByteString>, kids: seq<PageIndex>, first: nat, last: nat)
    requires |kids| == |keys| + 1 && first <= last <= |keys|
    ensures Sum(Slots.Sizes(Items(keys, kids)[first..last])) + 2 * (last - first) == InnerUsed(keys[first..last])
  {
    hide IdBytes;
    var part := Items(keys, kids)[first..last];
    forall i | 0 <= i < |part| ensures |part[i]| == SlotSize(keys[first..last][i]) {
      SlotBytesSize(keys[first + i], kids[first + i + 1]);
    }
    assert Slots.Sizes(part) == SlotSizes(keys[first..last]);
  }

  /** There is room for a stretch of another page's slots if the keys fit. */
  lemma CopyFits(bytes: seq<Byte>, begin: nat, end: nat, keys: seq<ByteString>, kids: seq<PageIndex>,
                 ks: seq<ByteString>, cs: seq<PageIndex>, first: nat, last: nat)
    requires |bytes| == INNER_SIZE && |kids| == |keys| + 1 && Slots.Page(bytes, begin, end, Items(keys, kids))
    requires |cs| == |ks| + 1 && first <= last <= |ks| && InnerUsed(ks[first..last]) + InnerUsed(keys) <= INNER_SIZE
    ensures |Items(keys, kids)| == |keys| && |Items(ks, cs)| == |ks| && Slots.AllSized(Items(ks, cs), false)
    ensures begin + Sum(Slots.Sizes(Items(ks, cs)[first..last])) + 2 * (last - first) <= end
  {
    hide Slots.Page, InnerUsed, Slots.AllSized, Slots.Sizes, Sum;
    Used(bytes, begin, end, keys, kids);
    AllSized(ks, cs);
    PartSize(ks, cs, first, last);
  }

  lemma FrontItems(ks: seq<ByteString>, cs: seq<PageIndex>, first: nat, last: nat, keys: seq<ByteString>,
                   kids: seq<PageIndex>)
    requires |cs| == |ks| + 1 && |kids| == |keys| + 1 && first <= last <= |ks|
    ensures Items(ks[first..last] + keys, cs[first..last + 1] + kids[1..])
         == Items(keys, kids)[..0] + Items(ks, cs)[first..last] + Items(keys, kids)[0..]
  {
    hide SlotBytes;
  }

  lemma BackItems(ks: seq<ByteString>, cs: seq<PageIndex>, first: nat, last: nat, keys: seq<ByteString>,
                  kids: seq<PageIndex>)
    requires |cs| == |ks| + 1 && |kids| == |keys| + 1 && first <= last <= |ks|
    ensures Items(keys + ks[first..last], kids + cs[first + 1..last + 1])
         == Items(keys, kids)[..|keys|] + Items(ks, cs)[first..last] + Items(keys, kids)[|keys|..]
  {
    hide SlotBytes;
  }

  ghost function KidsWithout(kids: seq<PageIndex>, pos: nat, first: bool): seq<PageIndex>
    requires pos + 1 < |kids|
  {
    if first then kids[1..] else kids[..pos + 1] + kids[pos + 2..]
  }

  lemma EmptyPage(bytes: seq<Byte>, kids: seq<PageIndex>)
    requires |bytes| == INNER_SIZE && |kids| == 1
    ensures Slots.Page(bytes, 0, INNER_SIZE, Items([], kids))
  {
    assert Slots.Sizes([]) == [];
  }

  lemma Used(bytes: seq<Byte>, begin: nat, end: nat, keys: seq<ByteString>, kids: seq<PageIndex>)
    requires |bytes| == INNER_SIZE && |kids| == |keys| + 1 && Slots.Page(bytes, begin, end, Items(keys, kids))
    ensures begin <= end && end - begin == INNER_SIZE - InnerUsed(keys) && end + 2 * |keys| == INNER_SIZE
    ensures begin == Sum(SlotSizes(keys))
  {
    assert Slots.Sizes(Items(keys, kids)) == SlotSizes(keys);
  }

  lemma SlotIn(bytes: seq<Byte>, begin: nat, end: nat, keys: seq<ByteString>, kids: seq<PageIndex>, i: nat)
    requires |kids| == |keys| + 1 && Slots.Page(bytes, begin, end, Items(keys, kids)) && i < |keys|
    ensures end + 2 * i + 1 < |bytes|
    ensures var o := Slots.Off(bytes, end, i);
      && Slots.StreamAt(bytes, o, keys[i]) && o + 1 + |keys[i]| + 4 <= |bytes|
      && bytes[o + 1 + |keys[i]|..o + 1 + |keys[i]| + 4] == IdBytes(kids[i + 1])
  {
    hide Slots.Tiles;
    Slots.ItemInside(bytes, begin, end, Items(keys, kids), i);
    var o, k := Slots.Off(bytes, end, i), keys[i];
    assert end + 2 * i + 1 < |bytes| && o + 1 + |k| + 4 <= |bytes|;
    hide Slots.Page, IdBytes;
    var id := IdBytes(kids[i + 1]);
    assert SlotBytes(k, kids[i + 1]) == [] + Slots.Stream(k) + id;
    Slots.StreamIn(bytes, o, [], k, id);
    Tail(bytes, o, Slots.Stream(k), id);
  }

  lemma Tail(bytes: seq<Byte>, o: nat, a: seq<Byte>, b: seq<Byte>)
    requires o + |a| + |b| <= |bytes| && bytes[o..o + |a| + |b|] == a + b
    ensures bytes[o + |a|..o + |a| + |b|] == b
  {
    assert (a + b)[|a|..] == b;
    assert bytes[o..o + |a| + |b|][|a|..] == bytes[o + |a|..o + |a| + |b|];
  }

  lemma AllKeys(bytes: seq<Byte>, begin: nat, end: nat, keys: seq<ByteString>, kids: seq<PageIndex>)
    requires |kids| == |keys| + 1 && Slots.Page(bytes, begin, end, Items(keys, kids))
    ensures Slots.KeysAt(bytes, end, keys)
  {
    hide Slots.Tiles, Slots.StreamAt;
    forall i | 0 <= i < |keys| ensures Slots.StreamAt(bytes, Slots.Off(bytes, end, i), keys[i]) {
      SlotIn(bytes, begin, end, keys, kids, i);
    }
  }

  lemma {:induction false} ItemsInsert(keys: seq<ByteString>, kids: seq<PageIndex>, key: ByteString, right: PageIndex)
    requires |kids| == |keys| + 1 && Ascending(keys) && key !in keys
    ensures var i := LowerBound(keys, key);
      var keys2, kids2 := keys[..i] + [key] + keys[i..], kids[..i + 1] + [right] + kids[i + 1..];
      && Items(keys2, kids2) == Slots.Inserted(Items(keys, kids), i, SlotBytes(key, right)) && Ascending(keys2)
  {
    hide Rank, Less, LowerBound, SlotBytes;
    var i := LowerBound(keys, key);
    if i < |keys| {
      RankOrders(keys[i], key);
    }
    AscendingAround(keys, i, key);
  }

  /** Which slot goes, and whether the first child goes with it. */
  lemma RemoveIs(keys: seq<ByteString>, kids: seq<PageIndex>, key: ByteString)
    requires |kids| == |keys| + 1 && keys != []
    ensures var i, n := LowerBound(keys, key), |keys|;
      var first := i < n && keys[i] != key && i == 0;
      var pos := if i == n then i - 1 else if keys[i] == key || i == 0 then i else i - 1;
      InnerRemove(InnerPage(keys, kids), key) == InnerPage(Slots.Without(keys, pos), KidsWithout(kids, pos, first))
  {
    hide LowerBound;
  }

  lemma ItemsRemove(keys: seq<ByteString>, kids: seq<PageIndex>, i: nat, first: bool)
    requires |kids| == |keys| + 1 && Ascending(keys) && i < |keys| && (first ==> i == 0)
    ensures |Items(keys, kids)| == |keys| && |Items(keys, kids)[i]| == |keys[i]| + 5
    ensures var keys2, kids2 := Slots.Without(keys, i), KidsWithout(kids, i, first);
      && |kids2| == |keys2| + 1 && kids2[0] == (if first then kids[1] else kids[0])
      && Items(keys2, kids2) == Slots.Without(Items(keys, kids), i) && Ascending(keys2)
  {
    hide Rank, Less, Ascending, IdBytes;
    WithoutAscending(keys, i);
    ItemsWithout(keys, kids, i, first);
    SlotBytesSize(keys[i], kids[i + 1]);
  }

  lemma SlotBytesSize(key: ByteString, right: PageIndex)
    ensures |SlotBytes(key, right)| == |key| + 5
  {
  }

  lemma ItemsWithout(keys: seq<ByteString>, kids: seq<PageIndex>, i: nat, first: bool)
    requires |kids| == |keys| + 1 && i < |keys| && (first ==> i == 0)
    ensures Items(Slots.Without(keys, i), KidsWithout(kids, i, first)) == Slots.Without(Items(keys, kids), i)
  {
    hide SlotBytes;
  }

  lemma WithoutAscending(keys: seq<ByteString>, i: nat)
    requires Ascending(keys) && i < |keys|
    ensures Ascending(Slots.Without(keys, i))
  {
    hide Rank, Less;
    var keys2 := Slots.Without(keys, i);
    assert forall j | 0 <= j < |keys2| :: keys2[j] == keys[if j < i then j else j + 1];
  }
}
