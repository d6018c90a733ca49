/** The bytes of a leaf. */
module LeafPages {
  import opened ByteStrings
  import opened Nodes
  import Slots

  /** An entry as it lies in the page. */
  function EntryBytes(e: Entry): seq<Byte> {
    Slots.Stream(e.key) + Slots.Stream(e.value)
  }

  ghost function Items(entries: seq<Entry>): seq<seq<Byte>> {
    seq(|entries|, i requires 0 <= i < |entries| => EntryBytes(entries[i]))
  }

  class Leaf {
    const data: array<Byte>
    var begin: nat
    var end: nat
    var prev: nat
    var next: nat
    ghost var entries: seq<Entry>

    ghost predicate Valid()
      reads this, data
    {
      data.Length == LEAF_SIZE && Slots.Page(data[..], begin, end, Items(entries)) && Ascending(KeysOf(entries))
    }

    constructor (prev: nat, next: nat)
      ensures Valid() && fresh(data) && entries == [] && this.prev == prev && this.next == next
    {
      data := new Byte[LEAF_SIZE](i => 0);
      begin, end := 0, LEAF_SIZE;
      this.prev, this.next := prev, next;
      entries := [];
      new;
      EmptyPage(data[..]);
    }

    /** The free bytes are those the entries and their slots leave. */
    method BytesLeft() returns (n: nat)
      requires Valid()
      ensures n == LEAF_SIZE - LeafUsed(entries)
    {
      Used(data[..], begin, end, entries);
      n := end - begin;
    }

    method NofItems() returns (n: nat)
      requires Valid()
      ensures n == |entries|
    {
      Used(data[..], begin, end, entries);
      n := (data.Length - end) / 2;
    }

    method HasSpace(key: ByteString, value: ByteString) returns (r: bool)
      requires Valid()
      ensures r == LeafHasSpace(entries, key, value)
    {
      var left := BytesLeft();
      r := 2 + |key| + |value| + 2 <= left;
      Used(data[..], begin, end, entries);
    }

    method GetKey(i: nat) returns (key: ByteString)
      requires Valid() && i < |entries|
      ensures key == entries[i].key
    {
      hide Slots.Page, Slots.StreamAt;
      EntryIn(data[..], begin, end, entries, i);
      var o := Slots.SlotAt(data, end, i);
      key := Slots.ReadStream(data, o, entries[i].key);
    }

    method GetValue(i: nat) returns (value: ByteString)
      requires Valid() && i < |entries|
      ensures value == entries[i].value
    {
      hide Slots.Page, Slots.StreamAt;
      EntryIn(data[..], begin, end, entries, i);
      var o := Slots.SlotAt(data, end, i);
      var key := Slots.ReadStream(data, o, entries[i].key);
      value := Slots.ReadStream(data, o + 1 + |key|, entries[i].value);
    }

    method LowestNotBelow(key: ByteString) returns (i: nat)
      requires Valid()
      ensures i == LowerBound(KeysOf(entries), key)
    {
      hide Slots.Page;
      AllKeys(data[..], begin, end, entries);
      i := Slots.FirstNotBelow(data, end, key, KeysOf(entries));
    }

    method FindKey(key: ByteString) returns (i: nat)
      requires Valid()
      ensures i == Find(entries, key)
    {
      hide Slots.Page, LowerBound;
      i := LowestNotBelow(key);
      var n := NofItems();
      if i == n {
        return;
      }
      var k := GetKey(i);
      if k != key {
        i := n;
      }
    }

    /** Puts an entry with a new key where it belongs. */
    method Insert(key: ByteString, value: ByteString)
      requires Valid() && LeafHasSpace(entries, key, value) && Find(entries, key) == |entries|
      modifies this`begin, this`end, this`entries, data
      ensures Valid() && entries == LeafInsert(old(entries), key, value)
    {
      hide Slots.Page, LowerBound, LeafUsed, Ascending, Find;
      Used(data[..], begin, end, entries);
      var item := EntryBytes(Entry(key, value));
      ghost var items := Items(entries);
      Slots.WriteItem(data, begin, end, item, items);
      var pos := LowestNotBelow(key);
      Slots.OpenSlot(data, begin, end, pos, items, item);
      ItemsInsert(entries, key, value);
      begin := begin + |item|;
      end := end - 2;
      entries := LeafInsert(entries, key, value);
    }

    method Remove(key: ByteString)
      requires Valid()
      modifies this`begin, this`end, this`entries, data
      ensures Valid() && entries == LeafRemove(old(entries), key)
    {
      hide Slots.Page, LowerBound, LeafUsed, Ascending;
      var pos := LowestNotBelow(key);
      var n := NofItems();
      if pos == n {
        return;
      }
      var k := GetKey(pos);
      if k != key {
        return;
      }
      var v := GetValue(pos);
      var size := |k| + 1 + |v| + 1;
      Slots.DropSlot(data, begin, end, pos, size, Items(entries));
      ItemsRemove(entries, pos);
      begin := begin - size;
      end := end + 2;
      entries := LeafRemove(entries, key);
    }

    /** The first entry with which more than half of the data is passed. */
    method FindSplitPoint() returns (m: nat)
      requires Valid()
      ensures m == LeafSplitAt(entries)
    {
      hide Slots.Page;
      ghost var sizes := EntrySizes(entries);
      Used(data[..], begin, end, entries);
      var size := 0;
      m := 0;
      var n := NofItems();
      assert sizes[..n] == sizes;
      while m < n
        invariant m <= n && size == Sum(sizes[..m]) <= Sum(sizes) / 2
      {
        var k := GetKey(m);
        var v := GetValue(m);
        size := size + |k| + 1 + |v| + 1;
        assert sizes[..m + 1][..m] == sizes[..m];
        if size > begin / 2 {
          break;
        }
        m := m + 1;
      }
      SplitPointIs(sizes, Sum(sizes) / 2, m);
    }

    /** Takes over the entries `first` to `last` of another page. */
    method Fill(from: array<Byte>, fromBegin: nat, fromEnd: nat, first: nat, last: nat, ghost es: seq<Entry>)
      requires data.Length == LEAF_SIZE == from.Length && from != data
      requires Slots.Page(from[..], fromBegin, fromEnd, Items(es))
      requires Ascending(KeysOf(es)) && first <= last <= |es|
      modifies this`begin, this`end, this`entries, data
      ensures Valid() && entries == es[first..last]
    {
      hide Slots.Page, Slots.SizedBy;
      EmptyPage(data[..]);
      PartFits(from[..], fromBegin, fromEnd, es, first, last);
      AllSized(es);
      begin, end := Slots.CopySlots(data, 0, LEAF_SIZE, 0, from, fromBegin, fromEnd, first, last, true, Items([]),
                                    Items(es));
      entries := es[first..last];
      assert Items([])[..0] + Items(es)[first..last] + Items([])[0..] == Items(entries);
      PartAscending(es, first, last);
    }

    method CopyOf() returns (copy: array<Byte>)
      ensures fresh(copy) && copy[..] == data[..]
    {
      copy := new Byte[data.Length](i reads this, data requires 0 <= i < data.Length => data[i]);
    }

    /** A full leaf gives half of its data to an empty one, and the new entry goes to one of them. */
    method Split(right: Leaf, key: ByteString, value: ByteString)
      requires Valid() && right.Valid() && right != this && right.data != data
      requires !LeafHasSpace(entries, key, value) && Find(entries, key) == |entries|
      modifies this`begin, this`end, this`entries, data, right`begin, right`end, right`entries, right.data
      ensures Valid() && right.Valid() && 0 < LeafSplitAt(old(entries))
      ensures (entries, right.entries) == LeafSplit(old(entries), key, value)
    {
      hide Slots.Page, LowerBound, LeafUsed, Ascending, Find, LeafSplitAt, KeysOf, Less, Rank;
      ghost var es := entries;
      Used(data[..], begin, end, entries);
      LeafSplitFits(es, key, value);
      var tmp := CopyOf();
      var tmpBegin, tmpEnd := begin, end;
      var m := FindSplitPoint();
      var n := NofItems();
      Fill(tmp, tmpBegin, tmpEnd, 0, m, es);
      right.Fill(tmp, tmpBegin, tmpEnd, m, n, es);
      assert es[m..n] == es[m..];
      NotInPart(es, key, es[..m]);
      NotInPart(es, key, es[m..]);
      var last := GetKey(m - 1);
      RankOrders(last, key);
      if Less(last, key) {
        right.Insert(key, value);
      } else {
        Insert(key, value);
      }
    }
  }

  lemma PartFits(bytes: seq<Byte>, begin: nat, end: nat, es: seq<Entry>, first: nat, last: nat)
    requires |bytes| == LEAF_SIZE && Slots.Page(bytes, begin, end, Items(es)) && first <= last <= |es|
    ensures Sum(Slots.Sizes(Items(es)[first..last])) + 2 * (last - first) <= LEAF_SIZE
  {
    Used(bytes, begin, end, es);
    hide Slots.Page;
    PartUsed(es, first, last);
    assert Slots.Sizes(Items(es)[first..last]) == EntrySizes(es[first..last]);
  }

  lemma PartUsed(es: seq<Entry>, first: nat, last: nat)
    requires first <= last <= |es|
    ensures LeafUsed(es[first..last]) <= LeafUsed(es)
  {
    hide LeafUsed;
    assert es == es[..first] + es[first..last] + es[last..];
    LeafUsedAppend(es[..first] + es[first..last], es[last..]);
    LeafUsedAppend(es[..first], es[first..last]);
  }

  lemma AllSized(es: seq<Entry>)
    ensures Slots.AllSized(Items(es), true)
  {
    forall i | 0 <= i < |es| ensures Slots.SizedBy(Items(es)[i], true) {
      var item, n := EntryBytes(es[i]), |es[i].key|;
      assert item[0] == n && item[n + 1] == |es[i].value|;
    }
  }

  lemma PartAscending(es: seq<Entry>, first: nat, last: nat)
    requires Ascending(KeysOf(es)) && first <= last <= |es|
    ensures Ascending(KeysOf(es[first..last]))
  {
    hide Rank, Less;
    var keys, part := KeysOf(es), KeysOf(es[first..last]);
    assert forall i | 0 <= i < |part| :: part[i] == keys[first + i];
  }

  lemma NotInPart(es: seq<Entry>, key: ByteString, part: seq<Entry>)
    requires Ascending(KeysOf(es)) && Find(es, key) == |es| && forall e | e in part :: e in es
    ensures Find(part, key) == |part|
  {
    hide Rank, Less;
    FindFinds(es, key);
    assert forall i | 0 <= i < |part| :: part[i].key != key;
  }

  lemma EmptyPage(bytes: seq<Byte>)
    requires |bytes| == LEAF_SIZE
    ensures Slots.Page(bytes, 0, LEAF_SIZE, Items([]))
  {
    assert Slots.Sizes([]) == [];
  }

  lemma Used(bytes: seq<Byte>, begin: nat, end: nat, entries: seq<Entry>)
    requires |bytes| == LEAF_SIZE && Slots.Page(bytes, begin, end, Items(entries))
    ensures begin <= end && end - begin == LEAF_SIZE - LeafUsed(entries) && end + 2 * |entries| == LEAF_SIZE
    ensures begin == Sum(EntrySizes(entries))
  {
    assert Slots.Sizes(Items(entries)) == EntrySizes(entries);
  }

  lemma EntryIn(bytes: seq<Byte>, begin: nat, end: nat, entries: seq<Entry>, i: nat)
    requires Slots.Page(bytes, begin, end, Items(entries)) && i < |entries|
    ensures end + 2 * i + 1 < |bytes|
    ensures var o := Slots.Off(bytes, end, i);
      Slots.StreamAt(bytes, o, entries[i].key) && Slots.StreamAt(bytes, o + 1 + |entries[i].key|, entries[i].value)
  {
    hide Slots.Tiles;
    Slots.ItemInside(bytes, begin, end, Items(entries), i);
    hide Slots.Page;
    var o, e := Slots.Off(bytes, end, i), entries[i];
    assert EntryBytes(e) == [] + Slots.Stream(e.key) + Slots.Stream(e.value)
           == Slots.Stream(e.key) + Slots.Stream(e.value) + [];
    Slots.StreamIn(bytes, o, [], e.key, Slots.Stream(e.value));
    Slots.StreamIn(bytes, o, Slots.Stream(e.key), e.value, []);
  }

  lemma AllKeys(bytes: seq<Byte>, begin: nat, end: nat, entries: seq<Entry>)
    requires Slots.Page(bytes, begin, end, Items(entries))
    ensures Slots.KeysAt(bytes, end, KeysOf(entries))
  {
    hide Slots.Tiles, Slots.StreamAt;
    forall i | 0 <= i < |entries| ensures Slots.StreamAt(bytes, Slots.Off(bytes, end, i), KeysOf(entries)[i]) {
      EntryIn(bytes, begin, end, entries, i);
    }
  }

  lemma {:induction false} ItemsInsert(entries: seq<Entry>, key: ByteString, value: ByteString)
    requires Ascending(KeysOf(entries)) && Find(entries, key) == |entries|
    ensures var i := LowerBound(KeysOf(entries), key);
      Items(LeafInsert(entries, key, value)) == Slots.Inserted(Items(entries), i, EntryBytes(Entry(key, value)))
    ensures Ascending(KeysOf(LeafInsert(entries, key, value)))
  {
    hide Rank, Less, LowerBound;
    var keys, i := KeysOf(entries), LowerBound(KeysOf(entries), key);
    assert KeysOf(LeafInsert(entries, key, value)) == keys[..i] + [key] + keys[i..];
    if i < |keys| {
      RankOrders(keys[i], key);
      assert keys[i] == entries[i].key;
    }
    AscendingAround(keys, i, key);
  }

  lemma ItemsRemove(entries: seq<Entry>, i: nat)
    requires Ascending(KeysOf(entries)) && i < |entries|
    ensures Items(entries[..i] + entries[i + 1..]) == Slots.Without(Items(entries), i)
    ensures Ascending(KeysOf(entries[..i] + entries[i + 1..]))
  {
    hide Rank, Less;
    var keys, rest := KeysOf(entries), KeysOf(entries[..i] + entries[i + 1..]);
    assert forall j | 0 <= j < |rest| :: rest[j] == keys[if j < i then j else j + 1];
  }
}
