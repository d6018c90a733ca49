/** A page with a data area that grows from the front and a table of two-byte offsets that grows from the
    back. Items lie in the data area in any order; the table lists them in the order of their keys. */
module Slots {
  import opened ByteStrings
  import opened Nodes

  /** The offset in slot `i` of the table that begins at `end`. */
  function Off(bytes: seq<Byte>, end: nat, i: nat): nat
    requires end + 2 * i + 1 < |bytes|
  {
    bytes[end + 2 * i] as int + 256 * bytes[end + 2 * i + 1] as int
  }

  ghost function Offs(bytes: seq<Byte>, end: nat, n: nat): seq<nat>
    requires end + 2 * n <= |bytes|
  {
    seq(n, i requires 0 <= i < n => Off(bytes, end, i))
  }

  ghost function Sizes(items: seq<seq<Byte>>): seq<nat> {
    seq(|items|, i requires 0 <= i < |items| => |items[i]|)
  }

  /** Stretches of these sizes at these offsets fill `[0, begin)`, every byte exactly once. */
  ghost predicate Tiles(offs: seq<nat>, sizes: seq<nat>, begin: nat) {
    && |offs| == |sizes| && Sum(sizes) == begin
    && (forall i | 0 <= i < |offs| :: sizes[i] > 0 && offs[i] + sizes[i] <= begin)
    && (forall i, j | 0 <= i < j < |offs| :: Apart(offs, sizes, i, j))
    && (forall p | 0 <= p < begin :: Covered(offs, sizes, p))
  }

  ghost predicate Apart(offs: seq<nat>, sizes: seq<nat>, i: nat, j: nat)
    requires |offs| == |sizes| && i < |offs| && j < |offs|
  {
    offs[i] + sizes[i] <= offs[j] || offs[j] + sizes[j] <= offs[i]
  }

  ghost predicate Covered(offs: seq<nat>, sizes: seq<nat>, p: nat)
    requires |offs| == |sizes|
  {
    exists i :: 0 <= i < |offs| && offs[i] <= p < offs[i] + sizes[i]
  }

  ghost predicate DataAt(bytes: seq<Byte>, offs: seq<nat>, items: seq<seq<Byte>>) {
    && |offs| == |items|
    && forall i | 0 <= i < |offs| :: offs[i] + |items[i]| <= |bytes| && bytes[offs[i]..offs[i] + |items[i]|] == items[i]
  }

  /** The page holds these items, in the order of the table, and nothing else. */
  ghost predicate Page(bytes: seq<Byte>, begin: nat, end: nat, items: seq<seq<Byte>>) {
    && begin <= end && end + 2 * |items| == |bytes| < 65536
    && Tiles(Offs(bytes, end, |items|), Sizes(items), begin)
    && DataAt(bytes, Offs(bytes, end, |items|), items)
  }

  function Inserted<T>(s: seq<T>, i: nat, x: T): seq<T>
    requires i <= |s|
  {
    s[..i] + [x] + s[i..]
  }

  function Without<T>(s: seq<T>, i: nat): seq<T>
    requires i < |s|
  {
    s[..i] + s[i + 1..]
  }

  // ------------------------------------------------------------------ a new item

  lemma SumInserted(sizes: seq<nat>, i: nat, x: nat)
    requires i <= |sizes|
    ensures Sum(Inserted(sizes, i, x)) == Sum(sizes) + x
  {
    assert sizes == sizes[..i] + sizes[i..];
    SumAppend(sizes[..i], sizes[i..]);
    SumAppend(sizes[..i] + [x], sizes[i..]);
    SumAppend(sizes[..i], [x]);
    SumOne(x);
  }

  lemma BackIn<T>(s: seq<T>, i: nat)
    requires i < |s|
    ensures |Without(s, i)| == |s| - 1 && Inserted(Without(s, i), i, s[i]) == s
  {
  }

  lemma SumWithout(sizes: seq<nat>, i: nat)
    requires i < |sizes|
    ensures Sum(sizes) == Sum(Without(sizes, i)) + sizes[i]
  {
    assert Inserted(Without(sizes, i), i, sizes[i]) == sizes by {
      BackIn(sizes, i);
    }
    hide Sum, Without, Inserted;
    SumInserted(Without(sizes, i), i, sizes[i]);
  }

  lemma TilesInsert(offs: seq<nat>, sizes: seq<nat>, begin: nat, pos: nat, size: nat)
    requires Tiles(offs, sizes, begin) && pos <= |offs| && size > 0
    ensures Tiles(Inserted(offs, pos, begin), Inserted(sizes, pos, size), begin + size)
  {
    SumInserted(sizes, pos, size);
    var offs2, sizes2 := Inserted(offs, pos, begin), Inserted(sizes, pos, size);
    forall i, j | 0 <= i < j < |offs2| ensures Apart(offs2, sizes2, i, j) {
      InsertApart(offs, sizes, begin, pos, size, i, j);
    }
    forall p | 0 <= p < begin + size ensures Covered(offs2, sizes2, p) {
      if p >= begin {
        assert offs2[pos] == begin && sizes2[pos] == size;
      } else {
        assert Covered(offs, sizes, p);
        var i :| 0 <= i < |offs| && offs[i] <= p < offs[i] + sizes[i];
        var k := if i < pos then i else i + 1;
        assert offs2[k] == offs[i] && sizes2[k] == sizes[i];
      }
    }
  }

  lemma InsertApart(offs: seq<nat>, sizes: seq<nat>, begin: nat, pos: nat, size: nat, i: nat, j: nat)
    requires Tiles(offs, sizes, begin) && pos <= |offs| && size > 0 && i < j <= |offs|
    ensures Apart(Inserted(offs, pos, begin), Inserted(sizes, pos, size), i, j)
  {
    if i != pos && j != pos {
      assert Apart(offs, sizes, if i < pos then i else i - 1, if j < pos then j else j - 1);
    }
  }

  lemma SlotBytes(begin: nat)
    requires begin < 65536
    ensures begin % 256 + 256 * (begin / 256) == begin && begin / 256 < 256
  {
  }

  /** The bytes after an item was written behind the data and its slot put at position `pos`. */
  lemma InsertPage(was: seq<Byte>, now: seq<Byte>, begin: nat, end: nat, items: seq<seq<Byte>>, pos: nat,
                   item: seq<Byte>)
    requires Page(was, begin, end, items) && pos <= |items| && |item| > 0 && begin + |item| + 2 <= end && |now| == |was|
    requires now[..begin] == was[..begin] && now[begin..begin + |item|] == item
    requires forall i | 0 <= i < pos :: Off(now, end - 2, i) == Off(was, end, i)
    requires Off(now, end - 2, pos) == begin
    requires forall i | pos <= i < |items| :: Off(now, end - 2, i + 1) == Off(was, end, i)
    ensures Page(now, begin + |item|, end - 2, Inserted(items, pos, item))
  {
    hide Tiles, DataAt, Off, Sum;
    var items2 := Inserted(items, pos, item);
    var offs, offs2 := Offs(was, end, |items|), Offs(now, end - 2, |items2|);
    assert offs2 == Inserted(offs, pos, begin);
    assert Sizes(items2) == Inserted(Sizes(items), pos, |item|);
    TilesInsert(offs, Sizes(items), begin, pos, |item|);
    InsertData(was, now, begin, offs, items, pos, item);
  }

  lemma InsertData(was: seq<Byte>, now: seq<Byte>, begin: nat, offs: seq<nat>, items: seq<seq<Byte>>, pos: nat,
                   item: seq<Byte>)
    requires Tiles(offs, Sizes(items), begin) && DataAt(was, offs, items) && pos <= |items|
    requires begin + |item| <= |now| == |was| && now[..begin] == was[..begin] && now[begin..begin + |item|] == item
    ensures DataAt(now, Inserted(offs, pos, begin), Inserted(items, pos, item))
  {
    var offs2, items2 := Inserted(offs, pos, begin), Inserted(items, pos, item);
    forall i | 0 <= i < |offs2|
      ensures offs2[i] + |items2[i]| <= |now| && now[offs2[i]..offs2[i] + |items2[i]|] == items2[i]
    {
      if i != pos {
        var k := if i < pos then i else i - 1;
        assert offs2[i] == offs[k] && items2[i] == items[k] && Sizes(items)[k] == |items[k]|;
        SameBelow(was, now, begin, offs[k], |items[k]|);
      }
    }
  }

  lemma SameBelow(was: seq<Byte>, now: seq<Byte>, begin: nat, off: nat, size: nat)
    requires begin <= |was| && begin <= |now| && now[..begin] == was[..begin] && off + size <= begin
    ensures now[off..off + size] == was[off..off + size]
  {
    assert now[off..off + size] == now[..begin][off..off + size];
    assert was[off..off + size] == was[..begin][off..off + size];
  }

  // ------------------------------------------------------------------ an item less

  /** Where an item is after the one at `off` is gone. */
  function Moved(o: nat, off: nat, size: nat): nat
  {
    if o > off then (if o >= size then o - size else 0) else o
  }

  ghost function AllMoved(offs: seq<nat>, pos: nat, size: nat): seq<nat>
    requires pos < |offs|
  {
    seq(|offs| - 1, i requires 0 <= i < |offs| - 1 => Moved(Without(offs, pos)[i], offs[pos], size))
  }

  lemma Later(offs: seq<nat>, sizes: seq<nat>, begin: nat, pos: nat, i: nat)
    requires Tiles(offs, sizes, begin) && pos < |offs| && i < |offs| && i != pos
    ensures if offs[i] > offs[pos] then offs[i] >= offs[pos] + sizes[pos] else offs[i] + sizes[i] <= offs[pos]
  {
    assert Apart(offs, sizes, if i < pos then i else pos, if i < pos then pos else i);
  }

  lemma TilesRemove(offs: seq<nat>, sizes: seq<nat>, begin: nat, pos: nat)
    requires Tiles(offs, sizes, begin) && pos < |offs|
    ensures sizes[pos] <= begin && Tiles(AllMoved(offs, pos, sizes[pos]), Without(sizes, pos), begin - sizes[pos])
  {
    forall i | 0 <= i < |offs| && i != pos
      ensures if offs[i] > offs[pos] then offs[i] >= offs[pos] + sizes[pos] else offs[i] + sizes[i] <= offs[pos]
    {
      Later(offs, sizes, begin, pos, i);
    }
    SumWithout(sizes, pos);
    var size := sizes[pos];
    var offs2, sizes2 := AllMoved(offs, pos, size), Without(sizes, pos);
    assert forall i | 0 <= i < |offs2| ::
           offs2[i] == Moved(offs[Again(i, pos)], offs[pos], size) && sizes2[i] == sizes[Again(i, pos)];
    forall i, j | 0 <= i < j < |offs2| ensures Apart(offs2, sizes2, i, j) {
      assert Apart(offs, sizes, Again(i, pos), Again(j, pos));
    }
    forall p | 0 <= p < begin - size ensures Covered(offs2, sizes2, p) {
      CoveredAgain(offs, sizes, begin, pos, p);
    }
  }

  function Again(i: nat, pos: nat): nat {
    if i < pos then i else i + 1
  }

  lemma CoveredAgain(offs: seq<nat>, sizes: seq<nat>, begin: nat, pos: nat, p: nat)
    requires Tiles(offs, sizes, begin) && pos < |offs| && p < begin - sizes[pos]
    ensures Covered(AllMoved(offs, pos, sizes[pos]), Without(sizes, pos), p)
  {
    var size := sizes[pos];
    var q := if p < offs[pos] then p else p + size;
    assert Covered(offs, sizes, q);
    var i :| 0 <= i < |offs| && offs[i] <= q < offs[i] + sizes[i];
    Later(offs, sizes, begin, pos, i);
    var k := if i < pos then i else i - 1;
    assert Without(offs, pos)[k] == offs[i] && Without(sizes, pos)[k] == sizes[i];
    assert AllMoved(offs, pos, size)[k] == Moved(offs[i], offs[pos], size);
  }

  /** The bytes after the data behind an item moved down over it and its slot was taken out. */
  lemma RemovePage(was: seq<Byte>, now: seq<Byte>, begin: nat, end: nat, items: seq<seq<Byte>>, pos: nat)
    requires Page(was, begin, end, items) && pos < |items| && |now| == |was|
    requires var off, size := Off(was, end, pos), |items[pos]|;
      && off + size <= begin && now[..off] == was[..off] && now[off..begin - size] == was[off + size..begin]
      && (forall i {:trigger Off(now, end + 2, i)} | 0 <= i < |items| - 1 ::
            Off(now, end + 2, i) == Moved(Off(was, end, Again(i, pos)), off, size))
    ensures Page(now, begin - |items[pos]|, end + 2, Without(items, pos))
  {
    hide Tiles, DataAt, Off, Sum;
    var items2, size := Without(items, pos), |items[pos]|;
    var offs, offs2 := Offs(was, end, |items|), Offs(now, end + 2, |items2|);
    TilesRemove(offs, Sizes(items), begin, pos);
    assert Sizes(items2) == Without(Sizes(items), pos);
    assert offs2 == AllMoved(offs, pos, size);
    RemoveData(was, now, begin, offs, items, pos);
  }

  lemma RemoveData(was: seq<Byte>, now: seq<Byte>, begin: nat, offs: seq<nat>, items: seq<seq<Byte>>, pos: nat)
    requires Tiles(offs, Sizes(items), begin) && DataAt(was, offs, items) && pos < |items| && begin <= |was| == |now|
    requires var off, size := offs[pos], |items[pos]|;
      off + size <= begin && now[..off] == was[..off] && now[off..begin - size] == was[off + size..begin]
    ensures DataAt(now, AllMoved(offs, pos, |items[pos]|), Without(items, pos))
  {
    hide Tiles, Moved;
    var offs2, items2 := AllMoved(offs, pos, |items[pos]|), Without(items, pos);
    forall i | 0 <= i < |offs2|
      ensures offs2[i] + |items2[i]| <= |now| && now[offs2[i]..offs2[i] + |items2[i]|] == items2[i]
    {
      MovedAt(was, now, begin, offs, items, pos, i);
    }
  }

  lemma MovedAt(was: seq<Byte>, now: seq<Byte>, begin: nat, offs: seq<nat>, items: seq<seq<Byte>>, pos: nat, i: nat)
    requires Tiles(offs, Sizes(items), begin) && DataAt(was, offs, items) && pos < |items| && begin <= |was| == |now|
    requires var off, size := offs[pos], |items[pos]|;
      off + size <= begin && now[..off] == was[..off] && now[off..begin - size] == was[off + size..begin]
    requires i < |items| - 1
    ensures var offs2, items2 := AllMoved(offs, pos, |items[pos]|), Without(items, pos);
      offs2[i] + |items2[i]| <= |now| && now[offs2[i]..offs2[i] + |items2[i]|] == items2[i]
  {
    hide Tiles, Moved;
    var off, size, k := offs[pos], |items[pos]|, Again(i, pos);
    Inside(offs, Sizes(items), begin, k);
    Later(offs, Sizes(items), begin, pos, k);
    ItemMoved(was, now, off, size, begin, offs[k], |items[k]|);
  }

  lemma ItemMoved(was: seq<Byte>, now: seq<Byte>, off: nat, size: nat, begin: nat, o: nat, n: nat)
    requires off + size <= begin <= |was| == |now| && now[..off] == was[..off]
    requires now[off..begin - size] == was[off + size..begin]
    requires o + n <= begin && if o > off then o >= off + size else o + n <= off
    ensures Moved(o, off, size) + n <= |now| && now[Moved(o, off, size)..Moved(o, off, size) + n] == was[o..o + n]
  {
    if o > off {
      SlideDown(was, now, off, size, begin, o, n);
    } else {
      SameBelow(was, now, off, o, n);
    }
  }

  lemma Inside(offs: seq<nat>, sizes: seq<nat>, begin: nat, i: nat)
    requires Tiles(offs, sizes, begin) && i < |offs|
    ensures sizes[i] > 0 && offs[i] + sizes[i] <= begin
  {
  }

  lemma SlideDown(was: seq<Byte>, now: seq<Byte>, off: nat, size: nat, begin: nat, o: nat, n: nat)
    requires off + size <= begin <= |was| == |now| && now[off..begin - size] == was[off + size..begin]
    requires off + size <= o && o + n <= begin
    ensures now[o - size..o - size + n] == was[o..o + n]
  {
    var a, b := now[o - size..o - size + n], was[o..o + n];
    forall k | 0 <= k < n ensures a[k] == b[k] {
      assert now[off..begin - size][o - size - off + k] == was[off + size..begin][o - size - off + k];
    }
  }

  /** Every byte of the data belongs to exactly one item. */
  lemma TiledOnce(bytes: seq<Byte>, begin: nat, end: nat, items: seq<seq<Byte>>, p: nat) returns (i: nat)
    requires Page(bytes, begin, end, items) && p < begin
    ensures i < |items| && Off(bytes, end, i) <= p < Off(bytes, end, i) + |items[i]|
    ensures bytes[p] == items[i][p - Off(bytes, end, i)]
    ensures forall j | 0 <= j < |items| && j != i :: !(Off(bytes, end, j) <= p < Off(bytes, end, j) + |items[j]|)
  {
    hide Sum;
    var offs, sizes := Offs(bytes, end, |items|), Sizes(items);
    assert Covered(offs, sizes, p);
    i :| 0 <= i < |offs| && offs[i] <= p < offs[i] + sizes[i];
    assert bytes[offs[i]..offs[i] + |items[i]|][p - offs[i]] == items[i][p - offs[i]];
    forall j | 0 <= j < |items| && j != i ensures !(Off(bytes, end, j) <= p < Off(bytes, end, j) + |items[j]|) {
      assert Apart(offs, sizes, if i < j then i else j, if i < j then j else i);
      assert offs[j] == Off(bytes, end, j) && sizes[j] == |items[j]|;
    }
  }

  // ------------------------------------------------------------------ keys

  /** A byte string as it lies in a page: its length and its bytes. */
  function Stream(s: ByteString): seq<Byte> {
    [|s|] + s
  }

  ghost predicate StreamAt(bytes: seq<Byte>, o: nat, s: ByteString) {
    o + 1 + |s| <= |bytes| && bytes[o] == |s| && bytes[o + 1..o + 1 + |s|] == s
  }

  ghost predicate KeysAt(bytes: seq<Byte>, end: nat, keys: seq<ByteString>) {
    end + 2 * |keys| == |bytes| && forall i | 0 <= i < |keys| :: StreamAt(bytes, Off(bytes, end, i), keys[i])
  }

  lemma StreamIn(bytes: seq<Byte>, o: nat, front: seq<Byte>, s: ByteString, back: seq<Byte>)
    requires o + |front| + 1 + |s| + |back| <= |bytes|
    requires bytes[o..o + |front| + 1 + |s| + |back|] == front + Stream(s) + back
    ensures StreamAt(bytes, o + |front|, s)
  {
    var all, n := bytes[o..o + |front| + 1 + |s| + |back|], |front|;
    assert all[n] == |s| && all[n + 1..n + 1 + |s|] == s;
    var key := bytes[o + n + 1..o + n + 1 + |s|];
    forall k | 0 <= k < |s| ensures key[k] == s[k] {
      assert all[n + 1 + k] == s[k];
    }
  }

  method ReadStream(data: array<Byte>, o: nat, ghost s: ByteString) returns (r: ByteString)
    requires StreamAt(data[..], o, s)
    ensures r == s
  {
    r := data[o + 1..o + 1 + data[o]];
  }

  method SlotAt(data: array<Byte>, end: nat, i: nat) returns (o: nat)
    requires end + 2 * i + 1 < data.Length
    ensures o == Off(data[..], end, i)
  {
    o := data[end + 2 * i] as int + 256 * data[end + 2 * i + 1] as int;
  }

  /** The binary search of the tables. */
  method FirstNotBelow(data: array<Byte>, end: nat, key: ByteString, ghost keys: seq<ByteString>) returns (first: nat)
    requires KeysAt(data[..], end, keys) && Ascending(keys)
    ensures first == LowerBound(keys, key)
  {
    hide Rank, Less, LowerBound, KeysAt, StreamAt, Off;
    KeysIn(data[..], end, keys);
    first := 0;
    var count := (data.Length - end) / 2;
    while count > 0
      invariant 0 <= count && first + count <= |keys|
      invariant forall i | 0 <= i < first :: Rank(keys[i]) < Rank(key)
      invariant first + count < |keys| ==> Rank(key) <= Rank(keys[first + count])
    {
      var half := count / 2;
      var mid := first + half;
      var o := SlotAt(data, end, mid);
      KeyIn(data[..], end, keys, mid);
      var k := ReadStream(data, o, keys[mid]);
      RankOrders(k, key);
      if Less(k, key) {
        first := mid + 1;
        count := count - half - 1;
      } else {
        count := half;
      }
    }
    LowerBoundIs(keys, key, first);
  }

  lemma KeysIn(bytes: seq<Byte>, end: nat, keys: seq<ByteString>)
    requires KeysAt(bytes, end, keys)
    ensures end + 2 * |keys| == |bytes|
  {
  }

  lemma KeyIn(bytes: seq<Byte>, end: nat, keys: seq<ByteString>, i: nat)
    requires KeysAt(bytes, end, keys) && i < |keys|
    ensures end + 2 * i + 1 < |bytes| && StreamAt(bytes, Off(bytes, end, i), keys[i])
  {
  }

  // ------------------------------------------------------------------ the moves on the bytes

  /** What lies behind the data does not matter. */
  lemma BeyondPage(was: seq<Byte>, now: seq<Byte>, begin: nat, end: nat, items: seq<seq<Byte>>)
    requires Page(was, begin, end, items) && |now| == |was| && now[..begin] == was[..begin] && now[end..] == was[end..]
    ensures Page(now, begin, end, items)
  {
    hide Tiles, Sum;
    var offs := Offs(was, end, |items|);
    forall i | 0 <= i < |items| ensures Off(now, end, i) == Off(was, end, i) {
      assert now[end..][2 * i] == was[end..][2 * i] && now[end..][2 * i + 1] == was[end..][2 * i + 1];
    }
    assert Offs(now, end, |items|) == offs;
    forall i | 0 <= i < |offs| ensures now[offs[i]..offs[i] + |items[i]|] == items[i] {
      Inside(offs, Sizes(items), begin, i);
      SameBelow(was, now, begin, offs[i], |items[i]|);
    }
  }

  function Copied(bytes: seq<Byte>, first: nat, last: nat, dest: nat): seq<Byte>
    requires first <= last <= |bytes| && dest + (last - first) <= |bytes|
  {
    bytes[..dest] + bytes[first..last] + bytes[dest + (last - first)..]
  }

  /** Copies bytes to a place that may overlap them. */
  method Copy(data: array<Byte>, first: nat, last: nat, dest: nat)
    requires first <= last <= data.Length && dest + (last - first) <= data.Length
    modifies data
    ensures data[..] == Copied(old(data[..]), first, last, dest)
  {
    forall k | first <= k < last {
      data[dest + (k - first)] := data[k];
    }
  }

  /** An item is written behind the data; it does not belong to the page yet. */
  method WriteItem(data: array<Byte>, begin: nat, end: nat, item: seq<Byte>, ghost items: seq<seq<Byte>>)
    requires Page(data[..], begin, end, items) && begin + |item| <= end
    modifies data
    ensures Page(data[..], begin, end, items) && data[begin..begin + |item|] == item
    ensures data[..begin] == old(data[..begin]) && data[end..] == old(data[end..])
  {
    hide Page, Tiles, DataAt;
    PageSize(data[..], begin, end, items);
    ghost var was := data[..];
    forall k | 0 <= k < |item| {
      data[begin + k] := item[k];
    }
    assert data[..][..begin] == was[..begin] && data[..][end..] == was[end..];
    BeyondPage(was, data[..], begin, end, items);
  }

  lemma PageSize(bytes: seq<Byte>, begin: nat, end: nat, items: seq<seq<Byte>>)
    requires Page(bytes, begin, end, items)
    ensures begin <= end && end + 2 * |items| == |bytes| < 65536
  {
  }

  /** The table opens at `pos` for the item just written. */
  method OpenSlot(data: array<Byte>, begin: nat, end: nat, pos: nat, ghost items: seq<seq<Byte>>, ghost item: seq<Byte>)
    requires Page(data[..], begin, end, items) && pos <= |items| && |item| > 0 && begin + |item| + 2 <= end
    requires data[begin..begin + |item|] == item
    modifies data
    ensures Page(data[..], begin + |item|, end - 2, Inserted(items, pos, item))
  {
    hide Page, Tiles, DataAt;
    PageSize(data[..], begin, end, items);
    SlotBytes(begin);
    ghost var was := data[..];
    forall k | end <= k < end + 2 * pos {
      data[k - 2] := data[k];
    }
    data[end + 2 * pos - 2], data[end + 2 * pos - 1] := begin % 256, begin / 256;
    ghost var now := data[..];
    assert now[..begin] == was[..begin];
    assert now[begin..begin + |item|] == was[begin..begin + |item|];
    InsertPage(was, now, begin, end, items, pos, item);
  }

  /** The item of slot `pos` goes: the data behind it moves down, its slot is taken out, and the slots of
      the items that moved are adjusted. */
  method DropSlot(data: array<Byte>, begin: nat, end: nat, pos: nat, size: nat, ghost items: seq<seq<Byte>>)
    requires Page(data[..], begin, end, items) && pos < |items| && size == |items[pos]|
    modifies data
    ensures size <= begin && end + 2 <= data.Length && Page(data[..], begin - size, end + 2, Without(items, pos))
  {
    hide Page, Tiles, DataAt, Off, Copied, Movable, Moved, Again, Without;
    PageSize(data[..], begin, end, items);
    ItemInside(data[..], begin, end, items, pos);
    var index := SlotAt(data, end, pos);
    ghost var was := data[..];
    Copy(data, index + size, begin, index);
    ghost var mid := data[..];
    Copy(data, end, end + 2 * pos, end + 2);
    ghost var moved := data[..];
    SlotsMoved(was, mid, moved, begin, end, pos, index, size, |items|);
    SlotsLater(was, moved, begin, end, items, pos);
    AdjustSlots(data, end + 2, index, size);
    ghost var now := data[..];
    Front(moved, now, end + 2, index, begin - size);
    RemovePage(was, now, begin, end, items, pos);
  }

  lemma SlotsLater(was: seq<Byte>, moved: seq<Byte>, begin: nat, end: nat, items: seq<seq<Byte>>, pos: nat)
    requires Page(was, begin, end, items) && pos < |items| && |moved| == |was|
    requires end + 2 * |items| == |was|
    requires forall i | 0 <= i < |items| - 1 :: Off(moved, end + 2, i) == Off(was, end, Again(i, pos))
    ensures Movable(moved, end + 2, Off(was, end, pos), |items[pos]|)
  {
    hide Page, Off;
    var end2, n := end + 2, |items| - 1;
    forall i | 0 <= i < n ensures Off(moved, end2, i) > Off(was, end, pos) ==> |items[pos]| <= Off(moved, end2, i) {
      if Off(was, end, Again(i, pos)) > Off(was, end, pos) {
        OthersInside(was, begin, end, items, pos, Again(i, pos));
      }
    }
  }

  /** No slot behind `index` points below `size`. */
  ghost predicate Movable(bytes: seq<Byte>, end: nat, index: nat, size: nat)
    requires end <= |bytes|
  {
    forall i | 0 <= i < (|bytes| - end) / 2 :: Off(bytes, end, i) > index ==> size <= Off(bytes, end, i)
  }

  lemma SlotsMoved(was: seq<Byte>, mid: seq<Byte>, moved: seq<Byte>, begin: nat, end: nat, pos: nat, index: nat,
                   size: nat, n: nat)
    requires index + size <= begin <= end && end + 2 * n == |was| == |mid| == |moved| && pos < n
    requires mid == Copied(was, index + size, begin, index) && moved == Copied(mid, end, end + 2 * pos, end + 2)
    ensures moved[..index] == was[..index] && moved[index..begin - size] == was[index + size..begin]
    ensures forall i | 0 <= i < n - 1 :: Off(moved, end + 2, i) == Off(was, end, Again(i, pos))
  {
    hide Copied, Off;
    DataDown(was, mid, begin, index, size);
    SlotsUp(mid, moved, end, pos, n);
    Front(mid, moved, end + 2, index, begin - size);
    forall i | 0 <= i < n - 1 ensures Off(moved, end + 2, i) == Off(was, end, Again(i, pos)) {
      SameSlot(was, mid, begin, end, Again(i, pos));
    }
  }

  lemma DataDown(was: seq<Byte>, mid: seq<Byte>, begin: nat, index: nat, size: nat)
    requires index + size <= begin <= |was| && mid == Copied(was, index + size, begin, index)
    ensures |mid| == |was| && mid[..index] == was[..index] && mid[index..begin - size] == was[index + size..begin]
    ensures mid[begin..] == was[begin..]
  {
  }

  lemma SlotsUp(mid: seq<Byte>, moved: seq<Byte>, end: nat, pos: nat, n: nat)
    requires end + 2 * n == |mid| && pos < n && moved == Copied(mid, end, end + 2 * pos, end + 2)
    ensures |moved| == |mid| && moved[..end + 2] == mid[..end + 2]
    ensures forall i | 0 <= i < n - 1 :: Off(moved, end + 2, i) == Off(mid, end, Again(i, pos))
  {
    hide Off;
    forall i | 0 <= i < n - 1 ensures Off(moved, end + 2, i) == Off(mid, end, Again(i, pos)) {
      var a, b := end + 2 + 2 * i, end + 2 * Again(i, pos);
      SlotCopied(mid, moved, end, pos, a);
      SlotCopied(mid, moved, end, pos, a + 1);
      OffIs(moved, end + 2, i);
      OffIs(mid, end, Again(i, pos));
    }
  }

  lemma SlotCopied(mid: seq<Byte>, moved: seq<Byte>, end: nat, pos: nat, k: nat)
    requires end + 2 * pos + 2 <= |mid| && moved == Copied(mid, end, end + 2 * pos, end + 2)
    requires end + 2 <= k < |mid|
    ensures |moved| == |mid| && moved[k] == if k < end + 2 + 2 * pos then mid[k - 2] else mid[k]
  {
  }

  lemma OffIs(bytes: seq<Byte>, end: nat, i: nat)
    requires end + 2 * i + 1 < |bytes|
    ensures Off(bytes, end, i) == bytes[end + 2 * i] as int + 256 * bytes[end + 2 * i + 1] as int
  {
  }

  lemma SameSlot(was: seq<Byte>, mid: seq<Byte>, begin: nat, end: nat, i: nat)
    requires begin <= end && end + 2 * i + 1 < |was| == |mid| && mid[begin..] == was[begin..]
    ensures Off(mid, end, i) == Off(was, end, i)
  {
    var a := end + 2 * i - begin;
    assert mid[begin..][a] == was[begin..][a] && mid[begin..][a + 1] == was[begin..][a + 1];
  }

  lemma Front(was: seq<Byte>, now: seq<Byte>, end: nat, a: nat, b: nat)
    requires a <= b <= end <= |was| == |now| && now[..end] == was[..end]
    ensures now[..a] == was[..a] && now[a..b] == was[a..b]
  {
    assert now[..a] == now[..end][..a] && was[..a] == was[..end][..a];
    assert now[a..b] == now[..end][a..b] && was[a..b] == was[..end][a..b];
  }

  /** Slots that point behind `index` move down by `size`. */
  method AdjustSlots(data: array<Byte>, end: nat, index: nat, size: nat)
    requires end <= data.Length < 65536 && (data.Length - end) % 2 == 0
    requires Movable(data[..], end, index, size)
    modifies data
    ensures data[..][..end] == old(data[..])[..end]
    ensures forall i | 0 <= i < (data.Length - end) / 2 ::
            Off(data[..], end, i) == Moved(Off(old(data[..]), end, i), index, size)
  {
    ghost var was := data[..];
    for i := 0 to (data.Length - end) / 2
      invariant data[..][..end] == was[..end]
      invariant forall j | 0 <= j < i :: Off(data[..], end, j) == Moved(Off(was, end, j), index, size)
      invariant forall k | end + 2 * i <= k < data.Length :: data[k] == was[k]
    {
      var o := SlotAt(data, end, i);
      ghost var before := data[..];
      if index < o {
        SlotBytes(o - size);
        data[end + 2 * i], data[end + 2 * i + 1] := (o - size) % 256, (o - size) / 256;
      }
      assert forall j | 0 <= j < i :: Off(data[..], end, j) == Off(before, end, j);
    }
  }

  lemma ItemInside(bytes: seq<Byte>, begin: nat, end: nat, items: seq<seq<Byte>>, pos: nat)
    requires Page(bytes, begin, end, items) && pos < |items|
    ensures |items[pos]| > 0 && Off(bytes, end, pos) + |items[pos]| <= begin
    ensures bytes[Off(bytes, end, pos)..Off(bytes, end, pos) + |items[pos]|] == items[pos]
  {
    hide Tiles;
    Inside(Offs(bytes, end, |items|), Sizes(items), begin, pos);
  }

  lemma OthersInside(bytes: seq<Byte>, begin: nat, end: nat, items: seq<seq<Byte>>, pos: nat, i: nat)
    requires Page(bytes, begin, end, items) && pos < |items| && i < |items| && i != pos
    requires Off(bytes, end, i) > Off(bytes, end, pos)
    ensures |items[pos]| <= Off(bytes, end, i) < begin
  {
    hide Tiles;
    Later(Offs(bytes, end, |items|), Sizes(items), begin, pos, i);
    Inside(Offs(bytes, end, |items|), Sizes(items), begin, i);
  }

  // ------------------------------------------------------------------ copying items from another page

  /** How an item tells its size: a key, and then a value or the four bytes of a page index. */
  ghost predicate SizedBy(item: seq<Byte>, leaf: bool) {
    && |item| > 0 && item[0] as int + 1 < |item|
    && |item| == item[0] as int + 1 + (if leaf then item[item[0] as int + 1] as int + 1 else 4)
  }

  ghost predicate AllSized(items: seq<seq<Byte>>, leaf: bool) {
    forall i | 0 <= i < |items| :: SizedBy(items[i], leaf)
  }

  method ItemSize(data: array<Byte>, o: nat, leaf: bool, ghost item: seq<Byte>) returns (size: nat)
    requires o + |item| <= data.Length && data[..][o..o + |item|] == item && SizedBy(item, leaf)
    ensures size == |item|
  {
    assert data[o] == item[0];
    var key := data[o] as int + 1;
    assert data[o + key] == item[key];
    size := key + if leaf then data[o + key] as int + 1 else 4;
  }

  /** Items `first` to `last` of one page are copied behind the data of another, and their slots into its
      table at `at`. */
  method CopySlots(data: array<Byte>, begin: nat, end: nat, at: nat, src: array<Byte>, srcBegin: nat, srcEnd: nat,
                   first: nat,
                   last: nat, leaf: bool, ghost items: seq<seq<Byte>>, ghost from: seq<seq<Byte>>)
    returns (begin2: nat, end2: nat)
    requires data != src && Page(data[..], begin, end, items) && at <= |items|
    requires Page(src[..], srcBegin, srcEnd, from) && first <= last <= |from| && AllSized(from, leaf)
    requires begin + Sum(Sizes(from[first..last])) + 2 * (last - first) <= end
    modifies data
    ensures begin2 == begin + Sum(Sizes(from[first..last])) && end2 == end - 2 * (last - first)
    ensures Page(data[..], begin2, end2, items[..at] + from[first..last] + items[at..])
  {
    hide Page, Tiles, DataAt, Off, SizedBy, Filling, Joined, Sum, Sizes, Copied, Inserted;
    PageSize(data[..], begin, end, items);
    PageSize(src[..], srcBegin, srcEnd, from);
    var k := last - first;
    end2 := end - 2 * k;
    begin2 := begin;
    ghost var offs := Offs(data[..], end, |items|);
    Opened(data[..], begin, end, items, at, from, first, k);
    Copy(data, end, end + 2 * at, end2);
    for i := 0 to k
      invariant |offs| == |items| + i && begin2 == begin + Sum(Sizes(from[first..first + i]))
      invariant Filling(data[..], begin2, end2, offs, Joined(items, at, from, first, i), at, i, k)
    {
      SumGrows(from, first, i, last);
      FillingFacts(data[..], begin2, end2, offs, Joined(items, at, from, first, i), at, i, k);
      var o := SlotAt(src, srcEnd, first + i);
      ItemInside(src[..], srcBegin, srcEnd, from, first + i);
      var size := ItemSize(src, o, leaf, from[first + i]);
      ghost var before := data[..];
      PutItem(data, begin2, end2, at + i, src, o, size);
      FillOne(before, data[..], begin2, end2, offs, Joined(items, at, from, first, i), at, i, k, from[first + i]);
      OneMore(items, at, from, first, i);
      InsertedSize(offs, at + i, begin2);
      offs := Inserted(offs, at + i, begin2);
      begin2 := begin2 + size;
    }
    Filled(data[..], begin2, end2, offs, Joined(items, at, from, first, k), at, k);
    JoinedIs(items, at, from, first, last);
  }

  ghost function Joined(items: seq<seq<Byte>>, at: nat, from: seq<seq<Byte>>, first: nat, i: nat): seq<seq<Byte>>
    requires at <= |items| && first + i <= |from|
  {
    items[..at] + from[first..first + i] + items[at..]
  }

  lemma JoinedIs(items: seq<seq<Byte>>, at: nat, from: seq<seq<Byte>>, first: nat, last: nat)
    requires at <= |items| && first <= last <= |from|
    ensures Joined(items, at, from, first, last - first) == items[..at] + from[first..last] + items[at..]
  {
  }

  lemma FillingFacts(bytes: seq<Byte>, begin: nat, end: nat, offs: seq<nat>, items: seq<seq<Byte>>, at: nat, i: nat,
                     k: nat)
    requires Filling(bytes, begin, end, offs, items, at, i, k)
    ensures begin <= end && at + i <= |offs| == |items| && end + 2 * (|offs| - i + k) == |bytes| < 65536
  {
  }

  /** `i` of `k` new slots from `at` on are set, the slots after them belong behind all `k`. */
  ghost predicate Filling(bytes: seq<Byte>, begin: nat, end: nat, offs: seq<nat>, items: seq<seq<Byte>>, at: nat,
                          i: nat, k: nat) {
    && i <= k && at + i <= |offs| && end + 2 * (|offs| - i + k) == |bytes| < 65536 && begin <= end
    && Tiles(offs, Sizes(items), begin) && DataAt(bytes, offs, items)
    && (forall j | 0 <= j < at + i :: Off(bytes, end, j) == offs[j])
    && (forall j | at + i <= j < |offs| :: Off(bytes, end, j - i + k) == offs[j])
  }

  lemma InsertedSize(offs: seq<nat>, i: nat, x: nat)
    requires i <= |offs|
    ensures |Inserted(offs, i, x)| == |offs| + 1
  {
  }

  lemma Opened(was: seq<Byte>, begin: nat, end: nat, items: seq<seq<Byte>>, at: nat, from: seq<seq<Byte>>, first: nat,
               k: nat)
    requires Page(was, begin, end, items) && at <= |items| && begin + 2 * k <= end && first <= |from|
    ensures Filling(Copied(was, end, end + 2 * at, end - 2 * k), begin, end - 2 * k, Offs(was, end, |items|),
                    Joined(items, at, from, first, 0), at, 0, k)
    ensures Sum(Sizes(from[first..first + 0])) == 0
  {
    hide Tiles, Sum;
    var now := Copied(was, end, end + 2 * at, end - 2 * k);
    assert Joined(items, at, from, first, 0) == items;
    assert Sizes(from[first..first + 0]) == [];
    SumNone();
    OpenedData(was, now, begin, end, items);
    OpenedSlots(was, end, at, |items|, k);
  }

  lemma SumNone()
    ensures Sum([]) == 0
  {
  }

  lemma OpenedData(was: seq<Byte>, now: seq<Byte>, begin: nat, end: nat, items: seq<seq<Byte>>)
    requires Page(was, begin, end, items) && |now| == |was| && now[..begin] == was[..begin]
    ensures DataAt(now, Offs(was, end, |items|), items)
  {
    hide Tiles, Off;
    var offs := Offs(was, end, |items|);
    forall i | 0 <= i < |offs| ensures offs[i] + |items[i]| <= |now| && now[offs[i]..offs[i] + |items[i]|] == items[i] {
      Inside(offs, Sizes(items), begin, i);
      SameBelow(was, now, begin, offs[i], |items[i]|);
    }
  }

  lemma OpenedSlots(was: seq<Byte>, end: nat, at: nat, n: nat, k: nat)
    requires end + 2 * n == |was| && at <= n && 2 * k <= end
    ensures var now, end2 := Copied(was, end, end + 2 * at, end - 2 * k), end - 2 * k;
      && (forall j | 0 <= j < at :: Off(now, end2, j) == Off(was, end, j))
      && (forall j | at <= j < n :: Off(now, end2, j + k) == Off(was, end, j))
  {
    var now, end2 := Copied(was, end, end + 2 * at, end - 2 * k), end - 2 * k;
    forall j | at <= j < n ensures Off(now, end2, j + k) == Off(was, end, j) {
      assert now[end + 2 * j] == was[end + 2 * j] && now[end + 2 * j + 1] == was[end + 2 * j + 1];
    }
  }

  lemma FillOne(was: seq<Byte>, now: seq<Byte>, begin: nat, end: nat, offs: seq<nat>, items: seq<seq<Byte>>, at: nat,
                i: nat, k: nat,
                item: seq<Byte>)
    requires Filling(was, begin, end, offs, items, at, i, k) && i < k && |item| > 0 && begin + |item| <= end
    requires |now| == |was|
    requires now[..begin] == was[..begin] && now[begin..begin + |item|] == item && Off(now, end, at + i) == begin
    requires forall j | 0 <= j < |offs| - i + k && j != at + i :: Off(now, end, j) == Off(was, end, j)
    ensures Filling(now, begin + |item|, end, Inserted(offs, at + i, begin), Inserted(items, at + i, item),
                    at, i + 1, k)
  {
    hide Tiles, DataAt, Off, Sum;
    assert |offs| == |items| by {
      Lengths(was, offs, items);
    }
    assert Sizes(Inserted(items, at + i, item)) == Inserted(Sizes(items), at + i, |item|);
    TilesInsert(offs, Sizes(items), begin, at + i, |item|);
    InsertData(was, now, begin, offs, items, at + i, item);
    var offs2 := Inserted(offs, at + i, begin);
    forall j | at + i + 1 <= j < |offs2| ensures Off(now, end, j - (i + 1) + k) == offs2[j] {
      assert offs2[j] == offs[j - 1] == Off(was, end, j - 1 - i + k);
    }
  }

  lemma Lengths(bytes: seq<Byte>, offs: seq<nat>, items: seq<seq<Byte>>)
    requires DataAt(bytes, offs, items)
    ensures |offs| == |items|
  {
  }

  lemma Filled(bytes: seq<Byte>, begin: nat, end: nat, offs: seq<nat>, items: seq<seq<Byte>>, at: nat, k: nat)
    requires Filling(bytes, begin, end, offs, items, at, k, k)
    ensures Page(bytes, begin, end, items)
  {
    hide Tiles, Off;
    assert Offs(bytes, end, |items|) == offs by {
      forall j | 0 <= j < |offs| ensures Off(bytes, end, j) == offs[j] {
        if j >= at + k {
          assert Off(bytes, end, j - k + k) == offs[j];
        }
      }
    }
  }

  lemma SumGrows(from: seq<seq<Byte>>, first: nat, i: nat, last: nat)
    requires first + i < last <= |from|
    ensures Sum(Sizes(from[first..first + i + 1])) == Sum(Sizes(from[first..first + i])) + |from[first + i]|
    ensures Sum(Sizes(from[first..first + i + 1])) <= Sum(Sizes(from[first..last]))
  {
    var a, b := from[first..first + i + 1], from[first + i + 1..last];
    assert Sizes(a) == Sizes(from[first..first + i]) + [|from[first + i]|];
    SumAppend(Sizes(from[first..first + i]), [|from[first + i]|]);
    SumOne(|from[first + i]|);
    assert Sizes(from[first..last]) == Sizes(a) + Sizes(b);
    SumAppend(Sizes(a), Sizes(b));
  }

  lemma OneMore(items: seq<seq<Byte>>, at: nat, from: seq<seq<Byte>>, first: nat, i: nat)
    requires at <= |items| && first + i < |from|
    ensures |Joined(items, at, from, first, i)| >= at + i
    ensures Inserted(Joined(items, at, from, first, i), at + i, from[first + i])
            == Joined(items, at, from, first, i + 1)
  {
  }

  method PutItem(data: array<Byte>, begin: nat, end: nat, slot: nat, src: array<Byte>, o: nat, size: nat)
    requires data != src && begin + size <= end && end + 2 * slot + 1 < data.Length && begin < 65536
    requires o + size <= src.Length
    modifies data
    ensures data[..][..begin] == old(data[..])[..begin] && data[..][begin..begin + size] == src[..][o..o + size]
    ensures Off(data[..], end, slot) == begin
    ensures forall j: nat | end + 2 * j + 1 < data.Length && j != slot ::
            Off(data[..], end, j) == Off(old(data[..]), end, j)
  {
    forall j | 0 <= j < size {
      data[begin + j] := src[o + j];
    }
    SlotBytes(begin);
    data[end + 2 * slot], data[end + 2 * slot + 1] := begin % 256, begin / 256;
  }
}
