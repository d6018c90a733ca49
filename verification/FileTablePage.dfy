/** The bytes of a file table page. */
module FileTablePages {
  import opened Basics
  import opened ByteStrings
  import opened Words
  import opened Intervals
  import opened FileTables

  ghost predicate IdAt(bytes: seq<Byte>, i: nat, id: nat) {
    4 * i + 4 <= |bytes| && id < 0x1_0000_0000 && bytes[4 * i..4 * i + 4] == IdBytes(id)
  }

  /** Marks are counted from the end. */
  ghost predicate MarkAt(bytes: seq<Byte>, j: nat, mark: nat) {
    2 * j + 2 <= |bytes| && bytes[|bytes| - 2 * j - 2] as int + 256 * bytes[|bytes| - 2 * j - 1] as int == mark
  }

  ghost predicate Holds(bytes: seq<Byte>, p: Packed) {
    && Used(p) <= |bytes|
    && (forall i | 0 <= i < |p.ids| :: IdAt(bytes, i, p.ids[i]))
    && (forall j | 0 <= j < |p.marks| :: MarkAt(bytes, j, p.marks[j]))
  }

  ghost predicate Indices(ivs: seq<Run>) {
    forall i | 0 <= i < |ivs| :: ivs[i].end < 0x1_0000_0000
  }

  class FileTable {
    const data: array<Byte>
    var begin: nat
    var end: nat
    var next: nat
    ghost var intervals: seq<Run>

    ghost predicate Valid()
      reads this, data
    {
      && data.Length == DATA && Holds(data[..], PackAll(intervals))
      && begin == 4 * |PackAll(intervals).ids| && end == DATA - 2 * |PackAll(intervals).marks|
    }

    constructor ()
      ensures Valid() && fresh(data) && intervals == [] && next == INVALID
    {
      data := new Byte[DATA](i => 0);
      begin, end, next, intervals := 0, DATA, INVALID, [];
    }

    /** Writes a page index behind those that are there. */
    method PutId(id: PageIndex)
      requires data.Length == DATA && begin + 4 <= DATA
      modifies this`begin, data
      ensures begin == old(begin) + 4 && data[..][old(begin)..begin] == IdBytes(id)
      ensures data[..][..old(begin)] == old(data[..])[..old(begin)] && data[..][begin..] == old(data[..])[begin..]
    {
      data[begin], data[begin + 1], data[begin + 2], data[begin + 3]
        := id % 256, id / 256 % 256, id / 256 / 256 % 256, id / 256 / 256 / 256;
      begin := begin + 4;
    }

    /** Writes a mark in front of those that are there. */
    method PutMark(mark: nat)
      requires data.Length == DATA && 2 <= end <= DATA && mark < 65536
      modifies this`end, data
      ensures end == old(end) - 2 && data[end] as int + 256 * data[end + 1] as int == mark
      ensures data[..][..end] == old(data[..])[..end] && data[..][old(end)..] == old(data[..])[old(end)..]
    {
      end := end - 2;
      data[end], data[end + 1] := mark % 256, mark / 256;
    }

    method PutInterval(iv: Run)
      requires Valid() && Used(PackAll(intervals)) + SpaceFor(iv) <= DATA && iv.end < 0x1_0000_0000
      modifies this`begin, this`end, this`intervals, data
      ensures Valid() && intervals == old(intervals) + [iv]
    {
      hide Holds, PackAll, IdAt, MarkAt, IdBytes;
      ghost var was, p := data[..], PackAll(intervals);
      ghost var b, e := begin, end;
      if Length(iv) > 1 {
        PutMark(begin / 4);
        ghost var marked := data[..];
        MarkIs(marked, |p.marks|, |p.ids|);
        PutId(iv.begin);
        ghost var half := data[..];
        IdIs(half, |p.ids|, iv.begin);
        PutId(iv.end);
        IdIs(data[..], |p.ids| + 1, iv.end);
        Kept(was, marked, half, data[..], b, e, |p.ids|, iv.begin, |p.marks|);
      } else {
        PutId(iv.begin);
        IdIs(data[..], |p.ids|, iv.begin);
        Tail(was, data[..], begin, e);
      }
      HoldsMore(was, data[..], p, iv);
      AddIs(intervals, iv);
      intervals := intervals + [iv];
    }

    /** Takes as many intervals as find room, in order. */
    method TransferFrom(from: IntervalSequence)
      requires from.Valid() && data.Length == DATA && Indices(from.intervals)
      modifies this`begin, this`end, this`intervals, data, from
      ensures Valid() && from.Valid()
      ensures intervals == old(from.intervals)[..Room(old(from.intervals), 0)]
      ensures from.intervals == old(from.intervals)[Room(old(from.intervals), 0)..]
    {
      hide Holds, PackAll, Room;
      ghost var all, k := from.intervals, 0;
      begin, end, intervals := 0, DATA, [];
      Nothing(data[..], all);
      while from.intervals != []
        invariant from.Valid() && k <= |all| && intervals == all[..k] && from.intervals == all[k..]
        invariant Valid() && Room(all, k) == Room(all, 0)
        decreases |all| - k
      {
        var iv := from.intervals[0];
        RoomIs(all, k);
        if end - begin < (if Length(iv) > 1 then 10 else 4) {
          return;
        }
        PutInterval(iv);
        var _ := from.PopFront();
        k := k + 1;
      }
      RoomIs(all, k);
    }

    /** Appends the intervals of this page to a sequence. */
    method InsertInto(to: IntervalSequence)
      requires Valid() && to.Valid()
      modifies to
      ensures to.Valid() && to.intervals == PushAll(old(to.intervals), intervals)
    {
      hide Holds, PackAll, PushAll, IdAt, Push, Unpack, IdBytes, IdOf, PagesOf, Pages;
      ghost var p, was, k := PackAll(intervals), to.intervals, 0;
      Ends(was, intervals);
      var i, j := 0, 0;
      while i < begin / 4
        invariant k <= |intervals| && i == |PackAll(intervals[..k]).ids| && j == |PackAll(intervals[..k]).marks|
        invariant to.Valid() && to.intervals == PushAll(was, intervals[..k])
        decreases |intervals| - k
      {
        NotPast(intervals, k);
        PackedAt(intervals, k);
        PushNext(was, intervals, k);
        HoldsAt(data[..], p, i, j);
        var first := ReadId(i, p.ids[i]);
        var marked := j < (DATA - end) / 2 && IsMark(j, i);
        if marked {
          var last := ReadId(i + 1, p.ids[i + 1]);
          to.PushBack(Interval(first, last));
          i, j := i + 2, j + 1;
        } else {
          to.PushBack(Interval(first, first as int + 1));
          i := i + 1;
        }
        k := k + 1;
      }
      AllRead(intervals, k);
    }

    method ReadId(i: nat, ghost id: nat) returns (r: PageIndex)
      requires IdAt(data[..], i, id)
      ensures r == id
    {
      IdRoundTrip(id);
      r := IdOf(data[4 * i..4 * i + 4]);
    }

    /** The next mark, counted from the end, is this index. */
    predicate IsMark(j: nat, i: nat)
      requires 2 * j + 2 <= data.Length
      reads data
    {
      data[data.Length - 2 * j - 2] as int + 256 * data[data.Length - 2 * j - 1] as int == i
    }
  }

  lemma Nothing(bytes: seq<Byte>, all: seq<Run>)
    ensures Holds(bytes, PackAll([])) && PackAll([]) == Packed([], []) && all[..0] == []
  {
  }

  lemma RoomIs(all: seq<Run>, k: nat)
    requires k <= |all|
    ensures k == |all| || Used(PackAll(all[..k])) + SpaceFor(all[k]) > DATA ==> Room(all, k) == k
    ensures k < |all| && Used(PackAll(all[..k])) + SpaceFor(all[k]) <= DATA ==> Room(all, k) == Room(all, k + 1)
  {
  }

  lemma AddIs(ivs: seq<Run>, iv: Run)
    ensures PackAll(ivs + [iv]) == Add(PackAll(ivs), iv)
  {
    assert (ivs + [iv])[..|ivs|] == ivs;
  }

  lemma IdIs(bytes: seq<Byte>, i: nat, id: PageIndex)
    requires 4 * i + 4 <= |bytes| && bytes[4 * i..4 * i + 4] == IdBytes(id)
    ensures IdAt(bytes, i, id)
  {
  }

  lemma MarkIs(bytes: seq<Byte>, j: nat, mark: nat)
    requires 2 * j + 2 <= |bytes| && bytes[|bytes| - 2 * j - 2] as int + 256 * bytes[|bytes| - 2 * j - 1] as int == mark
    ensures MarkAt(bytes, j, mark)
  {
  }

  lemma Tail(was: seq<Byte>, now: seq<Byte>, b: nat, e: nat)
    requires b <= e <= |was| == |now| && now[b..] == was[b..]
    ensures now[e..] == was[e..]
  {
    assert now[b..][e - b..] == now[e..] && was[b..][e - b..] == was[e..];
  }

  /** Writing the mark and two indices leaves the rest as it was. */
  lemma Kept(was: seq<Byte>, marked: seq<Byte>, half: seq<Byte>, now: seq<Byte>, b: nat, e: nat, i: nat, id: nat,
             j: nat)
    requires b + 8 <= e - 2 && e <= |was| == |marked| == |half| == |now| && b == 4 * i && e == |was| - 2 * j
    requires marked[..e - 2] == was[..e - 2] && marked[e..] == was[e..] && MarkAt(marked, j, i)
    requires half[..b] == marked[..b] && half[b + 4..] == marked[b + 4..] && IdAt(half, i, id)
    requires now[..b + 4] == half[..b + 4] && now[b + 8..] == half[b + 8..]
    ensures now[..b] == was[..b] && now[e..] == was[e..] && IdAt(now, i, id) && MarkAt(now, j, i)
  {
    hide IdBytes;
    assert now[..b] == now[..b + 4][..b] == half[..b] && was[..b] == was[..e - 2][..b] == marked[..b];
    Tail(half, now, b + 8, e - 2);
    Tail(marked, half, b + 4, e - 2);
    Tail(half, now, b + 8, e);
    Tail(marked, half, b + 4, e);
    assert now[4 * i..4 * i + 4] == now[..b + 4][b..];
    assert half[4 * i..4 * i + 4] == half[..b + 4][b..];
    assert now[e - 2] == now[e - 2..][0] == marked[e - 2] && now[e - 1] == now[e - 2..][1] == marked[e - 1];
  }

  lemma Ends(was: seq<Run>, ivs: seq<Run>)
    ensures PackAll([]) == Packed([], []) && ivs[..0] == [] && PushAll(was, []) == was
  {
  }

  lemma NotPast(ivs: seq<Run>, k: nat)
    requires k <= |ivs| && |PackAll(ivs[..k]).ids| < |PackAll(ivs).ids|
    ensures k < |ivs|
  {
    assert ivs[..|ivs|] == ivs;
  }

  lemma AllRead(ivs: seq<Run>, k: nat)
    requires k <= |ivs| && |PackAll(ivs[..k]).ids| >= |PackAll(ivs).ids|
    ensures ivs[..k] == ivs
  {
    if k < |ivs| {
      PackedAt(ivs, k);
    }
  }

  lemma PushNext(was: seq<Run>, ivs: seq<Run>, k: nat)
    requires k < |ivs|
    ensures PushAll(was, ivs[..k + 1]) == Push(PushAll(was, ivs[..k]), ivs[k])
  {
    assert ivs[..k + 1][..k] == ivs[..k];
  }

  lemma HoldsAt(bytes: seq<Byte>, p: Packed, i: nat, j: nat)
    requires Holds(bytes, p) && i < |p.ids|
    ensures IdAt(bytes, i, p.ids[i]) && (i + 1 < |p.ids| ==> IdAt(bytes, i + 1, p.ids[i + 1]))
    ensures j < |p.marks| ==> MarkAt(bytes, j, p.marks[j])
  {
  }

  /** The bytes after one more interval was packed. */
  lemma HoldsMore(was: seq<Byte>, now: seq<Byte>, p: Packed, iv: Run)
    requires Holds(was, p) && |now| == |was| == DATA && Used(p) + SpaceFor(iv) <= DATA && iv.end < 0x1_0000_0000
    requires var b, e := 4 * |p.ids|, DATA - 2 * |p.marks|;
      && now[..b] == was[..b] && now[e..] == was[e..] && IdAt(now, |p.ids|, iv.begin)
      && (Length(iv) > 1 ==> IdAt(now, |p.ids| + 1, iv.end) && MarkAt(now, |p.marks|, |p.ids|))
    ensures Holds(now, Add(p, iv))
  {
    var q, b, e := Add(p, iv), 4 * |p.ids|, DATA - 2 * |p.marks|;
    forall i | 0 <= i < |p.ids| ensures IdAt(now, i, p.ids[i]) {
      assert now[4 * i..4 * i + 4] == now[..b][4 * i..4 * i + 4] && was[4 * i..4 * i + 4] == was[..b][4 * i..4 * i + 4];
    }
    forall j | 0 <= j < |p.marks| ensures MarkAt(now, j, p.marks[j]) {
      var o := DATA - 2 * j - 2;
      assert now[o] == now[e..][o - e] == was[o] && now[o + 1] == now[e..][o + 1 - e] == was[o + 1];
    }
  }
}
