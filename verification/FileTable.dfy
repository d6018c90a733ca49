/** File table pages: a bounded page that lists intervals, and chains of such pages. */
module FileTables {
  import opened Intervals

  const DATA: nat := 4084

  /** The interval sequence as it is packed into a page. An interval of several pages takes two page indices,
      and its position among the indices is marked; a single page takes one index. */
  datatype Packed = Packed(ids: seq<nat>, marks: seq<nat>)

  function SpaceFor(iv: Run): nat {
    if Length(iv) > 1 then 10 else 4
  }

  function Used(p: Packed): nat {
    4 * |p.ids| + 2 * |p.marks|
  }

  function Add(p: Packed, iv: Run): Packed {
    if Length(iv) > 1 then Packed(p.ids + [iv.begin, iv.end], p.marks + [|p.ids|])
    else Packed(p.ids + [iv.begin], p.marks)
  }

  function PackAll(ivs: seq<Run>): Packed {
    if ivs == [] then Packed([], []) else Add(PackAll(ivs[..|ivs| - 1]), ivs[|ivs| - 1])
  }

  /** How many of the intervals find room after the first `n`. */
  function Room(ivs: seq<Run>, n: nat): (r: nat)
    requires n <= |ivs|
    ensures n <= r <= |ivs|
    decreases |ivs| - n
  {
    if n == |ivs| || Used(PackAll(ivs[..n])) + SpaceFor(ivs[n]) > DATA then n else Room(ivs, n + 1)
  }

  /** Reads the intervals from index `i` and mark `j` on. */
  function Unpack(p: Packed, i: nat, j: nat): seq<Interval>
    decreases |p.ids| - i
  {
    if i >= |p.ids| then []
    else if j < |p.marks| && p.marks[j] == i && i + 1 < |p.ids|
    then [Interval(p.ids[i], p.ids[i + 1])] + Unpack(p, i + 2, j + 1)
    else [Interval(p.ids[i], p.ids[i] + 1)] + Unpack(p, i + 1, j)
  }

  lemma {:induction false} UsedIs(ivs: seq<Run>)
    ensures Used(PackAll(ivs)) <= 10 * |ivs|
    ensures |PackAll(ivs).ids| <= 2 * |ivs| && |PackAll(ivs).marks| <= |ivs|
  {
    if ivs != [] {
      UsedIs(ivs[..|ivs| - 1]);
    }
  }

  /** What was packed first is read first. */
  lemma {:induction false} UnpackMore(ivs: seq<Run>, k: nat, n: nat)
    requires k <= n <= |ivs|
    ensures PackAll(ivs[..k]).ids <= PackAll(ivs[..n]).ids && PackAll(ivs[..k]).marks <= PackAll(ivs[..n]).marks
    decreases n - k
  {
    if k < n {
      UnpackMore(ivs, k, n - 1);
      assert ivs[..n][..n - 1] == ivs[..n - 1];
    }
  }

  /** A mark behind a position points behind it. */
  lemma {:induction false} MarksBehind(ivs: seq<Run>, k: nat, n: nat, j: nat)
    requires k <= n <= |ivs| && |PackAll(ivs[..k]).marks| <= j < |PackAll(ivs[..n]).marks|
    ensures PackAll(ivs[..n]).marks[j] >= |PackAll(ivs[..k]).ids|
    decreases n - k
  {
    UnpackMore(ivs, k, n);
    if k < n {
      assert ivs[..n][..n - 1] == ivs[..n - 1];
      UnpackMore(ivs, k, n - 1);
      if j < |PackAll(ivs[..n - 1]).marks| {
        MarksBehind(ivs, k, n - 1, j);
      }
    }
  }

  /** What a reader finds where interval number `k` was packed. */
  lemma PackedAt(ivs: seq<Run>, k: nat)
    requires k < |ivs|
    ensures var p, q, q2, iv := PackAll(ivs), PackAll(ivs[..k]), PackAll(ivs[..k + 1]), ivs[k];
      var i, j := |q.ids|, |q.marks|;
      if Length(iv) > 1
      then (
        && i + 1 < |p.ids| && j < |p.marks| && p.marks[j] == i && p.ids[i] == iv.begin && p.ids[i + 1] == iv.end
        && |q2.ids| == i + 2 && |q2.marks| == j + 1
      ) else (
        && i < |p.ids| && p.ids[i] == iv.begin && iv == Interval(iv.begin, iv.begin + 1)
        && (j < |p.marks| ==> p.marks[j] != i) && |q2.ids| == i + 1 && |q2.marks| == j
      )
  {
    var p, n := PackAll(ivs), |ivs|;
    assert ivs[..n] == ivs && ivs[..k + 1][..k] == ivs[..k];
    var q, q2, iv := PackAll(ivs[..k]), PackAll(ivs[..k + 1]), ivs[k];
    assert q2 == Add(q, iv);
    UnpackMore(ivs, k + 1, n);
    var i, j := |q.ids|, |q.marks|;
    if Length(iv) > 1 {
      assert q2.ids[i] == iv.begin && q2.ids[i + 1] == iv.end && q2.marks[j] == i;
    } else {
      assert q2.ids[i] == iv.begin;
      if j < |p.marks| {
        MarksBehind(ivs, k + 1, n, j);
      }
    }
  }

  /** Reading a packed page gives the intervals back. */
  lemma {:induction false} UnpackFrom(ivs: seq<Run>, k: nat)
    requires k <= |ivs|
    ensures Unpack(PackAll(ivs), |PackAll(ivs[..k]).ids|, |PackAll(ivs[..k]).marks|) == ivs[k..]
    decreases |ivs| - k
  {
    hide PackAll;
    if k < |ivs| {
      PackedAt(ivs, k);
      UnpackFrom(ivs, k + 1);
      assert ivs[k..] == [ivs[k]] + ivs[k + 1..];
    } else {
      assert ivs[..k] == ivs;
    }
  }

  lemma RoundTrip(ivs: seq<Run>)
    ensures Unpack(PackAll(ivs), 0, 0) == ivs
  {
    UnpackFrom(ivs, 0);
    assert ivs[..0] == [] && ivs[0..] == ivs;
  }

  /** An empty page takes at least one interval. */
  lemma RoomForOne(ivs: seq<Run>)
    requires ivs != []
    ensures Room(ivs, 0) > 0
  {
    assert ivs[..0] == [];
  }

  lemma {:induction false} RoomFits(ivs: seq<Run>, n: nat)
    requires n <= |ivs| && Used(PackAll(ivs[..n])) <= DATA
    ensures Used(PackAll(ivs[..Room(ivs, n)])) <= DATA
    ensures Room(ivs, n) < |ivs| ==> Used(PackAll(ivs[..Room(ivs, n)])) + SpaceFor(ivs[Room(ivs, n)]) > DATA
    decreases |ivs| - n
  {
    if n < |ivs| && Used(PackAll(ivs[..n])) + SpaceFor(ivs[n]) <= DATA {
      assert ivs[..n + 1][..n] == ivs[..n];
      RoomFits(ivs, n + 1);
    }
  }
}
