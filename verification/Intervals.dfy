/** Runs of pages, and the sequences of them that describe files and free space. */
module Intervals {
  import opened Basics

  /** The pages from `begin` up to, but not including, `end`. */
  datatype Interval = Interval(begin: nat, end: nat)

  type Run = iv: Interval | iv.begin < iv.end witness Interval(0, 1)

  function Length(iv: Interval): nat {
    if iv.begin <= iv.end then iv.end - iv.begin else 0
  }

  /** The pages of an interval, in order. */
  function Pages(iv: Interval): (r: seq<nat>)
    ensures |r| == Length(iv) && forall i | 0 <= i < |r| :: r[i] == iv.begin + i
  {
    seq(Length(iv), i requires 0 <= i < Length(iv) => iv.begin + i)
  }

  function PagesOf(ivs: seq<Run>): seq<nat> {
    if ivs == [] then [] else PagesOf(ivs[..|ivs| - 1]) + Pages(ivs[|ivs| - 1])
  }

  lemma {:induction false} PagesAppend(a: seq<Run>, b: seq<Run>)
    ensures PagesOf(a + b) == PagesOf(a) + PagesOf(b)
    decreases |b|
  {
    hide Pages;
    if b == [] {
      assert a + b == a;
    } else {
      var init, last := b[..|b| - 1], b[|b| - 1];
      PagesAppend(a, init);
      PagesLast(a + b);
      PagesLast(b);
      assert (a + b)[..|a + b| - 1] == a + init && (a + b)[|a + b| - 1] == last;
      hide PagesOf;
    }
  }

  lemma PagesNone()
    ensures PagesOf([]) == []
  {
  }

  lemma PagesLast(ivs: seq<Run>)
    requires ivs != []
    ensures PagesOf(ivs) == PagesOf(ivs[..|ivs| - 1]) + Pages(ivs[|ivs| - 1])
  {
  }

  lemma PagesOne(iv: Run)
    ensures PagesOf([iv]) == Pages(iv)
  {
    assert [iv][..0] == [];
  }

  lemma PagesFirst(ivs: seq<Run>)
    requires ivs != []
    ensures PagesOf(ivs) == Pages(ivs[0]) + PagesOf(ivs[1..]) && PagesOf(ivs) != []
  {
    assert ivs == [ivs[0]] + ivs[1..];
    PagesAppend([ivs[0]], ivs[1..]);
    PagesOne(ivs[0]);
  }

  /** At most `max` pages of the first interval, and what is left behind them. */
  function Front(ivs: seq<Run>, max: nat): Interval
    requires ivs != []
  {
    Interval(ivs[0].begin, ivs[0].begin + Least(max, Length(ivs[0])))
  }

  function Behind(ivs: seq<Run>, max: nat): seq<Run>
    requires ivs != []
  {
    if max < Length(ivs[0]) then [Interval(ivs[0].begin + max, ivs[0].end)] + ivs[1..] else ivs[1..]
  }

  lemma FrontPages(ivs: seq<Run>, max: nat)
    requires ivs != []
    ensures Pages(Front(ivs, max)) + PagesOf(Behind(ivs, max)) == PagesOf(ivs)
    ensures |PagesOf(Behind(ivs, max))| == |PagesOf(ivs)| - Length(Front(ivs, max))
    ensures Apart(ivs) ==> Apart(Behind(ivs, max))
  {
    hide PagesOf;
    var front := ivs[0];
    PagesFirst(ivs);
    if max < Length(front) {
      var rest: Run := Interval(front.begin + max, front.end);
      assert Pages(front) == Pages(Front(ivs, max)) + Pages(rest);
      assert ([rest] + ivs[1..])[1..] == ivs[1..];
      PagesFirst([rest] + ivs[1..]);
    } else {
      assert Front(ivs, max) == front;
    }
  }

  /** Intervals that continue each other become one. */
  function Coalesced(ivs: seq<Run>): (r: seq<Run>)
    ensures (ivs == [] <==> r == []) && (ivs != [] ==> r[0].begin == ivs[0].begin)
  {
    if |ivs| < 2 then ivs else
      var rest := Coalesced(ivs[1..]);
      if ivs[0].end == rest[0].begin then [Interval(ivs[0].begin, rest[0].end)] + rest[1..] else [ivs[0]] + rest
  }

  lemma CoalescedFew(ivs: seq<Run>)
    requires |ivs| < 2
    ensures Coalesced(ivs) == ivs
  {
  }

  lemma CoalescedFirst(ivs: seq<Run>)
    requires |ivs| >= 2
    ensures var rest := Coalesced(ivs[1..]);
      rest != [] && Coalesced(ivs)
         == if ivs[0].end == rest[0].begin then [Interval(ivs[0].begin, rest[0].end)] + rest[1..] else [ivs[0]] + rest
  {
  }

  /** The intervals from `i + 1` on are done; the one before joins them or not. */
  lemma CoalescedMore(ivs: seq<Run>, i: nat)
    requires i + 1 < |ivs|
    ensures var now := ivs[..i + 1] + Coalesced(ivs[i + 1..]);
      && i + 1 < |now| && now[i] == ivs[i]
      && ivs[..i] + Coalesced(ivs[i..])
         == if now[i].end == now[i + 1].begin then now[..i] + [Interval(now[i].begin, now[i + 1].end)] + now[i + 2..]
            else now
  {
    hide Coalesced;
    CoalescedFirst(ivs[i..]);
    assert ivs[i..][1..] == ivs[i + 1..] && ivs[i..][0] == ivs[i];
    BehindFirst(ivs, i, Coalesced(ivs[i + 1..]));
  }

  lemma BehindFirst(ivs: seq<Run>, i: nat, rest: seq<Run>)
    requires i + 1 < |ivs| && rest != []
    ensures var now := ivs[..i + 1] + rest;
      && now[i] == ivs[i] && now[i + 1] == rest[0] && now[i + 2..] == rest[1..] && now[..i] == ivs[..i]
      && now == ivs[..i] + ([ivs[i]] + rest)
  {
  }

  /** No interval continues the one before it. */
  ghost predicate Apart(ivs: seq<Run>) {
    forall i {:trigger ivs[i]} | 0 < i < |ivs| :: ivs[i - 1].end != ivs[i].begin
  }

  /** A new last interval; it is merged with one that ends where it begins. */
  function Push(ivs: seq<Run>, iv: Run): (r: seq<Run>)
    ensures r != []
  {
    if ivs != [] && ivs[|ivs| - 1].end == iv.begin
    then ivs[..|ivs| - 1] + [Interval(ivs[|ivs| - 1].begin, iv.end)]
    else ivs + [iv]
  }

  lemma {:induction false} PushPages(ivs: seq<Run>, iv: Run)
    ensures PagesOf(Push(ivs, iv)) == PagesOf(ivs) + Pages(iv)
    ensures Apart(ivs) ==> Apart(Push(ivs, iv))
    ensures |ivs| <= |Push(ivs, iv)| <= |ivs| + 1
  {
    hide Pages, PagesOf, Apart;
    PushApart(ivs, iv);
    if ivs != [] && ivs[|ivs| - 1].end == iv.begin {
      var init, last := ivs[..|ivs| - 1], ivs[|ivs| - 1];
      var both := Interval(last.begin, iv.end);
      assert ivs == init + [last];
      PagesAppend(init, [last]);
      PagesAppend(init, [both]);
      PagesOne(last);
      PagesOne(both);
      PagesJoin(last, iv);
    } else {
      PagesAppend(ivs, [iv]);
      PagesOne(iv);
    }
  }

  lemma PushApart(ivs: seq<Run>, iv: Run)
    ensures Apart(ivs) ==> Apart(Push(ivs, iv))
  {
    var now := Push(ivs, iv);
    if Apart(ivs) {
      forall i | 0 < i < |now| ensures now[i - 1].end != now[i].begin {
        assert i < |ivs| ==> ivs[i - 1].end != ivs[i].begin;
      }
    }
  }

  lemma PagesJoin(a: Run, b: Run)
    requires a.end == b.begin
    ensures Pages(Interval(a.begin, b.end)) == Pages(a) + Pages(b)
  {
  }

  function PushAll(ivs: seq<Run>, more: seq<Run>): seq<Run> {
    if more == [] then ivs else Push(PushAll(ivs, more[..|more| - 1]), more[|more| - 1])
  }

  lemma {:induction false} PushAllPages(ivs: seq<Run>, more: seq<Run>)
    ensures PagesOf(PushAll(ivs, more)) == PagesOf(ivs) + PagesOf(more)
    ensures Apart(ivs) ==> Apart(PushAll(ivs, more))
    decreases |more|
  {
    if more != [] {
      PushAllPages(ivs, more[..|more| - 1]);
      PushPages(PushAll(ivs, more[..|more| - 1]), more[|more| - 1]);
    }
  }

  /** Intervals without neighbours to merge come through unchanged. */
  lemma {:induction false} PushAllApart(more: seq<Run>)
    requires Apart(more)
    ensures PushAll([], more) == more
    decreases |more|
  {
    if more != [] {
      var init := more[..|more| - 1];
      assert forall i | 0 <= i < |init| :: init[i] == more[i];
      PushAllApart(init);
      if init != [] {
        assert init[|init| - 1] == more[|more| - 2] && more[|more| - 1 - 1].end != more[|more| - 1].begin;
      }
    }
  }

  // ------------------------------------------------------------------ sorting

  ghost predicate Ordered(ivs: seq<Run>) {
    forall i, j | 0 <= i < j < |ivs| :: ivs[i].begin <= ivs[j].begin
  }

  ghost predicate Away(a: Run, b: Run) {
    a.end <= b.begin || b.end <= a.begin
  }

  /** No page lies in two of them. */
  ghost predicate Disjoint(ivs: seq<Run>) {
    forall i, j | 0 <= i < j < |ivs| :: Away(ivs[i], ivs[j])
  }

  predicate Before(a: Interval, b: Interval) {
    if a.begin == b.begin then a.end < b.end else a.begin < b.begin
  }

  function Put(iv: Run, ivs: seq<Run>): seq<Run> {
    if ivs == [] || !Before(ivs[0], iv) then [iv] + ivs else [ivs[0]] + Put(iv, ivs[1..])
  }

  function Sorted(ivs: seq<Run>): seq<Run> {
    if ivs == [] then [] else Put(ivs[0], Sorted(ivs[1..]))
  }

  lemma FirstOrdered(iv: Run, rest: seq<Run>)
    requires Ordered(rest) && forall r | r in rest :: iv.begin <= r.begin
    ensures Ordered([iv] + rest)
  {
  }

  lemma FirstIsLeast(ivs: seq<Run>)
    requires Ordered(ivs) && ivs != []
    ensures Ordered(ivs[1..]) && forall r | r in ivs :: ivs[0].begin <= r.begin
  {
  }

  lemma {:induction false} PutOrdered(iv: Run, ivs: seq<Run>)
    requires Ordered(ivs)
    ensures Ordered(Put(iv, ivs)) && multiset(Put(iv, ivs)) == multiset(ivs) + multiset{iv}
  {
    hide Ordered;
    if ivs == [] {
      FirstOrdered(iv, ivs);
    } else {
      FirstIsLeast(ivs);
      if Before(ivs[0], iv) {
        var rest := Put(iv, ivs[1..]);
        PutOrdered(iv, ivs[1..]);
        assert ivs == [ivs[0]] + ivs[1..];
        forall r | r in rest ensures ivs[0].begin <= r.begin {
          assert r in multiset(rest);
        }
        FirstOrdered(ivs[0], rest);
      } else {
        FirstOrdered(iv, ivs);
      }
    }
  }

  lemma {:induction false} PutPages(iv: Run, ivs: seq<Run>)
    ensures multiset(PagesOf(Put(iv, ivs))) == multiset(PagesOf(ivs)) + multiset(Pages(iv))
  {
    hide Pages, PagesOf;
    PagesFirst(Put(iv, ivs));
    if ivs == [] || !Before(ivs[0], iv) {
      assert ([iv] + ivs)[1..] == ivs;
    } else {
      PutPages(iv, ivs[1..]);
      assert ([ivs[0]] + Put(iv, ivs[1..]))[1..] == Put(iv, ivs[1..]);
      PagesFirst(ivs);
    }
  }

  lemma {:induction false} SortedOrdered(ivs: seq<Run>)
    ensures Ordered(Sorted(ivs)) && multiset(Sorted(ivs)) == multiset(ivs)
  {
    if ivs != [] {
      SortedOrdered(ivs[1..]);
      PutOrdered(ivs[0], Sorted(ivs[1..]));
      assert ivs == [ivs[0]] + ivs[1..];
    }
  }

  lemma {:induction false} SortedPages(ivs: seq<Run>)
    ensures multiset(PagesOf(Sorted(ivs))) == multiset(PagesOf(ivs))
  {
    hide Pages, PagesOf, Put;
    if ivs != [] {
      SortedPages(ivs[1..]);
      PutPages(ivs[0], Sorted(ivs[1..]));
      PagesFirst(ivs);
    }
  }

  function Merged(ivs: seq<Run>, i: nat): (r: seq<Run>)
    requires i + 1 < |ivs| && ivs[i].begin < ivs[i + 1].end
    ensures |r| == |ivs| - 1
  {
    ivs[..i] + [Interval(ivs[i].begin, ivs[i + 1].end)] + ivs[i + 2..]
  }

  /** Two neighbours of which one continues the other become one interval. */
  lemma MergePages(ivs: seq<Run>, i: nat)
    requires i + 1 < |ivs| && ivs[i].end == ivs[i + 1].begin
    ensures PagesOf(Merged(ivs, i)) == PagesOf(ivs)
  {
    hide PagesOf;
    var a, x, y, b := ivs[..i], ivs[i], ivs[i + 1], ivs[i + 2..];
    var both: Run := Interval(x.begin, y.end);
    assert ivs == a + [x] + [y] + b;
    PagesAppend(a + [both], b);
    PagesAppend(a, [both]);
    PagesAppend(a + [x] + [y], b);
    PagesAppend(a + [x], [y]);
    PagesAppend(a, [x]);
    PagesOne(x);
    PagesOne(y);
    PagesOne(both);
    assert Pages(both) == Pages(x) + Pages(y);
  }

  /** Among sorted disjoint intervals it is enough to compare neighbours. */
  lemma NoneContinues(ivs: seq<Run>)
    requires Ordered(ivs) && Disjoint(ivs) && Apart(ivs)
    ensures forall i, j | 0 <= i < |ivs| && 0 <= j < |ivs| :: ivs[i].end != ivs[j].begin
  {
    forall i, j | 0 <= i < |ivs| && 0 <= j < |ivs| ensures ivs[i].end != ivs[j].begin {
      if i < j {
        NextContinues(ivs, i, j);
      } else if j < i {
        assert ivs[j].begin <= ivs[i].begin;
      }
    }
  }

  lemma NextContinues(ivs: seq<Run>, i: nat, j: nat)
    requires Ordered(ivs) && Disjoint(ivs) && Apart(ivs) && i < j < |ivs|
    ensures ivs[i].end != ivs[j].begin
  {
    var k := i + 1;
    assert ivs[k - 1].end != ivs[k].begin;
    assert Away(ivs[i], ivs[k]);
    if k < j {
      assert Away(ivs[k], ivs[j]);
    }
  }

  class IntervalSequence {
    var intervals: seq<Run>
    var totalLength: nat

    ghost predicate Valid()
      reads this
    {
      totalLength == |PagesOf(intervals)|
    }

    constructor ()
      ensures Valid() && intervals == []
    {
      intervals, totalLength := [], 0;
    }

    method PushBack(iv: Run)
      requires Valid()
      modifies this
      ensures Valid() && intervals == Push(old(intervals), iv)
    {
      hide PagesOf, Pages;
      PushPages(intervals, iv);
      PagesNone();
      totalLength := totalLength + Length(iv);
      if intervals == [] {
        assert intervals + [iv] == [iv];
        intervals := [iv];
        return;
      }
      var last := intervals[|intervals| - 1];
      if last.end == iv.begin {
        intervals := intervals[..|intervals| - 1] + [Interval(last.begin, iv.end)];
      } else {
        intervals := intervals + [iv];
      }
    }

    method PopFront() returns (iv: Run)
      requires Valid() && intervals != []
      modifies this
      ensures Valid() && iv == old(intervals)[0] && intervals == old(intervals)[1..]
    {
      PagesFirst(intervals);
      iv := intervals[0];
      intervals := intervals[1..];
      totalLength := totalLength - Length(iv);
    }

    /** At most `maxSize` pages of the first interval. */
    method PopPages(maxSize: nat) returns (iv: Interval)
      requires Valid() && intervals != []
      modifies this
      ensures Valid() && Pages(iv) + PagesOf(intervals) == PagesOf(old(intervals))
      ensures iv == Front(old(intervals), maxSize) && intervals == Behind(old(intervals), maxSize)
      ensures Apart(old(intervals)) ==> Apart(intervals)
    {
      hide PagesOf, Pages, Apart;
      FrontPages(intervals, maxSize);
      var front := intervals[0];
      var size := if maxSize < Length(front) then maxSize else Length(front);
      iv := Interval(front.begin, front.begin + size);
      if size < Length(front) {
        intervals := [Interval(front.begin + size, front.end)] + intervals[1..];
      } else {
        intervals := intervals[1..];
      }
      totalLength := totalLength - size;
    }

    method Clear()
      modifies this
      ensures Valid() && intervals == []
    {
      intervals, totalLength := [], 0;
    }

    /** The same pages in ascending intervals, none of which continues its neighbour. */
    method Sort()
      requires Valid()
      modifies this
      ensures Valid() && intervals == Coalesced(Sorted(old(intervals)))
      ensures PagesOf(intervals) == PagesOf(Sorted(old(intervals)))
      ensures multiset(PagesOf(intervals)) == multiset(PagesOf(old(intervals)))
      ensures Ordered(intervals) && Apart(intervals)
      ensures Disjoint(old(intervals)) ==> Disjoint(intervals)
    {
      hide PagesOf, Pages, Sorted, Ordered, Disjoint, ApartFrom, Coalesced;
      ghost var was, sorted := intervals, Sorted(intervals);
      SortedOrdered(intervals);
      SortedPages(intervals);
      SortedDisjoint(intervals);
      SameSize(PagesOf(intervals), PagesOf(Sorted(intervals)));
      intervals := Sorted(intervals);
      if |intervals| < 2 {
        CoalescedFew(sorted);
        return;
      }
      ghost var pages := PagesOf(intervals);
      var i2: int := |intervals| - 1;
      var i := i2 - 1;
      NothingBehind(intervals);
      CoalescedFew(sorted[i2..]);
      while i2 != 0
        invariant 0 <= i2 < |intervals| && i2 < |sorted|
        invariant intervals == sorted[..i2] + Coalesced(sorted[i2..])
        invariant i == i2 - 1 && 0 <= i2 < |intervals| && PagesOf(intervals) == pages && totalLength == old(totalLength)
        invariant Ordered(intervals) && (Disjoint(was) ==> Disjoint(intervals)) && ApartFrom(intervals, i2)
        decreases i2
      {
        ApartSteps(intervals, i);
        CoalescedMore(sorted, i);
        if intervals[i].end == intervals[i2].begin {
          MergePages(intervals, i);
          MergeKeeps(intervals, i);
          intervals := intervals[..i] + [Interval(intervals[i].begin, intervals[i2].end)] + intervals[i2 + 1..];
        }
        i2 := i;
        i := i - 1;
      }
      AllApart(intervals);
      assert sorted[0..] == sorted && sorted[..0] == [];
    }

    /** Everything goes to the end of another sequence. */
    method MoveTo(to: IntervalSequence)
      requires Valid() && to.Valid() && to != this
      modifies this, to
      ensures Valid() && intervals == [] && to.Valid() && to.intervals == PushAll(old(to.intervals), old(intervals))
    {
      ghost var was, more := to.intervals, intervals;
      for i := 0 to |intervals|
        invariant to.Valid() && intervals == more && to.intervals == PushAll(was, more[..i])
      {
        assert more[..i + 1][..i] == more[..i] && more[..i + 1][i] == more[i];
        to.PushBack(intervals[i]);
      }
      assert more[..|more|] == more;
      Clear();
    }
  }

  lemma SameSize(a: seq<nat>, b: seq<nat>)
    requires multiset(a) == multiset(b)
    ensures |a| == |b|
  {
    assert |multiset(a)| == |multiset(b)|;
  }

  lemma NothingBehind(ivs: seq<Run>)
    requires ivs != []
    ensures ApartFrom(ivs, |ivs| - 1)
  {
  }

  lemma AllApart(ivs: seq<Run>)
    requires ApartFrom(ivs, 0)
    ensures Apart(ivs)
  {
  }

  lemma MergeOrdered(ivs: seq<Run>, i: nat)
    requires i + 1 < |ivs| && ivs[i].end == ivs[i + 1].begin && Ordered(ivs)
    ensures Ordered(Merged(ivs, i))
  {
    var now := Merged(ivs, i);
    assert forall k | 0 <= k < |now| :: now[k].begin == ivs[if k <= i then k else k + 1].begin;
  }

  lemma MergeKeeps(ivs: seq<Run>, i: nat)
    requires i + 1 < |ivs| && ivs[i].end == ivs[i + 1].begin && Ordered(ivs)
    ensures Ordered(Merged(ivs, i)) && (Disjoint(ivs) ==> Disjoint(Merged(ivs, i)))
  {
    var now := Merged(ivs, i);
    MergeOrdered(ivs, i);
    if Disjoint(ivs) {
      forall a, b | 0 <= a < b < |now| ensures Away(now[a], now[b]) {
        MergeDisjoint(ivs, i, a, b);
      }
    }
  }

  /** Behind position `k` no interval continues the one before it. */
  ghost predicate ApartFrom(ivs: seq<Run>, k: nat) {
    forall i {:trigger ivs[i]} | k < i < |ivs| :: ivs[i - 1].end != ivs[i].begin
  }

  lemma ApartSteps(ivs: seq<Run>, i: nat)
    requires i + 1 < |ivs| && ApartFrom(ivs, i + 1)
    ensures if ivs[i].end == ivs[i + 1].begin then ApartFrom(Merged(ivs, i), i) else ApartFrom(ivs, i)
  {
    if ivs[i].end == ivs[i + 1].begin {
      var now := Merged(ivs, i);
      forall k {:trigger now[k]} | i < k < |now| ensures now[k - 1].end != now[k].begin {
        assert now[k] == ivs[k + 1] && now[k - 1].end == ivs[k].end;
      }
    }
  }

  lemma MergeDisjoint(ivs: seq<Run>, i: nat, a: nat, b: nat)
    requires i + 1 < |ivs| && ivs[i].end == ivs[i + 1].begin && Ordered(ivs) && Disjoint(ivs) && a < b < |ivs| - 1
    ensures ivs[if a < i then a else a + 1].end <= ivs[if b <= i then b else b + 1].begin
         || ivs[if b < i then b else b + 1].end <= ivs[if a <= i then a else a + 1].begin
  {
    var x, y := if a < i then a else a + 1, if b <= i then b else b + 1;
    if x < y {
      assert Away(ivs[x], ivs[y]);
    }
  }

  lemma {:induction false} SortedDisjoint(ivs: seq<Run>)
    ensures Disjoint(ivs) ==> Disjoint(Sorted(ivs))
  {
    if Disjoint(ivs) {
      SortedOrdered(ivs);
      PermutedDisjoint(ivs, Sorted(ivs));
    }
  }

  /** Disjointness does not depend on the order. */
  lemma PermutedDisjoint(a: seq<Run>, b: seq<Run>)
    requires Disjoint(a) && multiset(a) == multiset(b)
    ensures Disjoint(b)
  {
    forall i, j | 0 <= i < j < |b| ensures Away(b[i], b[j]) {
      assert b[i] in multiset(b) && b[j] in multiset(b);
      var k :| 0 <= k < |a| && a[k] == b[i];
      var l :| 0 <= l < |a| && a[l] == b[j];
      if k == l {
        assert multiset(b)[b[i]] >= 2 by {
          Twice(b, i, j);
        }
        OnceIn(a, k);
      }
    }
  }

  lemma Twice<T>(s: seq<T>, i: nat, j: nat)
    requires i < j < |s| && s[i] == s[j]
    ensures multiset(s)[s[i]] >= 2
  {
    assert s == s[..j] + s[j..];
    assert s[..j][i] in multiset(s[..j]) && s[j..][0] in multiset(s[j..]);
  }

  lemma OnceIn(a: seq<Run>, k: nat)
    requires Disjoint(a) && k < |a|
    ensures multiset(a)[a[k]] == 1
  {
    var x, y := a[..k], a[k + 1..];
    assert a == x + [a[k]] + y;
    forall i | 0 <= i < |x| ensures x[i] != a[k] {
      assert x[i] == a[i];
    }
    forall i | 0 <= i < |y| ensures y[i] != a[k] {
      assert y[i] == a[k + 1 + i];
    }
    assert a[k] !in multiset(x) && a[k] !in multiset(y);
  }
}
