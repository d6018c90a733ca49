/** Publishing a write operation. Each method is proved to do exactly the file operations the commit
    protocol lists, so what is proved about those holds of the running code. */
module CommitHandling {
  import opened Basics
  import opened Disk
  import opened Recovery
  import opened CacheManagement
  import opened CommitProtocol

  class CommitHandler {
    const cm: CacheManager

    constructor (cm: CacheManager)
      ensures this.cm == cm
    {
      this.cm := cm;
    }

    /** The dirty pages: those diverted and those in memory. No page is listed twice, for a diverted
        page is never in memory under its own id. */
    method GetDirtyPageIds() returns (ids: seq<nat>)
      requires cm.Valid()
      ensures DirtyList(cm.Now(), ids)
    {
      ids := [];
      var rest := cm.diverted.Keys;
      while rest != {}
        invariant NoDup(ids) && rest <= cm.diverted.Keys
        invariant forall id :: id in ids <==> id in cm.diverted && id !in rest
        decreases rest
      {
        var id :| id in rest;
        rest := rest - {id};
        ids := ids + [id];
      }
      rest := set id | id in cm.cache && cm.cache[id].cls == Dirty;
      while rest != {}
        invariant NoDup(ids) && forall id | id in rest :: id in cm.cache && cm.cache[id].cls == Dirty
        invariant forall id :: id in ids <==> IsDirty(cm.Now(), id) && id !in rest
        decreases rest
      {
        var id :| id in rest;
        rest := rest - {id};
        ids := ids + [id];
      }
    }

    /** Copies the old contents of the dirty pages behind the end of the file. */
    method CopyDirtyPages(dirty: seq<nat>, ghost s: Snapshot) returns (pairs: seq<Copy>)
      requires cm.Valid() && s == cm.Now() && DirtyList(s, dirty)
      modifies cm.file
      ensures cm.file.Valid() && pairs == Pairs(dirty, |s.d.pages|)
      ensures Ran(s.d, old(cm.file.ops), [Grow(|dirty|)] + CopyOps(s.d.pages, dirty, |s.d.pages|), cm.file.disk,
                  cm.file.ops)
      ensures cm.file.pages == s.d.pages + CopyPages(s.d.pages, dirty)
    {
      hide Ran, Snapshot.Valid, DirtyList, Sound, LegalAll, ApplyAll;
      var file := cm.file;
      ghost var before, n := file.ops, |s.d.pages|;
      ghost var done := [];
      assert Sound(s.d) by { ValidSound(s); }
      RanNothing(s.d, before);
      RanNext(s.d, before, done, file.disk, file.ops, Grow(|dirty|));
      var first := file.NewInterval(|dirty|);
      done := done + [Grow(|dirty|)];
      pairs := [];
      for i := 0 to |dirty|
        invariant file.Valid() && Sound(file.disk) && |file.pages| == n + |dirty|
        invariant Ran(s.d, before, done, file.disk, file.ops)
        invariant done == [Grow(|dirty|)] + CopyOps(s.d.pages, dirty, n)[..i]
        invariant forall p | 0 <= p < n :: file.pages[p] == s.d.pages[p]
        invariant forall j | 0 <= j < i :: file.pages[n + j] == CopyPages(s.d.pages, dirty)[j]
        invariant pairs == Pairs(dirty, n)[..i]
      {
        DirtyIn(s, dirty, i);
        var page := file.pages[dirty[i]];
        assert page == s.d.pages[dirty[i]] == CopyPages(s.d.pages, dirty)[i];
        assert CopyOps(s.d.pages, dirty, n)[i] == Write(n + i, page);
        RanNext(s.d, before, done, file.disk, file.ops, Write(first + i, page));
        ApplyValid(file.disk, Write(first + i, page));
        file.WritePage(first + i, page);
        done := done + [Write(first + i, page)];
        pairs := pairs + [Copy(dirty[i], first + i)];
      }
      assert CopyOps(s.d.pages, dirty, n)[..|dirty|] == CopyOps(s.d.pages, dirty, n);
    }

    /** Fills as many log pages as it takes, each at the end of the file. */
    method WriteLogs(pairs: seq<Copy>, ghost d: State, ghost done: seq<Op>, ghost before: seq<Op>)
      requires cm.file.Valid() && Ran(d, before, done, cm.file.disk, cm.file.ops)
      modifies cm.file
      ensures cm.file.Valid() && Ran(d, before, done + LogOps(pairs, old(|cm.file.pages|)), cm.file.disk, cm.file.ops)
      ensures cm.file.pages == old(cm.file.pages) + LogPages(pairs, old(|cm.file.pages|))
    {
      var file := cm.file;
      var rest := pairs;
      ghost var sofar := done;
      hide Ran, Sound, LogOps, LogPages;
      while rest != []
        invariant file.Valid() && Sound(file.disk) && Ran(d, before, sofar, file.disk, file.ops)
        invariant done + LogOps(pairs, old(|file.pages|)) == sofar + LogOps(rest, |file.pages|)
        invariant old(file.pages) + LogPages(pairs, old(|file.pages|)) == file.pages + LogPages(rest, |file.pages|)
        decreases |rest|
      {
        var count := if MAX_ENTRIES < |rest| then MAX_ENTRIES else |rest|;
        ghost var pages, sofar0 := file.pages, sofar;
        RanNext(d, before, sofar, file.disk, file.ops, Grow(1));
        ApplyValid(file.disk, Grow(1));
        var id := file.NewInterval(1);
        sofar := sofar + [Grow(1)];
        var log := Log(id, rest[..count]);
        RanNext(d, before, sofar, file.disk, file.ops, Write(id, log));
        ApplyValid(file.disk, Write(id, log));
        file.WritePage(id, log);
        sofar := sofar + [Write(id, log)];
        assert file.pages == pages + [log];
        NextLog(rest, id, sofar0, pages);
        rest := rest[count..];
      }
      NoLog(|file.pages|);
      assert sofar + [] == sofar && file.pages + [] == file.pages;
    }

    /** Brings one page up to date. What is in memory is forgotten with that. */
    method ShowPage(dirty: nat, ghost s: Snapshot)
      requires cm.file.Valid() && cm.diverted == s.diverted && dirty < |s.d.pages| <= |cm.file.pages|
      requires s.At(dirty) < |s.d.pages|
      requires s.At(dirty) in cm.cache <==> s.At(dirty) in s.cache
      requires if s.At(dirty) in s.cache then cm.cache[s.At(dirty)] == s.cache[s.At(dirty)]
               else cm.file.pages[s.At(dirty)] == s.d.pages[s.At(dirty)]
      modifies cm`cache, cm.file
      ensures cm.file.Valid() && Sound(old(cm.file.disk))
      ensures cm.file.ops == old(cm.file.ops) + [Write(dirty, s.View(dirty))]
      ensures dirty < |old(cm.file.disk).pages| && cm.file.disk == Apply(old(cm.file.disk), Write(dirty, s.View(dirty)))
      ensures cm.cache == Without(old(cm.cache), s.At(dirty))
    {
      hide Sound;
      var id := Divert(cm.diverted, dirty);
      if id !in cm.cache {
        var page := cm.file.pages[id];
        cm.file.WritePage(dirty, page);
      } else {
        cm.file.WritePage(dirty, Meta(cm.cache[id].content));
        cm.cache := Without(cm.cache, id);
      }
    }

    /** Brings the dirty pages up to date: from memory, or else from the place they were diverted to. */
    method UpdateDirtyPages(dirty: seq<nat>, ghost s: Snapshot, ghost d: State, ghost done: seq<Op>,
                            ghost before: seq<Op>)
      requires cm.file.Valid() && Ran(d, before, done, cm.file.disk, cm.file.ops) && s.Valid() && DirtyList(s, dirty)
      requires cm.cache == s.cache && cm.diverted == s.diverted
      requires |s.d.pages| <= |cm.file.pages| && cm.file.pages[..|s.d.pages|] == s.d.pages
      modifies cm`cache, cm`diverted, cm.file
      ensures cm.file.Valid() && Ran(d, before, done + ShowOps(s, dirty), cm.file.disk, cm.file.ops)
      ensures cm.diverted == map[]
      ensures |cm.file.pages| == old(|cm.file.pages|)
      ensures cm.cache == map k | k in s.cache && !Among(s, dirty, |dirty|, k) :: s.cache[k]
    {
      hide Ran, Snapshot.Valid, DirtyList, Sound, LegalAll, ApplyAll, Among;
      NoneAmong(s, dirty);
      var file := cm.file;
      ghost var sofar := done;
      for i := 0 to |dirty|
        invariant file.Valid() && Sound(file.disk) && Ran(d, before, sofar, file.disk, file.ops)
        invariant sofar == done + ShowOps(s, dirty)[..i]
        invariant |file.pages| == old(|file.pages|) && cm.diverted == s.diverted
        invariant forall p | 0 <= p < |s.d.pages| && p !in dirty[..i] :: file.pages[p] == s.d.pages[p]
        invariant cm.cache == map k | k in s.cache && !Among(s, dirty, i, k) :: s.cache[k]
      {
        DirtyIn(s, dirty, i);
        DirtyPlaces(s, dirty, i);
        assert dirty[..i + 1] == dirty[..i] + [dirty[i]];
        ghost var op := Write(dirty[i], s.View(dirty[i]));
        RanNext(d, before, sofar, file.disk, file.ops, op);
        ShowPage(dirty[i], s);
        ShownCache(s, dirty, i);
        sofar := sofar + [op];
      }
      assert ShowOps(s, dirty)[..|dirty|] == ShowOps(s, dirty);
      cm.diverted := map[];
    }

    /** Writes the new pages left in memory and forgets everything. */
    method WriteCachedPages(ghost s: Snapshot, ghost d: State, ghost done: seq<Op>, ghost before: seq<Op>)
      returns (ghost late: seq<nat>)
      requires cm.file.Valid() && Ran(d, before, done, cm.file.disk, cm.file.ops) && s.Valid()
      requires |s.d.pages| <= |cm.file.pages|
      requires forall k | k in cm.cache :: k in s.cache && cm.cache[k] == s.cache[k]
      requires forall k | k in cm.cache :: cm.cache[k].cls != Read ==> IsLate(s, k)
      requires forall k | IsLate(s, k) :: k in cm.cache
      modifies cm`cache, cm`newIds, cm.file
      ensures cm.file.Valid() && LateList(s, late) && Ran(d, before, done + ShowOps(s, late), cm.file.disk, cm.file.ops)
      ensures cm.cache == map[] && cm.newIds == {} && |cm.file.pages| == old(|cm.file.pages|)
    {
      hide Ran, Snapshot.Valid, IsLate, Sound;
      var file := cm.file;
      var rest := cm.cache.Keys;
      late := [];
      ghost var sofar := done;
      while rest != {}
        invariant file.Valid() && Sound(file.disk) && Ran(d, before, sofar, file.disk, file.ops)
        invariant sofar == done + ShowOps(s, late) && |file.pages| == old(|file.pages|)
        invariant cm.cache == old(cm.cache) && rest <= cm.cache.Keys && NoDup(late)
        invariant forall k :: k in late <==> IsLate(s, k) && k !in rest
        decreases rest
      {
        var k :| k in rest;
        rest := rest - {k};
        assert k in cm.cache;
        if cm.cache[k].cls != Read {
          LateFacts(s, k);
          ghost var op := Write(k, s.View(k));
          RanNext(d, before, sofar, file.disk, file.ops, op);
          ApplyValid(file.disk, op);
          file.WritePage(k, Meta(cm.cache[k].content));
          assert ShowOps(s, late + [k]) == ShowOps(s, late) + [op];
          late := late + [k];
          sofar := sofar + [op];
        } else {
          ReadNotLate(s, k);
        }
      }
      cm.cache := map[];
      cm.newIds := {};
    }

    /** Copies and logs are on disk before any committed page is touched. */
    method WriteAhead(dirty: seq<nat>, ghost s: Snapshot)
      requires cm.Valid() && s == cm.Now() && DirtyList(s, dirty)
      modifies cm.file
      ensures cm.file.Valid()
      ensures Ran(s.d, old(cm.file.ops), CopySteps(s, dirty) + LogSteps(s, dirty), cm.file.disk, cm.file.ops)
      ensures |s.d.pages| <= |cm.file.pages| && cm.file.pages[..|s.d.pages|] == s.d.pages
    {
      hide Ran, Snapshot.Valid, DirtyList, Sound, LegalAll, ApplyAll;
      var file := cm.file;
      ghost var before, n := file.ops, |s.d.pages|;
      assert Sound(s.d) by { ValidSound(s); }
      var pairs := CopyDirtyPages(dirty, s);
      ghost var done := [Grow(|dirty|)] + CopyOps(s.d.pages, dirty, n);
      RanSound(s.d, before, done, file.disk, file.ops);
      RanNext(s.d, before, done, file.disk, file.ops, Flush);
      file.FlushFile();
      done := CopySteps(s, dirty);
      WriteLogs(pairs, s.d, done, before);
      done := done + LogOps(pairs, n + |dirty|);
      RanSound(s.d, before, done, file.disk, file.ops);
      RanNext(s.d, before, done, file.disk, file.ops, Flush);
      file.FlushFile();
      done := done + [Flush];
      assert done == CopySteps(s, dirty) + LogSteps(s, dirty);
    }

    /** With dirty pages the whole protocol, ending with a file that is what the transaction saw. */
    method CommitDirty(dirty: seq<nat>) returns (ghost late: seq<nat>)
      requires cm.Valid() && DirtyList(cm.Now(), dirty)
      modifies cm, cm.file
      ensures LateList(old(cm.Now()), late) && cm.Valid()
      ensures cm.file.ops == old(cm.file.ops) + CommitSteps(old(cm.Now()), dirty, late)
      ensures cm.Now() == Snapshot(Boot(Published(old(cm.Now()))), map[], map[], {}, old(cm.free),
                                   Published(old(cm.Now())), {})
    {
      hide Ran, Snapshot.Valid, DirtyList, LateList, Sound, LegalAll, ApplyAll, Among;
      var file := cm.file;
      ghost var s, before := cm.Now(), file.ops;
      var fileSize := |file.pages|;
      assert Sound(s.d) by { ValidSound(s); }
      WriteAhead(dirty, s);
      ghost var done := CopySteps(s, dirty) + LogSteps(s, dirty);
      UpdateDirtyPages(dirty, s, s.d, done, before);
      AfterUpdate(s, dirty);
      done := done + ShowOps(s, dirty);
      late := WriteCachedPages(s, s.d, done, before);
      done := done + ShowOps(s, late);
      RanSound(s.d, before, done, file.disk, file.ops);
      RanNext(s.d, before, done, file.disk, file.ops, Flush);
      file.FlushFile();
      done := done + [Flush];
      RanSound(s.d, before, done, file.disk, file.ops);
      RanNext(s.d, before, done, file.disk, file.ops, Cut(fileSize));
      file.Truncate(fileSize);
      done := done + [Cut(fileSize)];
      assert done == CommitSteps(s, dirty, late);
      RanSteps(s, dirty, late, before, file.disk, file.ops);
      cm.base, cm.loose := file.pages, {};
      PublishedValid(s, cm.free);
    }

    /** Without dirty pages the new pages are written, and nothing is flushed. */
    method LockedWriteCachedPages(ghost dirty: seq<nat>) returns (ghost late: seq<nat>)
      requires cm.Valid() && DirtyList(cm.Now(), dirty) && dirty == []
      modifies cm, cm.file
      ensures LateList(old(cm.Now()), late) && cm.Valid()
      ensures cm.file.ops == old(cm.file.ops) + ShowOps(old(cm.Now()), late)
      ensures cm.file.pages == cm.base == Published(old(cm.Now())) && cm.loose == Unsure(old(cm.Now()))
      ensures cm.cache == map[] && cm.diverted == map[] && cm.newIds == {} && cm.free == old(cm.free)
    {
      hide Snapshot.Valid, DirtyList, LateList, IsLate, IsDirty, Published, Unsure, ShowOps, Ran, LegalAll, ApplyAll;
      ghost var s := cm.Now();
      NoDirty(s, dirty);
      NoneShown(s);
      if cm.newIds == {} {
        late := [];
        cm.cache := map[];
      } else {
        RanNothing(s.d, cm.file.ops);
        late := WriteCachedPages(s, s.d, [], cm.file.ops);
        RanLate(s, late, old(cm.file.ops), cm.file.disk, cm.file.ops);
      }
      cm.base, cm.loose := cm.file.pages, Unsure(s);
      LateValid(s, late);
    }

    method Commit() returns (ghost dirty: seq<nat>, ghost late: seq<nat>)
      requires cm.Valid()
      modifies cm, cm.file
      ensures cm.Valid() && DirtyList(old(cm.Now()), dirty) && LateList(old(cm.Now()), late)
      ensures cm.file.ops == old(cm.file.ops) +
        (if dirty == [] then ShowOps(old(cm.Now()), late) else CommitSteps(old(cm.Now()), dirty, late))
      ensures cm.file.pages == cm.base == Published(old(cm.Now()))
      ensures cm.loose == if dirty == [] then Unsure(old(cm.Now())) else {}
      ensures cm.cache == map[] && cm.diverted == map[] && cm.newIds == {} && cm.free == old(cm.free)
    {
      var dirtyPageIds := GetDirtyPageIds();
      dirty := dirtyPageIds;
      if dirtyPageIds == [] {
        late := LockedWriteCachedPages(dirty);
      } else {
        late := CommitDirty(dirtyPageIds);
      }
    }
  }

  ghost predicate Among(s: Snapshot, dirty: seq<nat>, n: nat, k: nat)
    requires n <= |dirty|
  {
    exists i :: 0 <= i < n && s.At(dirty[i]) == k
  }

  lemma ReadNotLate(s: Snapshot, k: nat)
    requires k in s.cache && s.cache[k].cls == Read
    ensures !IsLate(s, k)
  {
  }

  lemma NoneAmong(s: Snapshot, dirty: seq<nat>)
    ensures (map k | k in s.cache && !Among(s, dirty, 0, k) :: s.cache[k]) == s.cache
  {
  }

  lemma ShownCache(s: Snapshot, dirty: seq<nat>, i: nat)
    requires i < |dirty|
    ensures Without(map k | k in s.cache && !Among(s, dirty, i, k) :: s.cache[k], s.At(dirty[i]))
         == map k | k in s.cache && !Among(s, dirty, i + 1, k) :: s.cache[k]
  {
  }

  /** Pages that no flush may have reached when a commit does not flush either. */
  function Unsure(s: Snapshot): set<nat> {
    s.loose + s.newIds + Interval(|s.base|, |s.d.pages|)
  }

  function Interval(lo: nat, hi: nat): (r: set<nat>)
    ensures forall i :: i in r <==> lo <= i < hi
    decreases hi - lo
  {
    if lo >= hi then {} else {lo} + Interval(lo + 1, hi)
  }

  lemma LateFacts(s: Snapshot, k: nat)
    requires s.Valid() && IsLate(s, k)
    ensures s.View(k) == Meta(s.cache[k].content) && k < |s.d.pages|
  {
  }

  /** The places of different dirty pages differ, and none of them is overwritten. */
  lemma DirtyPlaces(s: Snapshot, dirty: seq<nat>, i: nat)
    requires s.Valid() && DirtyList(s, dirty) && i < |dirty|
    ensures !Among(s, dirty, i, s.At(dirty[i]))
    ensures s.At(dirty[i]) in s.cache || (s.At(dirty[i]) < |s.d.pages| && s.At(dirty[i]) !in dirty)
  {
    assert dirty[i] in dirty;
    DirtyFacts(s, dirty[i]);
    if dirty[i] in s.diverted {
      assert s.diverted[dirty[i]] in s.newIds;
    }
    forall j | 0 <= j < i ensures s.At(dirty[j]) != s.At(dirty[i]) {
      assert dirty[j] in dirty;
      if dirty[j] in s.diverted {
        assert s.diverted[dirty[j]] in s.newIds;
      }
    }
  }

  lemma RanSound(d: State, before: seq<Op>, done: seq<Op>, now: State, ops: seq<Op>)
    requires Ran(d, before, done, now, ops)
    ensures Sound(now)
  {
  }

  lemma RanSteps(s: Snapshot, dirty: seq<nat>, late: seq<nat>, before: seq<Op>, now: State, ops: seq<Op>)
    requires s.Valid() && DirtyList(s, dirty) && LateList(s, late)
    requires Ran(s.d, before, CommitSteps(s, dirty, late), now, ops)
    ensures now == Boot(Published(s)) && ops == before + CommitSteps(s, dirty, late)
  {
    CommitLegal(s, dirty, late);
  }

  /** What is left in the cache after the dirty pages are done. */
  lemma AfterUpdate(s: Snapshot, dirty: seq<nat>)
    requires s.Valid() && DirtyList(s, dirty)
    ensures forall k | k in s.cache && !Among(s, dirty, |dirty|, k) :: s.cache[k].cls != Read ==> IsLate(s, k)
    ensures forall k | IsLate(s, k) :: k in s.cache && !Among(s, dirty, |dirty|, k)
  {
    forall k | IsDirty(s, k) ensures Among(s, dirty, |dirty|, s.At(k)) {
      assert k in dirty;
      var i :| 0 <= i < |dirty| && dirty[i] == k;
    }
    forall k | k in s.cache && !Among(s, dirty, |dirty|, k) && s.cache[k].cls != Read ensures IsLate(s, k) {
      assert s.At(k) == k && !IsDirty(s, k);
      forall o | o in s.diverted ensures s.diverted[o] != k {
        assert IsDirty(s, o);
      }
    }
    forall k | k in s.cache && Among(s, dirty, |dirty|, k) ensures !IsLate(s, k) {
      var i :| 0 <= i < |dirty| && s.At(dirty[i]) == k;
      assert dirty[i] in dirty;
    }
  }

  lemma NoneShown(s: Snapshot)
    requires Sound(s.d)
    ensures ShowOps(s, []) == [] && LegalAll(s.d, []) && ApplyAll(s.d, []) == s.d
  {
  }

  lemma NoDirty(s: Snapshot, dirty: seq<nat>)
    requires s.Valid() && DirtyList(s, dirty) && dirty == []
    ensures s.diverted == map[] && forall k | k in s.cache :: s.cache[k].cls == Read || IsLate(s, k)
    ensures (forall id :: !IsDirty(s, id)) && (forall k | IsLate(s, k) :: k in s.cache) && Sound(s.d)
    ensures s.newIds == {} ==> LateList(s, []) && Published(s) == s.d.pages
  {
    assert forall id :: !IsDirty(s, id);
    assert s.diverted == map[] by {
      if s.diverted != map[] {
        var k :| k in s.diverted;
        assert IsDirty(s, k);
      }
    }
    forall k | k in s.cache ensures s.cache[k].cls == Read || IsLate(s, k) {
      assert !IsDirty(s, k);
    }
  }

  lemma PublishedValid(s: Snapshot, free: set<nat>)
    requires s.Valid() && free == s.free
    ensures Snapshot(Boot(Published(s)), map[], map[], {}, free, Published(s), {}).Valid()
  {
    forall p | p in Published(s) ensures !p.Log? {
      var i :| 0 <= i < |s.d.pages| && Published(s)[i] == p;
      assert s.d.pages[i] in s.d.pages;
      if IsDirty(s, i) {
        DirtyFacts(s, i);
      }
    }
  }

  lemma RanLate(s: Snapshot, late: seq<nat>, before: seq<Op>, now: State, ops: seq<Op>)
    requires s.Valid() && LateList(s, late) && (forall id :: !IsDirty(s, id))
    requires Ran(s.d, before, [] + ShowOps(s, late), now, ops)
    ensures ops == before + ShowOps(s, late)
    ensures LegalAll(s.d, ShowOps(s, late)) && now == ApplyAll(s.d, ShowOps(s, late))
  {
    assert [] + ShowOps(s, late) == ShowOps(s, late);
  }

  lemma {:induction false} WritesPending(d: State, ops: seq<Op>)
    requires Sound(d) && forall op | op in ops :: op.Write? && op.id < |d.pages|
    ensures LegalAll(d, ops) && ApplyAll(d, ops).flushed == d.flushed
    ensures forall w :: w in ApplyAll(d, ops).unflushed <==> w in d.unflushed || Write(w.0, w.1) in ops
    decreases |ops|
  {
    WritesLegal(d, ops);
    if ops != [] {
      WritesPending(d, ops[..|ops| - 1]);
      assert ops[|ops| - 1] in ops;
      assert ops == ops[..|ops| - 1] + [ops[|ops| - 1]];
    }
  }

  /** New pages alone are written in place; nothing makes them permanent. */
  lemma LatePages(s: Snapshot, late: seq<nat>)
    requires s.Valid() && LateList(s, late) && (forall id :: !IsDirty(s, id))
    ensures forall op | op in ShowOps(s, late) :: op.Write? && op.id in s.newIds && op.id < |s.d.pages| && op.page.Meta?
    ensures forall id | id in late :: Write(id, Published(s)[id]) in ShowOps(s, late)
    ensures forall op | op in ShowOps(s, late) :: op.id in late && op.page == Published(s)[op.id]
    ensures LegalAll(s.d, ShowOps(s, late)) && ApplyAll(s.d, ShowOps(s, late)).pages == Published(s)
  {
    var ops := ShowOps(s, late);
    forall op | op in ops
      ensures op.Write? && op.id in s.newIds && op.id < |s.d.pages| && op.page.Meta?
      ensures op.id in late && op.page == Published(s)[op.id]
    {
      ShowOpsFit(s, late, op);
    }
    forall id | id in late ensures id < |s.d.pages| && Write(id, Published(s)[id]) in ops {
      var i :| 0 <= i < |late| && late[i] == id;
      assert ops[i] in ops;
    }
    WritesLegal(s.d, ops);
    forall p: nat | p < |s.d.pages| ensures ApplyAll(s.d, ops).pages[p] == Published(s)[p] {
      WritesEffect(s.d, ops, p);
    }
  }

  lemma LateValid(s: Snapshot, late: seq<nat>)
    requires s.Valid() && LateList(s, late) && (forall id :: !IsDirty(s, id))
    ensures LegalAll(s.d, ShowOps(s, late))
    ensures var d := ApplyAll(s.d, ShowOps(s, late));
      && d.pages == Published(s) && d.flushed == s.d.flushed
      && (forall w ::
            w in d.unflushed <==> w in s.d.unflushed || (w.0 in late && w.0 < |s.d.pages| && w.1 == d.pages[w.0]))
      && Snapshot(d, map[], map[], {}, s.free, d.pages, Unsure(s)).Valid()
  {
    LatePages(s, late);
    WritesPending(s.d, ShowOps(s, late));
    var d := ApplyAll(s.d, ShowOps(s, late));
    forall p | p in d.pages ensures !p.Log? {
      var i :| 0 <= i < |d.pages| && d.pages[i] == p;
      WritesEffect(s.d, ShowOps(s, late), i);
      assert s.d.pages[i] in s.d.pages;
    }
    var t := Snapshot(d, map[], map[], {}, s.free, d.pages, Unsure(s));
    assert t.Isolated() by {
      forall i | 0 <= i < |d.pages| && i !in t.loose ensures d.flushed[i] == d.pages[i] {
        WritesEffect(s.d, ShowOps(s, late), i);
      }
    }
  }
}
