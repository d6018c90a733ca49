/** Undoing: what opening the file does about a commit that was cut short, for writers physically and
    for readers by redirecting, and giving up a write operation that is still running. */
module RollbackHandling {
  import opened Disk
  import opened Recovery
  import opened CacheManagement
  import opened CommitProtocol
  import opened CommitHandling

  class RollbackHandler {
    const cm: CacheManager

    constructor (cm: CacheManager)
      ensures this.cm == cm
    {
      this.cm := cm;
    }

    method ReadLogs() returns (res: seq<Copy>)
      ensures res == Logs(cm.file.pages)
    {
      var pages := cm.file.pages;
      res := [];
      if |pages| == 0 {
        return;
      }
      var idx: nat := |pages|;
      while idx != 0
        invariant idx <= |pages| && res + LogsBelow(pages, idx) == Logs(pages)
      {
        idx := idx - 1;
        match pages[idx]
        case Unsigned(_) => return;
        case Meta(_) => return;
        case Log(at, copies) =>
          if at != idx || |copies| > MAX_ENTRIES {
            return;
          }
          assert LogsBelow(pages, idx + 1) == copies + LogsBelow(pages, idx);
          assert res + (copies + LogsBelow(pages, idx)) == res + copies + LogsBelow(pages, idx);
          res := res + copies;
      }
    }

    /** `ok` is false when a page to copy cannot be read; the copies made before stay. */
    method RevertPartialCommit() returns (ok: bool)
      requires cm.file.Valid()
      modifies cm.file
      ensures cm.file.Valid() && (ok <==> Reverts(old(cm.file.pages), Logs(old(cm.file.pages))))
      ensures Ran(old(cm.file.disk), old(cm.file.ops),
                  RevertOps(old(cm.file.pages), Logs(old(cm.file.pages))) + (if ok then [Flush] else []),
                  cm.file.disk, cm.file.ops)
      ensures |cm.file.pages| == old(|cm.file.pages|)
    {
      hide Ran, Sound, ApplyAll, LegalAll, Logs, RevertOps, Reverts;
      var file := cm.file;
      var logs := ReadLogs();
      ghost var d, before, done := file.disk, file.ops, [];
      assert Sound(d) by { FileSound(file); }
      RanNothing(d, before);
      for i := 0 to |logs|
        invariant file.Valid() && Sound(file.disk) && |file.pages| == old(|file.pages|)
        invariant Ran(d, before, done, file.disk, file.ops)
        invariant done + RevertOps(file.pages, logs[i..]) == RevertOps(old(file.pages), logs)
        invariant Reverts(file.pages, logs[i..]) == Reverts(old(file.pages), logs)
      {
        assert logs[i..][0] == logs[i] && logs[i..][1..] == logs[i + 1..];
        var c := logs[i];
        NextRevert(file.pages, logs[i..], done);
        if c.copy >= |file.pages| || c.orig >= |file.pages| || file.pages[c.copy].Unsigned? {
          return false;
        }
        ghost var op := Write(c.orig, file.pages[c.copy]);
        RanNext(d, before, done, file.disk, file.ops, op);
        ApplyValid(file.disk, op);
        file.WritePage(c.orig, file.pages[c.copy]);
        done := done + [op];
      }
      assert logs[|logs|..] == [];
      NextRevert(file.pages, [], done);
      RanNext(d, before, done, file.disk, file.ops, Flush);
      file.FlushFile();
      ok := true;
    }

    /** Opening for writing after whatever happened: put old pages back, then cut the file to the
        size the committed file says it has. */
    method RevertAndCut(compositeSize: nat) returns (ok: bool)
      requires cm.file.Valid() && cm.file.disk == Boot(cm.file.pages) && compositeSize <= |cm.file.pages|
      modifies cm, cm.file
      ensures cm.file.Valid() && (ok <==> Reverts(old(cm.file.pages), Logs(old(cm.file.pages))))
      ensures ok ==> Ran(old(cm.file.disk), old(cm.file.ops), RecoverOps(old(cm.file.pages), compositeSize),
                         cm.file.disk, cm.file.ops)
    {
      ok := RevertPartialCommit();
      if ok {
        ghost var done := RevertOps(old(cm.file.pages), Logs(old(cm.file.pages))) + [Flush];
        cm.cache, cm.newIds, cm.diverted := map[], {}, map[];
        if compositeSize < |cm.file.pages| {
          RanNext(old(cm.file.disk), old(cm.file.ops), done, cm.file.disk, cm.file.ops, Cut(compositeSize));
          cm.file.Truncate(compositeSize);
        } else {
          assert done + [] == done;
        }
      }
    }

    /** Opening for reading: nothing is written, pages of an unfinished commit are read from their
        copies. */
    method VirtualRevertPartialCommit()
      requires cm.file.Valid() && cm.cache == map[]
      modifies cm`diverted
      ensures cm.diverted == Redirect(old(cm.diverted), Logs(cm.file.pages))
    {
      var logs := ReadLogs();
      for i := 0 to |logs|
        invariant Redirect(cm.diverted, logs[i..]) == Redirect(old(cm.diverted), logs)
      {
        assert logs[i..][0] == logs[i] && logs[i..][1..] == logs[i + 1..];
        cm.diverted := cm.diverted[logs[i].orig := logs[i].copy];
      }
    }

    /** Giving up a write operation. With the committed size its pages are cut off or, where it reused free pages,
        are free again; every other page is as committed. */
    method Rollback(compositeSize: nat)
      requires cm.Valid() && compositeSize <= |cm.file.pages|
      modifies cm, cm.file
      ensures cm.Valid() && cm.cache == map[] && cm.diverted == map[] && cm.newIds == {} && cm.free == {}
      ensures cm.base == cm.file.pages == old(cm.file.pages)[..compositeSize]
      ensures forall p | 0 <= p < compositeSize && p < old(|cm.base|) && p !in old(cm.newIds) ::
                cm.file.pages[p] == old(cm.base)[p]
      ensures compositeSize == old(|cm.base|) ==> cm.loose == old(cm.newIds + cm.loose)
    {
      hide Snapshot.Ordered, Snapshot.Backed, Snapshot.Isolated, NoLogs, Interval;
      ghost var s := cm.Now();
      RolledBackValid(s, compositeSize);
      cm.cache, cm.newIds, cm.diverted, cm.free := map[], {}, map[], {};
      if compositeSize < |cm.file.pages| {
        cm.file.Truncate(compositeSize);
      } else {
        assert s.d.pages[..compositeSize] == s.d.pages && s.d.flushed[..compositeSize] == s.d.flushed;
        assert (set w | w in s.d.unflushed && w.0 < compositeSize) == s.d.unflushed;
      }
      cm.base, cm.loose := cm.file.pages, s.newIds + s.loose + Interval(|s.base|, compositeSize);
      assert compositeSize == |s.base| ==> s.newIds + s.loose + {} == s.newIds + s.loose;
    }
  }

  /** The first page that is written back, and the others after it; none if it cannot be read. */
  lemma NextRevert(pages: seq<Page>, logs: seq<Copy>, done: seq<Op>)
    ensures logs == [] ==> Reverts(pages, logs) && done + RevertOps(pages, logs) == done
    ensures logs != [] ==> (
        var c := logs[0];
        if c.copy >= |pages| || c.orig >= |pages| || pages[c.copy].Unsigned?
        then !Reverts(pages, logs) && done + RevertOps(pages, logs) + [] == done
        else var pages2 := pages[c.orig := pages[c.copy]];
          && Reverts(pages, logs) == Reverts(pages2, logs[1..])
          && done + RevertOps(pages, logs) == done + [Write(c.orig, pages[c.copy])] + RevertOps(pages2, logs[1..]))
  {
    if logs != [] {
      var c := logs[0];
      if c.copy < |pages| && c.orig < |pages| && !pages[c.copy].Unsigned? {
        var op, rest := Write(c.orig, pages[c.copy]), RevertOps(pages[c.orig := pages[c.copy]], logs[1..]);
        assert done + ([op] + rest) == done + [op] + rest;
      }
    }
  }

  lemma FileSound(file: PageFile)
    requires file.Valid()
    ensures Sound(file.disk)
  {
  }

  lemma RolledBackValid(s: Snapshot, size: nat)
    requires s.Valid() && size <= |s.d.pages|
    ensures var d := Apply(s.d, Cut(size));
      && Snapshot(d, map[], map[], {}, {}, d.pages, s.newIds + s.loose + Interval(|s.base|, size)).Valid()
      && d.pages == s.d.pages[..size]
      && forall p | 0 <= p < size && p < |s.base| && p !in s.newIds :: d.pages[p] == s.base[p]
  {
    ApplyValid(s.d, Cut(size));
  }

  /** When a commit is cut short, before, during or after its writes, readers that redirect see on
      every page what writers get who put the pages back, and on every page the committed file
      vouches for that is the committed page. */
  lemma ReadersAgreeWithWriters(s: Snapshot, dirty: seq<nat>, late: seq<nat>, k: nat, img: seq<Page>)
    requires s.Valid() && DirtyList(s, dirty) && LateList(s, late) && k < |CommitSteps(s, dirty, late)|
    requires LegalAll(s.d, CommitSteps(s, dirty, late)[..k])
    requires CrashImage(ApplyAll(s.d, CommitSteps(s, dirty, late)[..k]), img)
    ensures LegalAll(Boot(img), RecoverOps(img, |s.base|)) && |s.base| <= |img|
    ensures var m := Redirect(map[], Logs(img));
      var file := ApplyAll(Boot(img), RecoverOps(img, |s.base|)).pages;
      && |file| == |s.base|
      && (forall p | 0 <= p < |s.base| :: Divert(m, p) < |img| && img[Divert(m, p)] == file[p])
      && (forall p | 0 <= p < |s.base| && p !in s.newIds + s.loose :: file[p] == s.base[p])
  {
    CommitAtomic(s, dirty, late, k, img);
    VirtualRevertAgrees(img, |s.d.pages|);
    RecoverRestores(img, |s.d.pages|, |s.base|, s.newIds + s.loose, s.base);
    RecoverSamePages(img, |s.base|);
  }

  lemma RecoverSamePages(img: seq<Page>, size: nat)
    requires LegalAll(Boot(img), RevertOps(img, Logs(img))) && LegalAll(Boot(img), RecoverOps(img, size))
    requires size <= |img| && |ApplyAll(Boot(img), RevertOps(img, Logs(img))).pages| == |img|
    ensures ApplyAll(Boot(img), RecoverOps(img, size)).pages
            == ApplyAll(Boot(img), RevertOps(img, Logs(img))).pages[..size]
  {
    var writes := RevertOps(img, Logs(img));
    ApplyOne(ApplyAll(Boot(img), writes), Flush);
    ApplyAppend(Boot(img), writes, [Flush]);
    if size < |img| {
      ApplyOne(ApplyAll(Boot(img), writes + [Flush]), Cut(size));
      ApplyAppend(Boot(img), writes + [Flush], [Cut(size)]);
    } else {
      assert writes + [Flush] + [] == writes + [Flush];
    }
  }

  /** A crash while the transaction is still running, or before its commit's first step: recovery
      finds no log and restores the committed file. */
  lemma CrashBeforeCommit(s: Snapshot, img: seq<Page>)
    requires s.Valid() && CrashImage(s.d, img)
    ensures Recoverable(img, |s.d.pages|, |s.base|, s.newIds + s.loose, s.base) && Logs(img) == []
  {
    StartsQuiet(s);
    forall i: nat | i < |img| ensures Quiet(s, i, img[i]) {
      assert ((i: nat, page: Page) => Quiet(s, i, page))(i, img[i]);
    }
  }

  /** A commit without dirty pages does not flush. That it survives every crash is true exactly when
      the file held all of it before the call: nothing new to write, and nothing unflushed that
      differs. */
  lemma UnflushedCommit(s: Snapshot, late: seq<nat>)
    requires s.Valid() && LateList(s, late) && (forall id :: !IsDirty(s, id))
    ensures LegalAll(s.d, ShowOps(s, late))
    ensures (forall img | CrashImage(ApplyAll(s.d, ShowOps(s, late)), img) :: img == Published(s)) <==>
            (s.d.flushed == Published(s) && forall w | w in s.d.unflushed ::
             w.0 < |s.d.pages| && w.1 == Published(s)[w.0])
  {
    LateValid(s, late);
    var d := ApplyAll(s.d, ShowOps(s, late));
    if forall img | CrashImage(d, img) :: img == Published(s) {
      assert CrashImage(d, d.flushed);
      forall w | w in s.d.unflushed ensures w.0 < |s.d.pages| && w.1 == Published(s)[w.0] {
        assert w in d.unflushed;
        assert CrashImage(d, d.flushed[w.0 := w.1]);
      }
    }
  }

  /** If nothing waited for a flush before the call, that comes down to the new pages in memory: each of them
      has to be in the file already as it is in memory. In particular it is enough that there are none. */
  lemma SettledCommit(s: Snapshot, late: seq<nat>)
    requires s.Valid() && LateList(s, late) && (forall id :: !IsDirty(s, id)) && s.d.unflushed == {}
    ensures LegalAll(s.d, ShowOps(s, late))
    ensures (forall img | CrashImage(ApplyAll(s.d, ShowOps(s, late)), img) :: img == Published(s)) <==>
            (forall id | id in late :: id < |s.d.pages| && s.View(id) == s.d.pages[id])
  {
    UnflushedCommit(s, late);
    assert s.d.flushed == s.d.pages;
    if s.d.pages == Published(s) {
      forall id | id in late ensures id < |s.d.pages| && s.View(id) == s.d.pages[id] {
        assert IsLate(s, id) && Published(s)[id] == s.View(id);
      }
    }
  }

  /** The smallest case that fails: an empty file, one new page, commit, crash. */
  lemma UnflushedCommitLoses(content: nat)
    ensures var s :=
      Snapshot(Apply(Boot([]), Grow(1)), map[0 := CachedPage(content, New, 0, 0)], map[], {0}, {}, [], {});
      && s.Valid() && LateList(s, [0]) && (forall id :: !IsDirty(s, id)) && LegalAll(s.d, ShowOps(s, [0]))
      && CrashImage(ApplyAll(s.d, ShowOps(s, [0])), [BLANK]) && Published(s) == [Meta(content)]
  {
    var s := Snapshot(Apply(Boot([]), Grow(1)), map[0 := CachedPage(content, New, 0, 0)], map[], {0}, {}, [], {});
    ApplyValid(Boot([]), Grow(1));
    assert s.d.pages == [BLANK] == s.d.flushed;
    assert forall p | p in s.d.pages :: p == BLANK;
    assert s.Valid();
    assert ShowOps(s, [0]) == [Write(0, Meta(content))];
    ApplyOne(s.d, Write(0, Meta(content)));
  }
}
