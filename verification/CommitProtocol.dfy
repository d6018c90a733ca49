/** The writes of a commit, one by one and in order, and what a crash between any two of them means. */
module CommitProtocol {
  import opened Basics
  import opened Disk
  import opened Recovery
  import opened CacheManagement

  predicate NoDup(s: seq<nat>) {
    forall i, j | 0 <= i < j < |s| :: s[i] != s[j]
  }

  /** Committed pages this transaction changes. */
  predicate IsDirty(s: Snapshot, id: nat) {
    id in s.diverted || (id in s.cache && s.cache[id].cls == Dirty)
  }

  ghost predicate DirtyList(s: Snapshot, dirty: seq<nat>) {
    NoDup(dirty) && forall id :: id in dirty <==> IsDirty(s, id)
  }

  /** New pages still in memory when all dirty pages are done. */
  predicate IsLate(s: Snapshot, id: nat) {
    id in s.cache && s.cache[id].cls == New && id !in s.diverted.Values
  }

  ghost predicate LateList(s: Snapshot, late: seq<nat>) {
    NoDup(late) && forall id :: id in late <==> IsLate(s, id)
  }

  function Pairs(dirty: seq<nat>, at: nat): seq<Copy> {
    seq(|dirty|, i requires 0 <= i < |dirty| => Copy(dirty[i], at + i))
  }

  function CopyPages(pages: seq<Page>, dirty: seq<nat>): seq<Page> {
    seq(|dirty|, i requires 0 <= i < |dirty| => if dirty[i] < |pages| then pages[dirty[i]] else BLANK)
  }

  function CopyOps(pages: seq<Page>, dirty: seq<nat>, at: nat): seq<Op> {
    seq(|dirty|, i requires 0 <= i < |dirty| => Write(at + i, CopyPages(pages, dirty)[i]))
  }

  function LogOps(pairs: seq<Copy>, at: nat): seq<Op>
    decreases |pairs|
  {
    if pairs == [] then [] else
      var k := Least(MAX_ENTRIES, |pairs|);
      [Grow(1), Write(at, Log(at, pairs[..k]))] + LogOps(pairs[k..], at + 1)
  }

  function LogPages(pairs: seq<Copy>, at: nat): seq<Page>
    decreases |pairs|
  {
    if pairs == [] then [] else
      var k := Least(MAX_ENTRIES, |pairs|);
      [Log(at, pairs[..k])] + LogPages(pairs[k..], at + 1)
  }

  /** As many log pages as it takes. */
  lemma {:induction false} LogPageCount(pairs: seq<Copy>, at: nat)
    ensures |LogPages(pairs, at)| == (|pairs| + MAX_ENTRIES - 1) / MAX_ENTRIES
    decreases |pairs|
  {
    if pairs != [] {
      LogPageCount(pairs[Least(MAX_ENTRIES, |pairs|)..], at + 1);
    }
  }

  /** All log pages but the last are full, each was made for the place where it stands, and together they hold the
      entries in order. */
  lemma {:induction false} LogPageAt(pairs: seq<Copy>, at: nat, i: nat)
    requires i < |LogPages(pairs, at)|
    ensures MAX_ENTRIES * i < |pairs|
    ensures LogPages(pairs, at)[i] == Log(at + i, pairs[MAX_ENTRIES * i..Least(MAX_ENTRIES * i + MAX_ENTRIES, |pairs|)])
    decreases i
  {
    if i > 0 {
      var k := Least(MAX_ENTRIES, |pairs|);
      LogPageAt(pairs[k..], at + 1, i - 1);
      Slice(pairs, k, MAX_ENTRIES * (i - 1), Least(MAX_ENTRIES * i, |pairs[k..]|));
    }
  }

  lemma Slice(pairs: seq<Copy>, k: nat, lo: nat, hi: nat)
    requires k <= |pairs| && lo <= hi <= |pairs[k..]|
    ensures pairs[k..][lo..hi] == pairs[k + lo..k + hi]
  {
  }

  function ShowOps(s: Snapshot, ids: seq<nat>): seq<Op> {
    seq(|ids|, i requires 0 <= i < |ids| => Write(ids[i], s.View(ids[i])))
  }

  /** Everything `commit()` does to the file when there are dirty pages. */
  function CopySteps(s: Snapshot, dirty: seq<nat>): seq<Op> {
    [Grow(|dirty|)] + CopyOps(s.d.pages, dirty, |s.d.pages|) + [Flush]
  }

  function LogSteps(s: Snapshot, dirty: seq<nat>): seq<Op> {
    LogOps(Pairs(dirty, |s.d.pages|), |s.d.pages| + |dirty|) + [Flush]
  }

  function UpdateSteps(s: Snapshot, dirty: seq<nat>, late: seq<nat>): seq<Op> {
    ShowOps(s, dirty) + ShowOps(s, late) + [Flush]
  }

  function CommitSteps(s: Snapshot, dirty: seq<nat>, late: seq<nat>): seq<Op> {
    CopySteps(s, dirty) + LogSteps(s, dirty) + UpdateSteps(s, dirty, late) + [Cut(|s.d.pages|)]
  }

  /** The committed file. */
  ghost function Published(s: Snapshot): seq<Page> {
    seq(|s.d.pages|, id requires 0 <= id < |s.d.pages| =>
      if IsDirty(s, id) || IsLate(s, id) then s.View(id) else s.d.pages[id])
  }

  /** Apart from the places pages were diverted to, which nobody refers to any more, the committed
      file shows every page as the transaction saw it. Those places are left as they were. */
  lemma PublishedIsView(s: Snapshot, id: nat)
    requires s.Valid() && id < |s.d.pages|
    ensures !s.Secret(id) ==> Published(s)[id] == s.View(id)
    ensures s.Secret(id) ==> Published(s)[id] == s.d.pages[id]
  {
    if s.Secret(id) {
      var i :| i in s.diverted && s.diverted[i] == id;
      assert id in s.newIds;
    } else if id in s.cache && s.cache[id].cls == New {
      assert id !in s.diverted.Values;
    }
  }

  lemma DirtyFacts(s: Snapshot, id: nat)
    requires s.Valid() && IsDirty(s, id)
    ensures id < |s.d.pages| && id !in s.newIds && s.d.pages[id].Meta? && s.View(id).Meta?
    ensures s.At(id) < |s.d.pages|
  {
    if id in s.diverted {
      assert s.diverted[id] in s.newIds;
    }
  }

  lemma DirtyIn(s: Snapshot, dirty: seq<nat>, i: nat)
    requires s.Valid() && DirtyList(s, dirty) && i < |dirty|
    ensures dirty[i] < |s.d.pages| && s.d.pages[dirty[i]].Meta? && s.At(dirty[i]) < |s.d.pages|
    ensures s.View(dirty[i]).Meta?
  {
    assert dirty[i] in dirty;
    DirtyFacts(s, dirty[i]);
  }

  // ---------------------------------------------------------------- phase 1: copies

  lemma {:induction false} CopyOpsPages(d: State, pages: seq<Page>, dirty: seq<nat>, at: nat, k: nat)
    requires Sound(d) && k <= |dirty| && |d.pages| == at + |dirty|
    ensures LegalAll(d, CopyOps(pages, dirty, at)[..k])
    ensures ApplyAll(d, CopyOps(pages, dirty, at)[..k]).pages
            == d.pages[..at] + CopyPages(pages, dirty)[..k] + d.pages[at + k..]
  {
    hide Sound;
    var ops := CopyOps(pages, dirty, at);
    if k > 0 {
      CopyOpsPages(d, pages, dirty, at, k - 1);
      assert ops[..k][..k - 1] == ops[..k - 1];
      assert ops[..k][k - 1] == Write(at + k - 1, CopyPages(pages, dirty)[k - 1]);
    } else {
      assert ops[..0] == [];
      assert d.pages == d.pages[..at] + CopyPages(pages, dirty)[..0] + d.pages[at + 0..];
    }
  }

  lemma CopyStepsPages(s: Snapshot, dirty: seq<nat>)
    requires Sound(s.d)
    ensures LegalAll(s.d, CopySteps(s, dirty))
    ensures ApplyAll(s.d, CopySteps(s, dirty)) == Boot(s.d.pages + CopyPages(s.d.pages, dirty))
  {
    var n := |s.d.pages|;
    var copies := CopyOps(s.d.pages, dirty, n);
    ApplyOne(s.d, Grow(|dirty|));
    var d1 := ApplyAll(s.d, [Grow(|dirty|)]);
    CopyOpsPages(d1, s.d.pages, dirty, n, |dirty|);
    assert copies[..|dirty|] == copies && CopyPages(s.d.pages, dirty)[..|dirty|] == CopyPages(s.d.pages, dirty);
    ApplyAppend(s.d, [Grow(|dirty|)], copies);
    var d2 := ApplyAll(s.d, [Grow(|dirty|)] + copies);
    ApplyOne(d2, Flush);
    ApplyAppend(s.d, [Grow(|dirty|)] + copies, [Flush]);
    assert d2.pages == s.d.pages + CopyPages(s.d.pages, dirty);
  }

  ghost predicate Quiet(s: Snapshot, i: nat, page: Page) {
    && !page.Log?
    && (i < |s.base| && i !in s.newIds && i !in s.loose ==> page == s.base[i])
  }

  lemma StartsQuiet(s: Snapshot)
    requires s.Valid()
    ensures Within(s.d, (i: nat, page: Page) => Quiet(s, i, page))
  {
    forall i | 0 <= i < |s.d.flushed| ensures Quiet(s, i, s.d.flushed[i]) {
      assert s.d.flushed[i] in s.d.flushed;
    }
  }

  /** Before `commit()` has started, and until its first flush is through, a crash costs nothing but
      what the transaction did. */
  lemma CrashBeforeCopies(s: Snapshot, dirty: seq<nat>, k: nat, img: seq<Page>)
    requires s.Valid() && DirtyList(s, dirty) && k <= |CopySteps(s, dirty)|
    requires LegalAll(s.d, CopySteps(s, dirty)[..k])
    requires CrashImage(ApplyAll(s.d, CopySteps(s, dirty)[..k]), img)
    ensures Recoverable(img, |s.d.pages|, |s.base|, s.newIds + s.loose, s.base)
  {
    var ops := CopySteps(s, dirty);
    var allowed := (i: nat, page: Page) => Quiet(s, i, page);
    var n := |s.d.pages|;
    StartsQuiet(s);
    forall op | op in ops[..k] ensures Fits(op, n, allowed) {
      if op.Write? {
        assert op in CopyOps(s.d.pages, dirty, n);
        var i :| 0 <= i < |dirty| && op == CopyOps(s.d.pages, dirty, n)[i];
        assert dirty[i] in dirty;
        DirtyFacts(s, dirty[i]);
        assert CopyPages(s.d.pages, dirty)[i] == s.d.pages[dirty[i]];
        assert CopyOps(s.d.pages, dirty, n)[i] == Write(n + i, s.d.pages[dirty[i]]);
        assert Quiet(s, n + i, op.page);
      }
    }
    WithinAll(s.d, ops[..k], allowed);
    forall i: nat | i < |img| ensures Quiet(s, i, img[i]) {
      assert allowed(i, img[i]);
    }
    assert Logs(img) == [];
  }

  // ---------------------------------------------------------------- phase 2: the log

  /** Growing the file for one log page and writing it. */
  lemma OneLogPage(d: State, at: nat, log: Page)
    requires Sound(d) && |d.pages| == at
    ensures var ops := [Grow(1), Write(at, log)];
      LegalAll(d, ops) && ApplyAll(d, ops).pages == d.pages + [log]
  {
    hide Sound, LegalAll, ApplyAll;
    ApplyOne(d, Grow(1));
    var d1 := ApplyAll(d, [Grow(1)]);
    assert d1.pages == d.pages + [BLANK];
    ApplyOne(d1, Write(at, log));
    ApplyAppend(d, [Grow(1)], [Write(at, log)]);
    assert [Grow(1)] + [Write(at, log)] == [Grow(1), Write(at, log)];
    assert (d.pages + [BLANK])[at := log] == d.pages + [log];
  }

  /** The first log page, and the others behind it. */
  lemma NextLog(pairs: seq<Copy>, at: nat, ops: seq<Op>, pages: seq<Page>)
    requires pairs != []
    ensures var k := Least(MAX_ENTRIES, |pairs|); var log := Log(at, pairs[..k]);
      && ops + LogOps(pairs, at) == ops + [Grow(1)] + [Write(at, log)] + LogOps(pairs[k..], at + 1)
      && pages + LogPages(pairs, at) == pages + [log] + LogPages(pairs[k..], at + 1)
  {
    var k := Least(MAX_ENTRIES, |pairs|);
    var log := Log(at, pairs[..k]);
    assert LogOps(pairs, at) == [Grow(1), Write(at, log)] + LogOps(pairs[k..], at + 1);
    assert LogPages(pairs, at) == [log] + LogPages(pairs[k..], at + 1);
  }

  lemma NoLog(at: nat)
    ensures LogOps([], at) == [] && LogPages([], at) == []
  {
  }

  lemma NothingDone(d: State)
    requires Sound(d)
    ensures LegalAll(d, []) && ApplyAll(d, []) == d
  {
  }

  lemma {:induction false} LogOpsPages(d: State, pairs: seq<Copy>, at: nat)
    requires Sound(d) && |d.pages| == at
    ensures LegalAll(d, LogOps(pairs, at))
    ensures ApplyAll(d, LogOps(pairs, at)).pages == d.pages + LogPages(pairs, at)
    decreases |pairs|
  {
    hide Sound, LegalAll, ApplyAll, LogOps, LogPages;
    if pairs == [] {
      NoLog(at);
      NothingDone(d);
    } else {
      var k := Least(MAX_ENTRIES, |pairs|);
      var log := Log(at, pairs[..k]);
      var ops := [Grow(1), Write(at, log)];
      OneLogPage(d, at, log);
      LogOpsPages(ApplyAll(d, ops), pairs[k..], at + 1);
      ApplyAppend(d, ops, LogOps(pairs[k..], at + 1));
      NextLog(pairs, at, [], d.pages);
      assert [] + LogOps(pairs, at) == LogOps(pairs, at);
      assert [] + [Grow(1)] + [Write(at, log)] == ops;
    }
  }

  lemma {:induction false} LogOpsShape(pairs: seq<Copy>, at: nat, op: Op)
    requires op in LogOps(pairs, at)
    ensures op == Grow(1) ||
            (op.Write? && op.id >= at && op.page.Log? && forall c | c in op.page.copies :: c in pairs)
    decreases |pairs|
  {
    var k := Least(MAX_ENTRIES, |pairs|);
    if op in LogOps(pairs[k..], at + 1) {
      LogOpsShape(pairs[k..], at + 1, op);
    }
  }

  /** The log pages hold all entries: scanning finds each of them, page by page backwards. */
  lemma {:induction false} LogsComplete(img: seq<Page>, pairs: seq<Copy>, at: nat, c: Copy)
    requires at <= |img| && img[at..] == LogPages(pairs, at) && c in pairs
    ensures c in Logs(img)
    decreases |pairs|
  {
    var k := Least(MAX_ENTRIES, |pairs|);
    assert img[at] == img[at..][0];
    assert img[at + 1..] == img[at..][1..];
    AllLogs(img, pairs[k..], at + 1);
    if c in pairs[k..] {
      LogsComplete(img, pairs[k..], at + 1, c);
    } else {
      assert c in pairs[..k];
      assert IsLogAt(img, at);
      LogsReach(img, at + 1, |img|, c);
    }
  }

  lemma {:induction false} AllLogs(img: seq<Page>, pairs: seq<Copy>, at: nat)
    requires at <= |img| && img[at..] == LogPages(pairs, at)
    ensures forall i | at <= i < |img| :: IsLogAt(img, i)
    decreases |pairs|
  {
    if pairs != [] {
      assert img[at] == img[at..][0];
      assert img[at + 1..] == img[at..][1..];
      AllLogs(img, pairs[Least(MAX_ENTRIES, |pairs|)..], at + 1);
    }
  }

  lemma {:induction false} LogsReach(img: seq<Page>, lo: nat, k: nat, c: Copy)
    requires lo <= k <= |img| && (forall i | lo <= i < k :: IsLogAt(img, i)) && c in LogsBelow(img, lo)
    ensures c in LogsBelow(img, k)
  {
    if lo < k {
      LogsReach(img, lo, k - 1, c);
    }
  }

  lemma {:induction false} LogsFrom(img: seq<Page>, k: nat, c: Copy) returns (i: nat)
    requires k <= |img| && c in LogsBelow(img, k)
    ensures i < k && img[i].Log? && c in img[i].copies
  {
    if c in img[k - 1].copies {
      i := k - 1;
    } else {
      i := LogsFrom(img, k - 1, c);
    }
  }

  lemma PairsAre(dirty: seq<nat>, at: nat, c: Copy) returns (i: nat)
    requires c in Pairs(dirty, at)
    ensures i < |dirty| && c == Copy(dirty[i], at + i) && dirty[i] in dirty
  {
    i :| 0 <= i < |dirty| && Pairs(dirty, at)[i] == c;
  }

  ghost predicate Logging(s: Snapshot, dirty: seq<nat>, i: nat, page: Page) {
    var n := |s.d.pages|;
    if i < n then Quiet(s, i, page)
    else if i < n + |dirty| then page == CopyPages(s.d.pages, dirty)[i - n]
    else page == BLANK || (page.Log? && forall c | c in page.copies :: c in Pairs(dirty, n))
  }

  lemma LoggingRecoverable(s: Snapshot, dirty: seq<nat>, img: seq<Page>)
    requires s.Valid() && DirtyList(s, dirty) && |img| >= |s.d.pages| + |dirty|
    requires forall i: nat | i < |img| :: Logging(s, dirty, i, img[i])
    ensures Recoverable(img, |s.d.pages|, |s.base|, s.newIds + s.loose, s.base)
  {
    var n := |s.d.pages|;
    forall c | c in Logs(img)
      ensures c.orig < n <= c.copy < |img| && img[c.copy].Meta?
      ensures c.orig < |s.base| && c.orig !in s.newIds + s.loose ==> img[c.copy] == s.base[c.orig]
    {
      var i := LogsFrom(img, |img|, c);
      assert Logging(s, dirty, i, img[i]);
      assert c in Pairs(dirty, n);
      var j := PairsAre(dirty, n, c);
      DirtyFacts(s, dirty[j]);
      assert Logging(s, dirty, n + j, img[n + j]);
    }
    forall i: nat | i < n ensures Quiet(s, i, img[i]) {
      assert Logging(s, dirty, i, img[i]);
    }
  }

  /** From the flush of the copies until the log is flushed, a crash may leave any part of the log.
      Any part will do. */
  lemma CrashInLog(s: Snapshot, dirty: seq<nat>, k: nat, img: seq<Page>)
    requires s.Valid() && DirtyList(s, dirty) && k <= |LogSteps(s, dirty)|
    requires LegalAll(Boot(s.d.pages + CopyPages(s.d.pages, dirty)), LogSteps(s, dirty)[..k])
    requires CrashImage(ApplyAll(Boot(s.d.pages + CopyPages(s.d.pages, dirty)), LogSteps(s, dirty)[..k]), img)
    ensures Recoverable(img, |s.d.pages|, |s.base|, s.newIds + s.loose, s.base)
  {
    var ops := LogSteps(s, dirty);
    var n := |s.d.pages|;
    var d := Boot(s.d.pages + CopyPages(s.d.pages, dirty));
    var allowed := (i: nat, page: Page) => Logging(s, dirty, i, page);
    forall i: nat | i < |d.flushed| ensures Logging(s, dirty, i, d.flushed[i]) {
      if i < n {
        assert s.d.pages[i] in s.d.pages;
      }
    }
    forall op | op in ops[..k] ensures Fits(op, |d.pages|, allowed) {
      if op in LogOps(Pairs(dirty, n), n + |dirty|) {
        LogOpsShape(Pairs(dirty, n), n + |dirty|, op);
      } else {
        assert op == Flush;
      }
    }
    WithinAll(d, ops[..k], allowed);
    forall i: nat | i < |img| ensures Logging(s, dirty, i, img[i]) {
      assert allowed(i, img[i]);
    }
    LoggingRecoverable(s, dirty, img);
  }

  // ---------------------------------------------------------------- phase 3: the update

  /** The file when both flushes are through: nothing but copies and log was added. */
  function Logged(s: Snapshot, dirty: seq<nat>): seq<Page> {
    s.d.pages + CopyPages(s.d.pages, dirty) + LogPages(Pairs(dirty, |s.d.pages|), |s.d.pages| + |dirty|)
  }

  lemma LogStepsPages(s: Snapshot, dirty: seq<nat>)
    requires Sound(s.d)
    ensures var d := Boot(s.d.pages + CopyPages(s.d.pages, dirty));
      LegalAll(d, LogSteps(s, dirty)) && ApplyAll(d, LogSteps(s, dirty)) == Boot(Logged(s, dirty))
  {
    var n := |s.d.pages|;
    var d := Boot(s.d.pages + CopyPages(s.d.pages, dirty));
    var ops := LogOps(Pairs(dirty, n), n + |dirty|);
    LogOpsPages(d, Pairs(dirty, n), n + |dirty|);
    ApplyOne(ApplyAll(d, ops), Flush);
    ApplyAppend(d, ops, [Flush]);
  }

  ghost predicate Updating(s: Snapshot, dirty: seq<nat>, i: nat, page: Page) {
    && i < |Logged(s, dirty)|
    && (if i < |s.d.pages| then
          page == s.d.pages[i] || ((i in dirty || i in s.newIds) && page.Meta?)
        else page == Logged(s, dirty)[i])
  }

  lemma UpdatingRecoverable(s: Snapshot, dirty: seq<nat>, img: seq<Page>)
    requires s.Valid() && DirtyList(s, dirty) && |img| == |Logged(s, dirty)|
    requires forall i: nat | i < |img| :: Updating(s, dirty, i, img[i])
    ensures Recoverable(img, |s.d.pages|, |s.base|, s.newIds + s.loose, s.base)
  {
    hide Snapshot.Valid, DirtyList, Logs;
    var n := |s.d.pages|;
    BaseFits(s);
    forall i: nat | i < n ensures !img[i].Log? {
      assert Updating(s, dirty, i, img[i]);
      NoLogAt(s, i);
    }
    forall i: nat | n <= i < |img| ensures img[i] == Logged(s, dirty)[i] {
      assert Updating(s, dirty, i, img[i]);
    }
    forall c | c in Logs(img)
      ensures c.orig < n <= c.copy < |img| && img[c.copy].Meta?
      ensures c.orig < |s.base| && c.orig !in s.newIds + s.loose ==> img[c.copy] == s.base[c.orig]
    {
      LoggedCopy(s, dirty, img, c);
    }
    forall p | 0 <= p < |s.base| && p !in s.newIds + s.loose
      ensures img[p] == s.base[p] || exists c :: c in Logs(img) && c.orig == p
    {
      assert Updating(s, dirty, p, img[p]);
      CommittedHere(s, p);
      if p in dirty {
        DirtyIsLogged(s, dirty, img, p);
      }
    }
  }

  lemma BaseFits(s: Snapshot)
    requires s.Valid()
    ensures |s.base| <= |s.d.pages|
  {
  }

  lemma NoLogAt(s: Snapshot, i: nat)
    requires s.Valid() && i < |s.d.pages|
    ensures !s.d.pages[i].Log?
  {
    assert s.d.pages[i] in s.d.pages;
  }

  lemma CommittedHere(s: Snapshot, p: nat)
    requires s.Valid() && p < |s.base| && p !in s.newIds + s.loose
    ensures p < |s.d.pages| && s.d.pages[p] == s.base[p]
  {
  }

  /** Every entry of the log names a dirty page and the copy of its committed contents. */
  lemma LoggedCopy(s: Snapshot, dirty: seq<nat>, img: seq<Page>, c: Copy)
    requires s.Valid() && DirtyList(s, dirty) && |img| == |Logged(s, dirty)| && c in Logs(img)
    requires forall i: nat | i < |s.d.pages| :: !img[i].Log?
    requires forall i: nat | |s.d.pages| <= i < |img| :: img[i] == Logged(s, dirty)[i]
    ensures c.orig < |s.d.pages| <= c.copy < |img| && img[c.copy].Meta?
    ensures c.orig < |s.base| && c.orig !in s.newIds + s.loose ==> img[c.copy] == s.base[c.orig]
  {
    hide Snapshot.Valid, LogsBelow, DirtyList;
    var n := |s.d.pages|;
    var at := n + |dirty|;
    assert Logged(s, dirty)[at..] == LogPages(Pairs(dirty, n), at);
    var i := LogsFrom(img, |img|, c);
    if i < at {
      assert img[i] == CopyPages(s.d.pages, dirty)[i - n];
      DirtyIn(s, dirty, i - n);
    }
    assert img[i] == LogPages(Pairs(dirty, n), at)[i - at];
    LogPagesFrom(Pairs(dirty, n), at, i - at, c);
    var j := PairsAre(dirty, n, c);
    DirtyIn(s, dirty, j);
    assert img[n + j] == CopyPages(s.d.pages, dirty)[j] == s.d.pages[dirty[j]];
    if c.orig < |s.base| && c.orig !in s.newIds + s.loose {
      CommittedHere(s, c.orig);
    }
  }

  lemma DirtyIsLogged(s: Snapshot, dirty: seq<nat>, img: seq<Page>, p: nat)
    requires p in dirty && |img| == |Logged(s, dirty)|
    requires forall i: nat | |s.d.pages| <= i < |img| :: img[i] == Logged(s, dirty)[i]
    ensures exists c :: c in Logs(img) && c.orig == p
  {
    hide Logs;
    var n := |s.d.pages|;
    var at := n + |dirty|;
    assert img[at..] == LogPages(Pairs(dirty, n), at);
    var i :| 0 <= i < |dirty| && dirty[i] == p;
    assert Pairs(dirty, n)[i] == Copy(p, n + i);
    LogsComplete(img, Pairs(dirty, n), at, Copy(p, n + i));
  }

  lemma {:induction false} LogPagesFrom(pairs: seq<Copy>, at: nat, i: nat, c: Copy)
    requires i < |LogPages(pairs, at)| && LogPages(pairs, at)[i].Log? && c in LogPages(pairs, at)[i].copies
    ensures c in pairs
    decreases |pairs|
  {
    var k := Least(MAX_ENTRIES, |pairs|);
    if i > 0 {
      LogPagesFrom(pairs[k..], at + 1, i - 1, c);
    }
  }

  lemma ShowOpsFit(s: Snapshot, ids: seq<nat>, op: Op)
    requires s.Valid() && op in ShowOps(s, ids) && forall id | id in ids :: IsDirty(s, id) || IsLate(s, id)
    ensures op.Write? && op.id in ids && op.id < |s.d.pages| && op.page.Meta?
    ensures op.page == Published(s)[op.id] && (IsDirty(s, op.id) || op.id in s.newIds)
  {
    var i :| 0 <= i < |ids| && ShowOps(s, ids)[i] == op;
    assert ids[i] in ids;
    if IsDirty(s, ids[i]) {
      DirtyFacts(s, ids[i]);
    }
  }

  /** While the old pages are overwritten, in whatever part a crash leaves that, the log leads back. */
  lemma CrashInUpdate(s: Snapshot, dirty: seq<nat>, late: seq<nat>, k: nat, img: seq<Page>)
    requires s.Valid() && DirtyList(s, dirty) && LateList(s, late) && k <= |UpdateSteps(s, dirty, late)|
    requires LegalAll(Boot(Logged(s, dirty)), UpdateSteps(s, dirty, late)[..k])
    requires CrashImage(ApplyAll(Boot(Logged(s, dirty)), UpdateSteps(s, dirty, late)[..k]), img)
    ensures Recoverable(img, |s.d.pages|, |s.base|, s.newIds + s.loose, s.base)
  {
    var ops := UpdateSteps(s, dirty, late)[..k];
    var d := Boot(Logged(s, dirty));
    var allowed := (i: nat, page: Page) => Updating(s, dirty, i, page);
    forall op | op in ops ensures op.Flush? || (op.Write? && Updating(s, dirty, op.id, op.page)) {
      if op in ShowOps(s, dirty) {
        ShowOpsFit(s, dirty, op);
      } else if op in ShowOps(s, late) {
        ShowOpsFit(s, late, op);
      }
    }
    WithinAll(d, ops, allowed);
    NoResize(d, ops);
    forall i: nat | i < |img| ensures Updating(s, dirty, i, img[i]) {
      assert allowed(i, img[i]);
    }
    UpdatingRecoverable(s, dirty, img);
  }

  /** Writes that make these pages, wherever they were not there before. */
  lemma WritesMake(d: State, writes: seq<Op>, pages: seq<Page>)
    requires Sound(d) && |pages| <= |d.pages|
    requires forall op | op in writes :: op.Write? && op.id < |pages| && op.page == pages[op.id]
    requires forall p | 0 <= p < |pages| :: pages[p] == d.pages[p] || Write(p, pages[p]) in writes
    ensures LegalAll(d, writes) && |ApplyAll(d, writes).pages| == |d.pages|
    ensures ApplyAll(d, writes).pages[..|pages|] == pages
  {
    hide Sound, LegalAll, ApplyAll;
    WritesLegal(d, writes);
    forall p: nat | p < |pages| ensures ApplyAll(d, writes).pages[p] == pages[p] {
      WritesEffect(d, writes, p);
    }
  }

  lemma ShownWhere(s: Snapshot, ids: seq<nat>, i: nat)
    requires s.Valid() && i < |ids| && ids[i] < |s.d.pages| && (IsDirty(s, ids[i]) || IsLate(s, ids[i]))
    ensures Write(ids[i], Published(s)[ids[i]]) in ShowOps(s, ids)
  {
    hide Snapshot.Backed, Snapshot.Isolated, Snapshot.View, Snapshot.Valid, NoLogs;
    assert ShowOps(s, ids)[i] == Write(ids[i], s.View(ids[i]));
  }

  /** The writes of a commit are those that make the published file. */
  lemma ShowWrites(s: Snapshot, dirty: seq<nat>, late: seq<nat>)
    requires s.Valid() && DirtyList(s, dirty) && LateList(s, late)
    ensures forall op | op in ShowOps(s, dirty) + ShowOps(s, late) ::
              op.Write? && op.id < |s.d.pages| && op.page == Published(s)[op.id]
    ensures forall p: nat | p < |s.d.pages| ::
              Published(s)[p] == s.d.pages[p] || Write(p, Published(s)[p]) in ShowOps(s, dirty) + ShowOps(s, late)
  {
    hide Snapshot.Backed, Snapshot.Isolated, Snapshot.View, Snapshot.Valid, NoLogs, ShowOps;
    forall op | op in ShowOps(s, dirty) + ShowOps(s, late)
      ensures op.Write? && op.id < |s.d.pages| && op.page == Published(s)[op.id]
    {
      if op in ShowOps(s, dirty) {
        ShowOpsFit(s, dirty, op);
      } else {
        ShowOpsFit(s, late, op);
      }
    }
    forall p: nat | p < |s.d.pages| && Published(s)[p] != s.d.pages[p]
      ensures Write(p, Published(s)[p]) in ShowOps(s, dirty) + ShowOps(s, late)
    {
      if IsDirty(s, p) {
        var i :| 0 <= i < |dirty| && dirty[i] == p;
        ShownWhere(s, dirty, i);
      } else {
        var i :| 0 <= i < |late| && late[i] == p;
        ShownWhere(s, late, i);
      }
    }
  }

  lemma UpdateStepsPages(s: Snapshot, dirty: seq<nat>, late: seq<nat>)
    requires s.Valid() && DirtyList(s, dirty) && LateList(s, late)
    ensures LegalAll(Boot(Logged(s, dirty)), UpdateSteps(s, dirty, late))
    ensures var d := ApplyAll(Boot(Logged(s, dirty)), UpdateSteps(s, dirty, late));
      d == Boot(d.pages) && |d.pages| == |Logged(s, dirty)| && d.pages[..|s.d.pages|] == Published(s)
  {
    hide Snapshot.Backed, Snapshot.Isolated, Snapshot.View, Snapshot.Valid, NoLogs, ShowOps, DirtyList, LateList,
         LegalAll, ApplyAll;
    var d := Boot(Logged(s, dirty));
    var writes := ShowOps(s, dirty) + ShowOps(s, late);
    ShowWrites(s, dirty, late);
    assert d.pages[..|s.d.pages|] == s.d.pages;
    WritesMake(d, writes, Published(s));
    ApplyOne(ApplyAll(d, writes), Flush);
    ApplyAppend(d, writes, [Flush]);
  }

  // ---------------------------------------------------------------- the whole commit

  lemma CommitLegal(s: Snapshot, dirty: seq<nat>, late: seq<nat>)
    requires s.Valid() && DirtyList(s, dirty) && LateList(s, late)
    ensures LegalAll(s.d, CommitSteps(s, dirty, late))
    ensures ApplyAll(s.d, CommitSteps(s, dirty, late)) == Boot(Published(s))
  {
    CopyStepsPages(s, dirty);
    LogStepsPages(s, dirty);
    UpdateStepsPages(s, dirty, late);
    var a, b, c := CopySteps(s, dirty), LogSteps(s, dirty), UpdateSteps(s, dirty, late);
    ApplyAppend(s.d, a, b);
    ApplyAppend(s.d, a + b, c);
    var d := ApplyAll(s.d, a + b + c);
    ApplyOne(d, Cut(|s.d.pages|));
    ApplyAppend(s.d, a + b + c, [Cut(|s.d.pages|)]);
  }

  lemma ValidSound(s: Snapshot)
    requires s.Valid()
    ensures Sound(s.d)
  {
  }

  lemma OnlyImage(pages: seq<Page>, img: seq<Page>)
    requires CrashImage(Boot(pages), img)
    ensures img == pages
  {
  }

  /** Crash atomicity. Cut the commit short after any number of its steps, lose any of the writes not
      flushed by then: until the very last step the file left behind determines the old committed
      file, and after it the file is the new one, on every page and for good. */
  lemma CommitAtomic(s: Snapshot, dirty: seq<nat>, late: seq<nat>, k: nat, img: seq<Page>)
    requires s.Valid() && DirtyList(s, dirty) && LateList(s, late)
    requires k <= |CommitSteps(s, dirty, late)|
    requires LegalAll(s.d, CommitSteps(s, dirty, late)[..k])
    requires CrashImage(ApplyAll(s.d, CommitSteps(s, dirty, late)[..k]), img)
    ensures k < |CommitSteps(s, dirty, late)| ==>
              Recoverable(img, |s.d.pages|, |s.base|, s.newIds + s.loose, s.base)
    ensures k == |CommitSteps(s, dirty, late)| ==> img == Published(s)
  {
    hide Recoverable, Snapshot.Valid, DirtyList, LateList, CrashImage, ApplyAll, LegalAll, Sound;
    hide CopySteps, LogSteps, UpdateSteps;
    assert Sound(s.d) by {
      ValidSound(s);
    }
    var ops := CommitSteps(s, dirty, late);
    var a, b, c := CopySteps(s, dirty), LogSteps(s, dirty), UpdateSteps(s, dirty, late);
    CopyStepsPages(s, dirty);
    LogStepsPages(s, dirty);
    if k <= |a| {
      assert ops[..k] == a[..k];
      CrashBeforeCopies(s, dirty, k, img);
    } else if k <= |a + b| {
      assert ops[..k] == a + b[..k - |a|];
      ApplyAppend(s.d, a, b[..k - |a|]);
      CrashInLog(s, dirty, k - |a|, img);
    } else if k <= |a + b + c| {
      assert ops[..k] == a + b + c[..k - |a + b|];
      ApplyAppend(s.d, a, b);
      ApplyAppend(s.d, a + b, c[..k - |a + b|]);
      CrashInUpdate(s, dirty, late, k - |a + b|, img);
    } else {
      assert ops[..k] == ops;
      CommitLegal(s, dirty, late);
      OnlyImage(Published(s), img);
    }
  }
}
