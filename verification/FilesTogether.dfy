/** Several files that are written at the same time, each by a writer of its own. */
module FilesTogether {
  import opened Basics
  import opened ByteStrings
  import opened Intervals
  import opened FileStores
  import opened FileWriters
  import opened FileSessions

  /** What a writer has in hand. */
  datatype Draft = Draft(done: seq<nat>, table: seq<nat>, ivs: seq<Run>, first: nat, content: seq<Byte>)

  /** The files at work: what their writers have in hand, and the pages and tables each of them takes. */
  datatype Desk = Desk(drafts: seq<Draft>, ids: seq<seq<nat>>, tabs: seq<seq<nat>>)

  ghost predicate Drafted(pages: Blocks, tables: Tables, d: Draft, ids: seq<nat>, tabs: seq<nat>) {
    && Writing(pages, tables, d.done, d.table, d.ivs, d.first, d.content)
    && AllIn(tables, d.done) && ids == FileIds(tables, d.done, d.ivs) && tabs == d.done + d.table
  }

  ghost predicate Finished(pages: Blocks, tables: Tables, fd: FileDescriptor, content: seq<Byte>, ids: seq<nat>,
                           tabs: seq<nat>) {
    IsFile(pages, tables, fd, content, tabs) && AllIn(tables, tabs) && ids == IdsOf(tables, tabs)
  }

  /** The pages and tables of each file are in use, were not used at the beginning, and are not those of another. */
  ghost predicate Separate(ids: seq<seq<nat>>, tabs: seq<seq<nat>>, used: set<nat>, used0: set<nat>) {
    && |ids| == |tabs|
    && (forall k, id | 0 <= k < |ids| && id in ids[k] :: id in used && id !in used0)
    && (forall k, id | 0 <= k < |tabs| && id in tabs[k] :: id in used && id !in used0)
    && (forall k, l | 0 <= k < |ids| && 0 <= l < |ids| && k != l ::
          Disjoint2(ids[k], ids[l]) && Disjoint2(tabs[k], tabs[l]))
  }

  /** The first files are closed, the others open. */
  ghost predicate OnDesk(pages: Blocks, tables: Tables, s: Desk, fds: seq<FileDescriptor>, used0: set<nat>) {
    && INVALID !in tables && |s.drafts| == |s.ids| == |s.tabs| && |fds| <= |s.drafts|
    && Separate(s.ids, s.tabs, pages.Keys + tables.Keys, used0)
    && forall k | 0 <= k < |s.drafts| :: Part(pages, tables, s, fds, k)
  }

  ghost predicate Part(pages: Blocks, tables: Tables, s: Desk, fds: seq<FileDescriptor>, k: nat)
    requires k < |s.drafts| == |s.ids| == |s.tabs|
  {
    if k < |fds| then Finished(pages, tables, fds[k], s.drafts[k].content, s.ids[k], s.tabs[k])
    else Drafted(pages, tables, s.drafts[k], s.ids[k], s.tabs[k])
  }

  /** The writer has this in hand. */
  ghost predicate Holds(w: FileWriter, store: Store, d: Draft)
    reads w, w.pageSequence
  {
    && w.store == store && w.done == d.done && w.table == d.table && w.pageSequence.Valid()
    && w.pageSequence.intervals == d.ivs && w.fd.first == d.first && w.content == d.content
    && w.highWaterMark > 0 && w.fd.fileSize == |w.content| && (w.table == [] ==> w.fd.last == INVALID)
  }

  ghost function DraftOf(w: FileWriter): Draft
    reads w, w.pageSequence
  {
    Draft(w.done, w.table, w.pageSequence.intervals, w.fd.first, w.content)
  }

  lemma HoldsValid(w: FileWriter, store: Store, d: Draft, ids: seq<nat>, tabs: seq<nat>)
    requires Holds(w, store, d) && Drafted(store.pages, store.tables, d, ids, tabs)
    ensures w.Valid() && w.Own() == ids && w.OwnTables() == tabs
  {
  }

  lemma HoldsNow(w: FileWriter, store: Store)
    requires w.Valid() && w.store == store
    ensures Holds(w, store, DraftOf(w))
    ensures Drafted(store.pages, store.tables, DraftOf(w), w.Own(), w.OwnTables())
  {
    DoneIn(store.pages, store.tables, w.done, w.table, w.pageSequence.intervals, w.fd.first, w.content);
  }

  // ------------------------------------------------------------------ one file changes

  /** What another file does leaves a file being written as it is. */
  lemma DraftFrame(pages: Blocks, tables: Tables, pages2: Blocks, tables2: Tables, d: Draft, ids: seq<nat>,
                   tabs: seq<nat>, mine: seq<nat>, myTabs: seq<nat>)
    requires Drafted(pages, tables, d, ids, tabs) && INVALID !in tables2
    requires Kept(pages, pages2, multiset(mine)) && Kept(tables, tables2, multiset(myTabs))
    requires Disjoint2(mine, ids) && Disjoint2(myTabs, tabs)
    ensures Drafted(pages2, tables2, d, ids, tabs)
  {
    hide PagesOf, Apart, Kept, Disjoint2, Bytes, Chained, GoodTables, Body, Listed, Distinct;
    assert forall id | id in ids :: id in pages by {
      InBody(pages, ids, d.content);
    }
    KeptAt(pages, pages2, mine, ids);
    KeptAt(tables, tables2, myTabs, tabs);
    assert forall t | t in d.done :: t in tabs;
    ListedFrame(tables, tables2, d.done);
    BodyFrame(pages, pages2, ids, d.content);
    ChainedFrame(tables, tables2, tabs);
    GoodFrame(tables, tables2, d.done);
  }

  lemma InBody(pages: Blocks, ids: seq<nat>, content: seq<Byte>)
    requires Body(pages, ids, content)
    ensures forall id | id in ids :: id in pages
  {
  }

  lemma BodyFrame(pages: Blocks, pages2: Blocks, ids: seq<nat>, content: seq<Byte>)
    requires Body(pages, ids, content)
    requires forall id | id in ids :: id in pages && id in pages2 && pages2[id] == pages[id]
    ensures Body(pages2, ids, content)
  {
    hide Bytes;
    BytesFrame(pages, pages2, ids);
  }

  lemma ChainedFrame(tables: Tables, tables2: Tables, chain: seq<nat>)
    requires Chained(tables, chain) && forall t | t in chain :: t in tables && t in tables2 && tables2[t] == tables[t]
    ensures Chained(tables2, chain)
  {
  }

  lemma GoodFrame(tables: Tables, tables2: Tables, chain: seq<nat>)
    requires AllIn(tables, chain) && GoodTables(tables, chain)
    requires forall t | t in chain :: t in tables2 && tables2[t] == tables[t]
    ensures AllIn(tables2, chain) && GoodTables(tables2, chain)
  {
    hide Apart;
  }

  lemma KeptAt<T>(was: map<nat, T>, now: map<nat, T>, mine: seq<nat>, other: seq<nat>)
    requires Kept(was, now, multiset(mine)) && Disjoint2(mine, other) && forall id | id in other :: id in was
    ensures forall id | id in other :: id in now && now[id] == was[id]
  {
    forall id | id in other ensures id in now && now[id] == was[id] {
      assert id in multiset(mine) ==> id in mine;
    }
  }

  lemma FinishedFrame(pages: Blocks, tables: Tables, pages2: Blocks, tables2: Tables, fd: FileDescriptor,
                      content: seq<Byte>, ids: seq<nat>, tabs: seq<nat>, mine: seq<nat>, myTabs: seq<nat>)
    requires Finished(pages, tables, fd, content, ids, tabs) && INVALID !in tables2
    requires Kept(pages, pages2, multiset(mine)) && Kept(tables, tables2, multiset(myTabs))
    requires Disjoint2(mine, ids) && Disjoint2(myTabs, tabs)
    ensures Finished(pages2, tables2, fd, content, ids, tabs)
  {
    OtherFile(pages, tables, pages2, tables2, fd, content, tabs, myTabs, mine);
  }

  lemma SeparateStep(ids: seq<seq<nat>>, tabs: seq<seq<nat>>, used: set<nat>, used0: set<nat>, k: nat, ids2: seq<nat>,
                     tabs2: seq<nat>, used2: set<nat>)
    requires Separate(ids, tabs, used, used0) && k < |ids| && used0 <= used <= used2
    requires Longer(ids[k], ids2, used) && Longer(tabs[k], tabs2, used)
    requires forall id | id in ids2 || id in tabs2 :: id in used2
    ensures Separate(ids[k := ids2], tabs[k := tabs2], used2, used0)
  {
    hide Longer, Disjoint2;
    LongerNew(ids[k], ids2, used, used0);
    LongerNew(tabs[k], tabs2, used, used0);
    var a, b := ids[k := ids2], tabs[k := tabs2];
    forall j, l | 0 <= j < |a| && 0 <= l < |a| && j != l ensures Disjoint2(a[j], a[l]) && Disjoint2(b[j], b[l]) {
      if j == k {
        StillApart(ids[k], ids[l], ids2, used);
        StillApart(tabs[k], tabs[l], tabs2, used);
      } else if l == k {
        StillApart(ids[k], ids[j], ids2, used);
        StillApart(tabs[k], tabs[j], tabs2, used);
      }
    }
  }

  lemma LongerNew(was: seq<nat>, now: seq<nat>, used: set<nat>, used0: set<nat>)
    requires Longer(was, now, used) && used0 <= used && forall id | id in was :: id !in used0
    ensures forall id | id in now :: id !in used0
  {
    forall id | id in now ensures id !in used0 {
      var i :| 0 <= i < |now| && now[i] == id;
      if i < |was| {
        assert id == was[i];
      }
    }
  }

  /** File number `k` has grown, and is closed if it is the next one to be. */
  lemma DeskStep(pages: Blocks, tables: Tables, s: Desk, fds: seq<FileDescriptor>, used0: set<nat>, k: nat,
                 pages2: Blocks, tables2: Tables, d: Draft, ids: seq<nat>, tabs: seq<nat>, fds2: seq<FileDescriptor>)
    requires OnDesk(pages, tables, s, fds, used0) && |fds| <= k < |s.drafts| && used0 <= pages.Keys + tables.Keys
    requires Grows(pages, tables, s.ids[k], s.tabs[k], pages2, tables2, ids, tabs) && INVALID !in tables2
    requires if fds2 == fds then Drafted(pages2, tables2, d, ids, tabs)
             else k == |fds| && |fds2| == k + 1 && fds2[..k] == fds
                  && Finished(pages2, tables2, fds2[k], d.content, ids, tabs)
    ensures OnDesk(pages2, tables2, Desk(s.drafts[k := d], s.ids[k := ids], s.tabs[k := tabs]), fds2, used0)
  {
    hide Drafted, Finished, Kept, Longer, Separate;
    var s2 := Desk(s.drafts[k := d], s.ids[k := ids], s.tabs[k := tabs]);
    var used, used2 := pages.Keys + tables.Keys, pages2.Keys + tables2.Keys;
    GrowsIs(pages, tables, s.ids[k], s.tabs[k], pages2, tables2, ids, tabs);
    forall j | 0 <= j < |s.drafts| ensures Part(pages2, tables2, s2, fds2, j) {
      if j != k {
        assert Part(pages, tables, s, fds, j);
        SeparateAt(s.ids, s.tabs, used, used0, k, j);
        if j < |fds| {
          assert fds2 != fds ==> fds2[..k][j] == fds[j];
          FinishedFrame(pages, tables, pages2, tables2, fds[j], s.drafts[j].content, s.ids[j], s.tabs[j], s.ids[k],
                        s.tabs[k]);
        } else {
          DraftFrame(pages, tables, pages2, tables2, s.drafts[j], s.ids[j], s.tabs[j], s.ids[k], s.tabs[k]);
        }
      }
    }
    if fds2 == fds {
      DraftUsed(pages2, tables2, d, ids, tabs);
    } else {
      FinishedUsed(pages2, tables2, fds2[k], d.content, ids, tabs);
    }
    SeparateStep(s.ids, s.tabs, used, used0, k, ids, tabs, used2);
  }

  lemma SeparateAt(ids: seq<seq<nat>>, tabs: seq<seq<nat>>, used: set<nat>, used0: set<nat>, k: nat, j: nat)
    requires Separate(ids, tabs, used, used0) && k < |ids| && j < |ids| && j != k
    ensures |tabs| == |ids| && Disjoint2(ids[k], ids[j]) && Disjoint2(tabs[k], tabs[j])
  {
  }

  lemma DraftUsed(pages: Blocks, tables: Tables, d: Draft, ids: seq<nat>, tabs: seq<nat>)
    requires Drafted(pages, tables, d, ids, tabs)
    ensures forall id | id in ids || id in tabs :: id in pages.Keys + tables.Keys
  {
    hide PagesOf;
  }

  lemma FinishedUsed(pages: Blocks, tables: Tables, fd: FileDescriptor, content: seq<Byte>, ids: seq<nat>,
                     tabs: seq<nat>)
    requires Finished(pages, tables, fd, content, ids, tabs)
    ensures forall id | id in ids || id in tabs :: id in pages.Keys + tables.Keys
  {
    hide PagesOf;
  }

  // ------------------------------------------------------------------ the writers

  function Sequences(writers: seq<FileWriter>): set<object> {
    set w | w in writers :: w.pageSequence
  }

  /** No writer is there twice. */
  ghost predicate OneEach(writers: seq<FileWriter>) {
    forall j, l | 0 <= j < |writers| && 0 <= l < |writers| && j != l ::
      writers[j] != writers[l] && writers[j].pageSequence != writers[l].pageSequence
  }

  /** From number `n` on each writer has in hand what lies on the desk. */
  ghost predicate Manned(writers: seq<FileWriter>, store: Store, drafts: seq<Draft>, n: nat)
    reads writers, Sequences(writers)
  {
    |writers| == |drafts| && forall j | n <= j < |writers| :: Holds(writers[j], store, drafts[j])
  }

  /** One writer writes. */
  method Put(writers: seq<FileWriter>, store: Store, k: nat, data: seq<Byte>, ghost s: Desk, ghost used0: set<nat>)
    returns (ghost s2: Desk)
    requires OneEach(writers) && Manned(writers, store, s.drafts, 0) && k < |writers|
    requires OnDesk(store.pages, store.tables, s, [], used0) && used0 <= store.Used()
    modifies writers[k], writers[k].pageSequence, store
    ensures Manned(writers, store, s2.drafts, 0)
    ensures OnDesk(store.pages, store.tables, s2, [], used0) && used0 <= store.Used()
    ensures |s2.drafts| == |s.drafts| && s2.drafts[k].content == s.drafts[k].content + data
    ensures forall j | 0 <= j < |s.drafts| && j != k :: s2.drafts[j] == s.drafts[j]
    ensures Kept(old(store.pages), store.pages, multiset(s.ids[k]))
    ensures Kept(old(store.tables), store.tables, multiset(s.tabs[k]))
  {
    hide Drafted, OnDesk, Kept, Longer, Grows, FileWriter.Valid, FileWriter.Own, OpenPage;
    var w := writers[k];
    ghost var pages, tables := store.pages, store.tables;
    PartOpen(pages, tables, s, used0, k);
    HoldsValid(w, store, s.drafts[k], s.ids[k], s.tabs[k]);
    ghost var last := w.table;
    w.Write(data);
    HoldsNow(w, store);
    GrowsOnce(pages, tables, s.ids[k], s.tabs[k], store.pages, store.tables, w.Own(), w.OwnTables(),
              s.drafts[k].content, last);
    GrowsIs(pages, tables, s.ids[k], s.tabs[k], store.pages, store.tables, w.Own(), w.OwnTables());
    s2 := Desk(s.drafts[k := DraftOf(w)], s.ids[k := w.Own()], s.tabs[k := w.OwnTables()]);
    NoInvalidIn(store.pages, store.tables, DraftOf(w), w.Own(), w.OwnTables());
    DeskStep(pages, tables, s, [], used0, k, store.pages, store.tables, DraftOf(w), w.Own(), w.OwnTables(), []);
  }

  lemma PartOpen(pages: Blocks, tables: Tables, s: Desk, used0: set<nat>, k: nat)
    requires OnDesk(pages, tables, s, [], used0) && k < |s.drafts|
    ensures |s.drafts| == |s.ids| == |s.tabs| && Drafted(pages, tables, s.drafts[k], s.ids[k], s.tabs[k])
  {
    hide Drafted, Separate;
    assert Part(pages, tables, s, [], k);
  }

  lemma NoInvalidIn(pages: Blocks, tables: Tables, d: Draft, ids: seq<nat>, tabs: seq<nat>)
    requires Drafted(pages, tables, d, ids, tabs)
    ensures INVALID !in tables
  {
  }

  /** The next writer closes its file. */
  method Finish(writers: seq<FileWriter>, store: Store, fds: seq<FileDescriptor>, ghost s: Desk, ghost used0: set<nat>)
    returns (fd: FileDescriptor, ghost s2: Desk)
    requires OneEach(writers) && Manned(writers, store, s.drafts, |fds|) && |fds| < |writers|
    requires OnDesk(store.pages, store.tables, s, fds, used0) && used0 <= store.Used()
    modifies writers[|fds|], writers[|fds|].pageSequence, store
    ensures Manned(writers, store, s2.drafts, |fds| + 1) && s2.drafts == s.drafts
    ensures OnDesk(store.pages, store.tables, s2, fds + [fd], used0) && used0 <= store.Used()
    ensures store.pages == old(store.pages) && Kept(old(store.tables), store.tables, multiset(s.tabs[|fds|]))
  {
    hide Drafted, OnDesk, Kept, Longer, Grows, FileWriter.Valid, FileWriter.Own, OpenPage, IsFile;
    ghost var k := |fds|;
    var w := writers[|fds|];
    ghost var pages, tables := store.pages, store.tables;
    PartNext(pages, tables, s, fds, used0);
    HoldsValid(w, store, s.drafts[k], s.ids[k], s.tabs[k]);
    ghost var last := w.table;
    ghost var chain;
    fd, chain := w.Close();
    LongerSame(s.ids[k], pages.Keys + tables.Keys);
    KeptSame(pages, OpenPage(s.ids[k], s.drafts[k].content));
    GrowsOnce(pages, tables, s.ids[k], s.tabs[k], store.pages, store.tables, s.ids[k], chain, s.drafts[k].content,
              last);
    GrowsIs(pages, tables, s.ids[k], s.tabs[k], store.pages, store.tables, s.ids[k], chain);
    s2 := Desk(s.drafts, s.ids, s.tabs[k := chain]);
    NoInvalid(store.pages, store.tables, fd, s.drafts[k].content, chain);
    assert s.drafts[k := s.drafts[k]] == s.drafts && s.ids[k := s.ids[k]] == s.ids;
    DeskStep(pages, tables, s, fds, used0, k, store.pages, store.tables, s.drafts[k], s.ids[k], chain, fds + [fd]);
  }

  lemma PartNext(pages: Blocks, tables: Tables, s: Desk, fds: seq<FileDescriptor>, used0: set<nat>)
    requires OnDesk(pages, tables, s, fds, used0) && |fds| < |s.drafts|
    ensures |s.drafts| == |s.ids| == |s.tabs|
    ensures Drafted(pages, tables, s.drafts[|fds|], s.ids[|fds|], s.tabs[|fds|])
  {
    hide Drafted, Separate;
    assert Part(pages, tables, s, fds, |fds|);
  }

  /** As many writers as files are open all the time, and what they write comes in any order: each file holds what was
      written to it, no two share a page or a table, and whatever was in the store before stays as it is. */
  method WriteTogether(store: Store, count: nat, writes: seq<Writes>, highWaterMark: nat)
    returns (fds: seq<FileDescriptor>, ghost chains: seq<seq<nat>>)
    requires INVALID !in store.tables && highWaterMark > 0 && forall s | s in writes :: s.file < count
    modifies store
    ensures |fds| == count
    ensures AllFiles(store.pages, store.tables, fds, chains, Contents(writes, count))
    ensures Kept(old(store.pages), store.pages, multiset{}) && Kept(old(store.tables), store.tables, multiset{})
  {
    hide Drafted, OnDesk, Kept, FileWriter.Valid, ContentOf, Contents, AllFiles;
    ghost var used0, s := store.Used(), Desk([], [], []);
    var writers := [];
    DeskEmpty(store.pages, store.tables, used0);
    for k := 0 to count
      invariant |writers| == k && OneEach(writers) && Manned(writers, store, s.drafts, 0)
      invariant forall w | w in writers :: fresh(w) && fresh(w.pageSequence)
      invariant unchanged(store) && OnDesk(store.pages, store.tables, s, [], used0)
      invariant forall j | 0 <= j < k :: s.drafts[j].content == []
    {
      var w := new FileWriter(store, highWaterMark);
      HoldsNow(w, store);
      s := DeskMore(store.pages, store.tables, s, used0, DraftOf(w));
      writers := writers + [w];
    }
    KeptSame(store.pages, multiset{});
    KeptSame(store.tables, multiset{});
    NothingYet(count);
    assert writes[..0] == [];
    for i := 0 to |writes|
      invariant Manned(writers, store, s.drafts, 0) && OnDesk(store.pages, store.tables, s, [], used0)
      invariant used0 <= store.Used() && |s.drafts| == count
      invariant forall j | 0 <= j < count :: s.drafts[j].content == Contents(writes[..i], count)[j]
      invariant Kept(old(store.pages), store.pages, multiset{}) && Kept(old(store.tables), store.tables, multiset{})
    {
      assert writes[i] in writes;
      ContentMore(writes, i, count);
      s := PutAll(writers, store, writes[i].file, writes[i].pieces, s, used0, old(store.pages), old(store.tables));
    }
    assert writes[..|writes|] == writes;
    fds := [];
    for k := 0 to count
      invariant |fds| == k && Manned(writers, store, s.drafts, k) && OnDesk(store.pages, store.tables, s, fds, used0)
      invariant used0 <= store.Used() && |s.drafts| == count
      invariant forall j | 0 <= j < count :: s.drafts[j].content == Contents(writes, count)[j]
      invariant Kept(old(store.pages), store.pages, multiset{}) && Kept(old(store.tables), store.tables, multiset{})
    {
      ghost var tables := store.tables;
      DeskNew(store.pages, store.tables, s, fds, used0, k);
      ghost var mine := s.tabs[k];
      var fd;
      fd, s := Finish(writers, store, fds, s, used0);
      KeptThrough(old(store.tables), tables, store.tables, multiset{}, multiset(mine));
      fds := fds + [fd];
    }
    chains := s.tabs;
    DeskDone(store.pages, store.tables, s, fds, used0, Contents(writes, count));
  }

  /** Each of these files read as a whole is what was written to it. */
  method TogetherAndRead(store: Store, count: nat, writes: seq<Writes>, highWaterMark: nat)
    returns (read: seq<seq<Byte>>)
    requires INVALID !in store.tables && highWaterMark > 0 && forall s | s in writes :: s.file < count
    modifies store
    ensures |read| == count && forall k | 0 <= k < count :: read[k] == ContentOf(writes, k)
  {
    hide AllFiles;
    var fds;
    ghost var chains;
    fds, chains := WriteTogether(store, count, writes, highWaterMark);
    read := ReadAll(store, fds, chains, Contents(writes, count));
  }

  /** One writer writes several pieces. */
  method PutAll(writers: seq<FileWriter>, store: Store, k: nat, pieces: seq<seq<Byte>>, ghost s: Desk,
                ghost used0: set<nat>, ghost pages0: Blocks, ghost tables0: Tables)
    returns (ghost s2: Desk)
    requires OneEach(writers) && Manned(writers, store, s.drafts, 0) && k < |writers|
    requires OnDesk(store.pages, store.tables, s, [], used0) && used0 <= store.Used()
    requires used0 == pages0.Keys + tables0.Keys
    requires Kept(pages0, store.pages, multiset{}) && Kept(tables0, store.tables, multiset{})
    modifies writers[k], writers[k].pageSequence, store
    ensures Manned(writers, store, s2.drafts, 0)
    ensures OnDesk(store.pages, store.tables, s2, [], used0) && used0 <= store.Used()
    ensures |s2.drafts| == |s.drafts| && s2.drafts[k].content == s.drafts[k].content + Concat(pieces)
    ensures forall j | 0 <= j < |s.drafts| && j != k :: s2.drafts[j] == s.drafts[j]
    ensures Kept(pages0, store.pages, multiset{}) && Kept(tables0, store.tables, multiset{})
  {
    hide Drafted, OnDesk, Kept;
    s2 := s;
    NonePut(s.drafts[k].content, pieces);
    for j := 0 to |pieces|
      invariant Manned(writers, store, s2.drafts, 0)
      invariant OnDesk(store.pages, store.tables, s2, [], used0) && used0 <= store.Used()
      invariant |s2.drafts| == |s.drafts| && s2.drafts[k].content == s.drafts[k].content + Concat(pieces[..j])
      invariant forall l | 0 <= l < |s.drafts| && l != k :: s2.drafts[l] == s.drafts[l]
      invariant Kept(pages0, store.pages, multiset{}) && Kept(tables0, store.tables, multiset{})
    {
      ghost var pages, tables, mine := store.pages, store.tables, s2;
      DeskNew(pages, tables, s2, [], used0, k);
      NextPut(s.drafts[k].content, pieces, j);
      s2 := Put(writers, store, k, pieces[j], s2, used0);
      KeptThrough(pages0, pages, store.pages, multiset{}, multiset(mine.ids[k]));
      KeptThrough(tables0, tables, store.tables, multiset{}, multiset(mine.tabs[k]));
    }
    assert pieces[..|pieces|] == pieces;
  }

  lemma DeskEmpty(pages: Blocks, tables: Tables, used0: set<nat>)
    requires INVALID !in tables
    ensures OnDesk(pages, tables, Desk([], [], []), [], used0)
  {
  }

  /** A writer that has nothing in hand yet. */
  lemma DeskMore(pages: Blocks, tables: Tables, s: Desk, used0: set<nat>, d: Draft) returns (s2: Desk)
    requires OnDesk(pages, tables, s, [], used0) && d.content == []
    requires exists ids, tabs :: Drafted(pages, tables, d, ids, tabs)
    ensures OnDesk(pages, tables, s2, [], used0) && s2.drafts == s.drafts + [d]
  {
    hide Separate;
    s2 := Desk(s.drafts + [d], s.ids + [[]], s.tabs + [[]]);
    forall k | 0 <= k < |s2.drafts| ensures Part(pages, tables, s2, [], k) {
      if k < |s.drafts| {
        assert Part(pages, tables, s, [], k);
      }
    }
    SeparateMore(s.ids, s.tabs, pages.Keys + tables.Keys, used0);
  }

  lemma SeparateMore(ids: seq<seq<nat>>, tabs: seq<seq<nat>>, used: set<nat>, used0: set<nat>)
    requires Separate(ids, tabs, used, used0)
    ensures Separate(ids + [[]], tabs + [[]], used, used0)
  {
  }

  lemma NothingYet(count: nat)
    ensures forall j | 0 <= j < count :: Contents([], count)[j] == []
  {
  }

  lemma DeskNew(pages: Blocks, tables: Tables, s: Desk, fds: seq<FileDescriptor>, used0: set<nat>, k: nat)
    requires OnDesk(pages, tables, s, fds, used0) && k < |s.drafts|
    ensures k < |s.ids| == |s.tabs|
    ensures forall id | id in multiset(s.ids[k]) || id in multiset(s.tabs[k]) :: id !in used0
  {
    forall id | id in multiset(s.ids[k]) || id in multiset(s.tabs[k]) ensures id !in used0 {
      assert id in s.ids[k] || id in s.tabs[k];
    }
  }

  lemma DeskDone(pages: Blocks, tables: Tables, s: Desk, fds: seq<FileDescriptor>, used0: set<nat>,
                 contents: seq<seq<Byte>>)
    requires OnDesk(pages, tables, s, fds, used0) && |fds| == |s.drafts| == |contents|
    requires forall j | 0 <= j < |contents| :: s.drafts[j].content == contents[j]
    ensures AllFiles(pages, tables, fds, s.tabs, contents)
  {
    hide IsFile, Disjoint2;
    forall k | 0 <= k < |fds|
      ensures IsFile(pages, tables, fds[k], contents[k], s.tabs[k]) && AllIn(tables, s.tabs[k])
      ensures AllIn(tables, s.tabs[k]) && IdsOf(tables, s.tabs[k]) == s.ids[k]
    {
      assert Part(pages, tables, s, fds, k);
    }
  }
}
