/** Writing files. */
module FileWriters {
  import opened Basics
  import opened ByteStrings
  import opened Intervals
  import opened FileTables
  import opened FileStores

  /** A file being written: the tables `done` are finished, `ivs` are the intervals that follow, and they
      replace what the last table, if there is one, lists. */
  ghost predicate Writing(pages: Blocks, tables: Tables, done: seq<nat>, table: seq<nat>, ivs: seq<Run>, first: nat,
                          content: seq<Byte>) {
    && INVALID !in tables && |table| <= 1 && AllIn(tables, done) && AllIn(tables, done + table)
    && Distinct(done + table) && Chained(tables, done + table) && GoodTables(tables, done) && Apart(ivs)
    && (if table == [] then done == [] && first == INVALID else first == (done + table)[0])
    && (ivs == [] <==> content == []) && (content == [] ==> table == [])
    && Body(pages, PagesOf(Listed(tables, done)) + PagesOf(ivs), content)
  }

  /** The pages of a file being written, in order. */
  ghost function FileIds(tables: Tables, done: seq<nat>, ivs: seq<Run>): seq<nat>
    requires AllIn(tables, done)
  {
    PagesOf(Listed(tables, done)) + PagesOf(ivs)
  }

  /** The last page takes more bytes. */
  lemma FillStep(pages: Blocks, tables: Tables, done: seq<nat>, table: seq<nat>, ivs: seq<Run>, first: nat,
                 content: seq<Byte>,
                 chunk: seq<Byte>)
    requires Writing(pages, tables, done, table, ivs, first, content)
    requires |content| % PAGE != 0 && |content| % PAGE + |chunk| <= PAGE
    ensures ivs != []
    ensures var last := ivs[|ivs| - 1].end - 1;
      && last in pages
      && Writing(pages[last := Overwritten(pages[last], |content| % PAGE, chunk)], tables, done, table, ivs, first,
                 content + chunk)
      && AllIn(tables, done) && OpenPage(FileIds(tables, done, ivs), content) == multiset{last}
  {
    hide Body, PagesOf, Pages;
    var ids := PagesOf(Listed(tables, done)) + PagesOf(ivs);
    FillLast(pages, ids, content, chunk);
    LastPage(PagesOf(Listed(tables, done)), ivs);
    LastIn(pages, ids, content);
  }

  lemma DoneIn(pages: Blocks, tables: Tables, done: seq<nat>, table: seq<nat>, ivs: seq<Run>, first: nat,
               content: seq<Byte>)
    requires Writing(pages, tables, done, table, ivs, first, content)
    ensures AllIn(tables, done) && AllIn(tables, done + table)
  {
  }

  lemma LastPage(a: seq<nat>, ivs: seq<Run>)
    requires ivs != []
    ensures a + PagesOf(ivs) != [] && (a + PagesOf(ivs))[|a + PagesOf(ivs)| - 1] == ivs[|ivs| - 1].end - 1
  {
    PagesLast(ivs);
  }

  lemma LastIn(pages: Blocks, ids: seq<nat>, content: seq<Byte>)
    requires Body(pages, ids, content) && ids != []
    ensures ids[|ids| - 1] in pages
  {
  }

  /** Fresh pages come behind full ones. */
  lemma PagesStep(pages: Blocks, tables: Tables, done: seq<nat>, table: seq<nat>, ivs: seq<Run>, first: nat,
                  content: seq<Byte>,
                  pages2: Blocks, iv: Run, data: seq<Byte>)
    requires Writing(pages, tables, done, table, ivs, first, content) && |content| % PAGE == 0
    requires forall id | id in Pages(iv) :: id !in pages
    requires forall id | id in pages :: id in pages2 && pages2[id] == pages[id]
    requires AllIn(pages2, Pages(iv)) && data != []
    requires |data| <= PAGE * Length(iv) < |data| + PAGE && Bytes(pages2, Pages(iv))[..|data|] == data
    ensures Writing(pages2, tables, done, table, Push(ivs, iv), first, content + data)
    ensures AllIn(tables, done) && FileIds(tables, done, Push(ivs, iv)) == FileIds(tables, done, ivs) + Pages(iv)
  {
    hide Body, PagesOf, Apart, Bytes;
    PushPages(ivs, iv);
    var a := PagesOf(Listed(tables, done));
    AddPages(pages, a + PagesOf(ivs), content, pages2, Pages(iv), data);
    assert a + PagesOf(ivs) + Pages(iv) == a + (PagesOf(ivs) + Pages(iv));
  }

  class FileWriter {
    const store: Store
    const pageSequence: IntervalSequence
    const highWaterMark: nat
    var table: seq<nat>
    var fd: FileDescriptor
    /** The tables that are finished, and all bytes written. */
    ghost var done: seq<nat>
    ghost var content: seq<Byte>

    ghost predicate Valid()
      reads this, store, pageSequence
    {
      && pageSequence.Valid() && highWaterMark > 0 && fd.fileSize == |content| && (table == [] ==> fd.last == INVALID)
      && Writing(store.pages, store.tables, done, table, pageSequence.intervals, fd.first, content)
    }

    /** The pages and tables of the file. */
    ghost function Own(): seq<nat>
      requires Valid()
      reads this, store, pageSequence
    {
      FileIds(store.tables, done, pageSequence.intervals)
    }

    ghost function OwnTables(): seq<nat>
      reads this
    {
      done + table
    }

    /** The last table lists what is in the page sequence. */
    ghost predicate InTables()
      reads this, store, pageSequence
    {
      |table| == 1 && table[0] in store.tables && pageSequence.intervals == store.tables[table[0]].intervals
    }

    constructor (store: Store, highWaterMark: nat)
      requires highWaterMark > 0 && INVALID !in store.tables
      ensures Valid() && content == [] && this.store == store && fresh(pageSequence)
    {
      this.store := store;
      this.highWaterMark := highWaterMark;
      pageSequence := new IntervalSequence();
      table, fd, done, content := [], NO_FILE, [], [];
    }

    /** Appends to the file; a long list of intervals goes to the tables at once. */
    method Write(data: seq<Byte>)
      requires Valid()
      modifies this, store, pageSequence
      ensures Valid() && content == old(content) + data
      ensures Kept(old(store.pages), store.pages, OpenPage(old(Own()), old(content)))
      ensures Kept(old(store.tables), store.tables, multiset(old(table)))
      ensures Longer(old(Own()), Own(), old(store.Used())) && Longer(old(OwnTables()), OwnTables(), old(store.Used()))
      ensures old(store.Used()) <= store.Used() && (old(store.Apart()) ==> store.Apart())
      ensures InTables() || (|pageSequence.intervals| < highWaterMark && store.tables == old(store.tables)
                             && OwnTables() == old(OwnTables()))
    {
      hide Writing, Flushed, Kept, Longer, FileIds, OpenPage;
      KeptSame(store.tables, multiset(table));
      LongerSame(OwnTables(), store.Used());
      ghost var used, ids := store.Used(), Own();
      WriteBytes(data);
      fd := fd.(fileSize := fd.fileSize + |data|);
      content := content + data;
      EmptyOnly(store.pages, store.tables, done, table, pageSequence.intervals, fd.first, content);
      if |pageSequence.intervals| >= highWaterMark {
        ghost var mid, between := Own(), store.Used();
        PushFileTable();
        Reload();
        assert Own() == mid;
        LongerThrough(old(OwnTables()), old(OwnTables()), OwnTables(), used, between);
      }
    }

    /** Appends to the last page, then whole pages, then the beginning of one more. */
    method WriteBytes(data: seq<Byte>)
      requires Valid()
      modifies store`pages, pageSequence
      ensures pageSequence.Valid() && (|pageSequence.intervals| > 0 || content + data == [])
      ensures Writing(store.pages, store.tables, done, table, pageSequence.intervals, fd.first, content + data)
      ensures AllIn(store.tables, done)
      ensures Kept(old(store.pages), store.pages, OpenPage(old(Own()), content))
      ensures Longer(old(Own()), FileIds(store.tables, done, pageSequence.intervals), old(store.Used()))
      ensures old(store.Used()) <= store.Used() && (old(store.Apart()) ==> store.Apart())
    {
      hide Writing, PagesOf, Bytes, Kept, Longer, FileIds, OpenPage;
      ghost var open := OpenPage(Own(), content);
      KeptSame(store.pages, open);
      LongerSame(Own(), store.Used());
      DoneIn(store.pages, store.tables, done, table, pageSequence.intervals, fd.first, content);
      var blockSize, begin := |data|, 0;
      assert data[..0] == [] && content + [] == content;
      if fd.fileSize % PAGE != 0 {
        begin := WriteRest(data);
      }
      var pages := (blockSize - begin) / PAGE;
      while pages > 0
        invariant 0 <= begin <= blockSize && pages == (blockSize - begin) / PAGE
        invariant (begin < blockSize ==> (|content| + begin) % PAGE == 0)
        invariant pageSequence.Valid()
        invariant Writing(store.pages, store.tables, done, table, pageSequence.intervals, fd.first,
                          content + data[..begin])
        invariant Kept(old(store.pages), store.pages, open)
        invariant Longer(old(Own()), FileIds(store.tables, done, pageSequence.intervals), old(store.Used()))
        invariant old(store.Used()) <= store.Used() && (old(store.Apart()) ==> store.Apart())
        decreases pages
      {
        ghost var mid, ids, used := store.pages, FileIds(store.tables, done, pageSequence.intervals), store.Used();
        var count := WriteWhole(data[begin..], pages, content + data[..begin]);
        KeptThrough(old(store.pages), mid, store.pages, open, multiset{});
        LongerThrough(old(Own()), ids, FileIds(store.tables, done, pageSequence.intervals), old(store.Used()), used);
        WholeWritten(content, data, begin, pages, count);
        begin := begin + PAGE * count;
        pages := pages - count;
      }
      if begin < blockSize {
        ghost var mid, ids, used := store.pages, FileIds(store.tables, done, pageSequence.intervals), store.Used();
        WriteBeginning(data[begin..], content + data[..begin]);
        KeptThrough(old(store.pages), mid, store.pages, open, multiset{});
        LongerThrough(old(Own()), ids, FileIds(store.tables, done, pageSequence.intervals), old(store.Used()), used);
        assert content + data[..begin] + data[begin..] == content + data;
      } else {
        assert data[..begin] == data;
      }
      EmptyOnly(store.pages, store.tables, done, table, pageSequence.intervals, fd.first, content + data);
    }

    /** Whole pages, as many as an interval has. */
    method WriteWhole(data: seq<Byte>, pages: nat, ghost sofar: seq<Byte>) returns (count: nat)
      requires pageSequence.Valid() && pages > 0 && PAGE * pages <= |data| && |sofar| % PAGE == 0
      requires Writing(store.pages, store.tables, done, table, pageSequence.intervals, fd.first, sofar)
      requires AllIn(store.tables, done)
      modifies store`pages, pageSequence
      ensures 0 < count <= pages && pageSequence.Valid()
      ensures Writing(store.pages, store.tables, done, table, pageSequence.intervals, fd.first,
                      sofar + data[..PAGE * count])
      ensures AllIn(store.tables, done) && Kept(old(store.pages), store.pages, multiset{})
      ensures Longer(old(FileIds(store.tables, done, pageSequence.intervals)),
                     FileIds(store.tables, done, pageSequence.intervals), old(store.Used()))
      ensures old(store.Used()) <= store.Used() && (old(store.Apart()) ==> store.Apart())
    {
      hide Writing, PagesOf, Bytes, FileIds, Longer;
      ghost var before := store.pages;
      var iv := store.AllocateInterval(pages);
      count := Length(iv);
      var n := PAGE * count;
      store.WritePages(iv, data[..n]);
      assert Bytes(store.pages, Pages(iv))[..n] == data[..n];
      PagesStep(before, store.tables, done, table, pageSequence.intervals, fd.first, sofar, store.pages, iv, data[..n]);
      LongerBy(FileIds(store.tables, done, pageSequence.intervals), Pages(iv), before.Keys + store.tables.Keys);
      pageSequence.PushBack(iv);
    }

    method WriteRest(data: seq<Byte>) returns (begin: nat)
      requires Valid() && |content| % PAGE != 0
      modifies store`pages
      ensures begin <= |data| && (begin < |data| ==> (|content| + begin) % PAGE == 0)
      ensures Writing(store.pages, store.tables, done, table, pageSequence.intervals, fd.first, content + data[..begin])
      ensures AllIn(store.tables, done) && store.pages.Keys == old(store.pages).Keys
      ensures Kept(old(store.pages), store.pages, OpenPage(old(Own()), content))
    {
      hide Writing, PagesOf, Bytes, FileIds;
      var offset := fd.fileSize % PAGE;
      begin := if PAGE - offset < |data| then PAGE - offset else |data|;
      FillStep(store.pages, store.tables, done, table, pageSequence.intervals, fd.first, content, data[..begin]);
      store.WritePage(pageSequence.intervals[|pageSequence.intervals| - 1].end - 1, offset, data[..begin]);
      FilledUp(|content|, begin, |data|);
    }

    method WriteBeginning(data: seq<Byte>, ghost sofar: seq<Byte>)
      requires pageSequence.Valid() && 0 < |data| < PAGE && |sofar| % PAGE == 0
      requires Writing(store.pages, store.tables, done, table, pageSequence.intervals, fd.first, sofar)
      requires AllIn(store.tables, done)
      modifies store`pages, pageSequence
      ensures pageSequence.Valid()
      ensures Writing(store.pages, store.tables, done, table, pageSequence.intervals, fd.first, sofar + data)
      ensures AllIn(store.tables, done) && Kept(old(store.pages), store.pages, multiset{})
      ensures Longer(old(FileIds(store.tables, done, pageSequence.intervals)),
                     FileIds(store.tables, done, pageSequence.intervals), old(store.Used()))
      ensures old(store.Used()) <= store.Used() && (old(store.Apart()) ==> store.Apart())
    {
      hide Writing, PagesOf, Bytes, FileIds, Longer;
      ghost var before := store.pages;
      var iv := store.AllocateInterval(1);
      Single(iv);
      store.WritePage(iv.begin, 0, data);
      BytesOne(store.pages, iv.begin);
      assert store.pages[iv.begin][..|data|] == data;
      PagesStep(before, store.tables, done, table, pageSequence.intervals, fd.first, sofar, store.pages, iv, data);
      LongerBy(FileIds(store.tables, done, pageSequence.intervals), Pages(iv), before.Keys + store.tables.Keys);
      pageSequence.PushBack(iv);
    }

    /** Moves the page sequence into tables: the last table of the file, if there is one, is written again,
        and new tables are chained to it. No table of another file is touched. */
    method PushFileTable()
      requires Valid()
      modifies this, store, pageSequence
      ensures content == old(content) && pageSequence.Valid() && store.pages == old(store.pages)
      ensures content == [] ==> Valid() && table == [] && done == [] && fd == NO_FILE && INVALID !in store.tables
      ensures content != [] ==> Flushed(store.pages, store.tables, done + table, [], fd.first, content) && |table| == 1
      ensures pageSequence.intervals == [] && fd.fileSize == |content| && INVALID !in store.tables
      ensures AllIn(store.tables, done + table) && FileIds(store.tables, done + table, []) == old(Own())
      ensures Kept(old(store.tables), store.tables, multiset(old(table)))
      ensures Longer(old(OwnTables()), OwnTables(), old(store.Used()))
      ensures old(store.Used()) <= store.Used() && (old(store.Apart()) ==> store.Apart())
    {
      hide Writing, Flushed, Kept, Longer, FileIds, Store.Apart, Room;
      EmptyOnly(store.pages, store.tables, done, table, pageSequence.intervals, fd.first, content);
      DoneIn(store.pages, store.tables, done, table, pageSequence.intervals, fd.first, content);
      KeptSame(store.tables, multiset(table));
      LongerSame(OwnTables(), store.Used());
      if pageSequence.intervals == [] {
        assert done + table == done;
        return;
      }
      var cur;
      ghost var chain;
      cur, chain := FillFirst();
      while pageSequence.intervals != []
        invariant pageSequence.Valid() && store.pages == old(store.pages) && fd == old(fd).(first := fd.first)
        invariant content == old(content)
        invariant Flushed(store.pages, store.tables, chain, pageSequence.intervals, fd.first, content)
        invariant chain != [] && cur == chain[|chain| - 1] && AllIn(store.tables, chain)
        invariant FileIds(store.tables, chain, pageSequence.intervals) == old(Own())
        invariant Kept(old(store.tables), store.tables, multiset(old(table)))
        invariant cur in multiset(old(table)) || cur !in old(store.tables)
        invariant Longer(old(OwnTables()), chain, old(store.Used()))
        invariant old(store.Used()) <= store.Used() && (old(store.Apart()) ==> store.Apart())
        decreases |pageSequence.intervals|
      {
        ghost var before, used, ivs := store.tables, store.Used(), pageSequence.intervals;
        RoomForOne(ivs);
        InChain(before, chain);
        var next := ChainTable(cur);
        FlushNext(store.pages, before, chain, ivs, fd.first, content, next);
        NextKept(old(store.tables), before, multiset(old(table)), cur, next, ivs[..Room(ivs, 0)]);
        LongerBy(chain, [next], used);
        LongerThrough(old(OwnTables()), chain, chain + [next], old(store.Used()), used);
        cur := next;
        chain := chain + [next];
      }
      table, done := [cur], chain[..|chain| - 1];
      assert done + table == chain;
      FlushedFacts(store.pages, store.tables, chain, [], fd.first, content);
    }

    /** The last table of the file, or a new one if there is none, is filled first. */
    method FillFirst() returns (cur: nat, ghost chain: seq<nat>)
      requires Valid() && pageSequence.intervals != []
      modifies this`fd, store`tables, pageSequence
      ensures pageSequence.Valid() && fd == old(fd).(first := fd.first)
      ensures Flushed(store.pages, store.tables, chain, pageSequence.intervals, fd.first, content)
      ensures chain != [] && cur == chain[|chain| - 1] && AllIn(store.tables, chain)
      ensures FileIds(store.tables, chain, pageSequence.intervals) == old(Own())
      ensures Kept(old(store.tables), store.tables, multiset(table))
      ensures cur in multiset(table) || cur !in old(store.tables)
      ensures Longer(OwnTables(), chain, old(store.Used()))
      ensures old(store.Used()) <= store.Used() && (old(store.Apart()) ==> store.Apart())
    {
      hide Writing, Flushed, Kept, Longer, FileIds, Room;
      EmptyOnly(store.pages, store.tables, done, table, pageSequence.intervals, fd.first, content);
      ghost var tables, part := store.tables, pageSequence.intervals[..Room(pageSequence.intervals, 0)];
      KeptSame(tables, multiset(table));
      if table == [] {
        cur := store.NewTable();
      } else {
        cur := table[0];
      }
      FlushFirst(store.pages, tables, done, table, pageSequence.intervals, fd.first, content, cur);
      chain := done + [cur];
      FirstTable(tables, done, table, cur, store.pages.Keys + tables.Keys);
      KeptOne(tables, tables, multiset(table), cur, Table(INVALID, part));
      OnlyFirst(tables, table, cur, part);
      Transfer(cur, store.tables[cur].next);
      if fd.first == INVALID {
        fd := fd.(first := cur);
      }
    }

    /** A new table behind the last one, filled with what finds room of the page sequence. */
    method ChainTable(cur: nat) returns (next: nat)
      requires pageSequence.Valid() && cur in store.tables
      modifies store`tables, pageSequence
      ensures pageSequence.Valid() && next !in old(store.Used()) && next != INVALID
      ensures pageSequence.intervals == old(pageSequence.intervals)[Room(old(pageSequence.intervals), 0)..]
      ensures var ivs, before := old(pageSequence.intervals), old(store.tables);
        store.tables == before[next := Table(INVALID, ivs[..Room(ivs, 0)])][cur := Table(next, before[cur].intervals)]
      ensures old(store.Used()) <= store.Used() && (old(store.Apart()) ==> store.Apart())
    {
      hide Room;
      next := store.NewTable();
      Transfer(next, INVALID);
      store.tables := store.tables[cur := store.tables[cur].(next := next)];
    }

    /** Fills a table with as much of the page sequence as finds room in it. */
    method Transfer(id: nat, next: nat)
      requires pageSequence.Valid() && id in store.tables && store.tables[id].next == next
      modifies store`tables, pageSequence
      ensures pageSequence.Valid()
      ensures pageSequence.intervals == old(pageSequence.intervals)[Room(old(pageSequence.intervals), 0)..]
      ensures var ivs := old(pageSequence.intervals);
        store.tables == old(store.tables)[id := Table(next, ivs[..Room(ivs, 0)])]
    {
      ghost var all := pageSequence.intervals;
      var n := Room(pageSequence.intervals, 0);
      var taken := pageSequence.intervals[..n];
      for i := 0 to n
        invariant pageSequence.Valid() && pageSequence.intervals == all[i..] && store.tables == old(store.tables)
      {
        var _ := pageSequence.PopFront();
      }
      store.tables := store.tables[id := store.tables[id].(intervals := taken)];
    }

    /** Takes the intervals of the last table into the page sequence again. */
    method Reload()
      requires |table| == 1 && Flushed(store.pages, store.tables, done + table, [], fd.first, content)
      requires pageSequence.Valid() && pageSequence.intervals == [] && highWaterMark > 0 && fd.fileSize == |content|
      requires AllIn(store.tables, done + table)
      modifies pageSequence
      ensures Valid() && InTables() && Own() == FileIds(store.tables, done + table, [])
    {
      hide Flushed, Writing, PushAll, Apart, PagesOf, Push, FileIds;
      assert table == [table[0]];
      ReloadStep(store.pages, store.tables, done, table[0], fd.first, content);
      var part := store.tables[table[0]].intervals;
      PushNone();
      for i := 0 to |part|
        invariant pageSequence.Valid() && pageSequence.intervals == PushAll([], part[..i])
      {
        PushNext([], part, i);
        pageSequence.PushBack(part[i]);
      }
      assert part[..|part|] == part;
    }

    /** The finished file. The writer is ready for the next one. */
    method Close() returns (r: FileDescriptor, ghost chain: seq<nat>)
      requires Valid()
      modifies this, store, pageSequence
      ensures IsFile(store.pages, store.tables, r, old(content), chain) && store.pages == old(store.pages)
      ensures Valid() && content == []
      ensures AllIn(store.tables, chain) && PagesOf(Listed(store.tables, chain)) == old(Own())
      ensures Kept(old(store.tables), store.tables, multiset(old(table)))
      ensures Longer(old(OwnTables()), chain, old(store.Used()))
      ensures old(store.Used()) <= store.Used() && (old(store.Apart()) ==> store.Apart())
    {
      hide Writing, Flushed, IsFile, PagesOf, Kept, Longer;
      PushFileTable();
      PagesNone();
      if table != [] {
        fd := fd.(last := table[0]);
      }
      r, chain := fd, done + table;
      CloseStep(store.pages, store.tables, done, table, fd, content);
      fd, table, done, content := NO_FILE, [], [], [];
      NothingWritten(store.pages, store.tables);
    }

    /** Goes on where a finished file ends. */
    method OpenAppend(file: FileDescriptor, ghost chain: seq<nat>, ghost was: seq<Byte>)
      requires Valid() && content == [] && IsFile(store.pages, store.tables, file, was, chain)
      modifies this, pageSequence
      ensures Valid() && content == was && OwnTables() == chain
      ensures AllIn(store.tables, chain) && Own() == PagesOf(Listed(store.tables, chain))
    {
      hide Writing, Flushed, IsFile, PagesOf;
      PagesNone();
      OpenStep(store.pages, store.tables, file, was, chain);
      pageSequence.Clear();
      content := was;
      if file != NO_FILE {
        fd := file;
        table, done := [file.last], chain[..|chain| - 1];
        Reload();
      } else {
        fd, table, done := NO_FILE, [], [];
        NothingWritten(store.pages, store.tables);
      }
    }
  }

  /** Tables hold part of a file, and `ivs` are the intervals that still have to find a place. */
  ghost predicate Flushed(pages: Blocks, tables: Tables, chain: seq<nat>, ivs: seq<Run>, first: nat,
                          content: seq<Byte>) {
    && INVALID !in tables && chain != [] && AllIn(tables, chain) && Distinct(chain) && Chained(tables, chain)
    && GoodTables(tables, chain)
    && first == chain[0] && content != [] && Apart(ivs)
    && Body(pages, PagesOf(Listed(tables, chain)) + PagesOf(ivs), content)
  }

  lemma FlushedFacts(pages: Blocks, tables: Tables, chain: seq<nat>, ivs: seq<Run>, first: nat, content: seq<Byte>)
    requires Flushed(pages, tables, chain, ivs, first, content)
    ensures INVALID !in tables && content != []
  {
  }

  /** The first table filled is the last one of the file, or a new one. */
  lemma FirstTable(tables: Tables, done: seq<nat>, table: seq<nat>, cur: nat, used: set<nat>)
    requires |table| <= 1 && (table == [] ==> done == []) && if table == [] then cur !in used else cur == table[0]
    ensures Longer(done + table, done + [cur], used)
    ensures table != [] ==> cur in multiset(table)
  {
    if table != [] {
      assert table == [cur];
    }
  }

  lemma OnlyFirst(tables: Tables, table: seq<nat>, cur: nat, part: seq<Run>)
    requires if table == [] then cur !in tables else cur in multiset(table)
    ensures Kept(tables, tables[cur := Table(INVALID, [])][cur := Table(INVALID, part)], multiset(table))
  {
  }

  lemma NextKept(was: Tables, now: Tables, mine: multiset<nat>, cur: nat, next: nat, part: seq<Run>)
    requires Kept(was, now, mine) && cur in now && (cur in mine || cur !in was) && next !in now && next !in was
    ensures Kept(was, now[next := Table(INVALID, part)][cur := Table(next, now[cur].intervals)], mine)
  {
  }

  lemma InChain(tables: Tables, chain: seq<nat>)
    requires chain != [] && AllIn(tables, chain)
    ensures chain[|chain| - 1] in tables
  {
  }

  lemma PushNone()
    ensures PushAll([], []) == []
  {
  }

  lemma Single(iv: Run)
    requires Length(iv) <= 1
    ensures Pages(iv) == [iv.begin]
  {
  }

  lemma PushNext(was: seq<Run>, ivs: seq<Run>, k: nat)
    requires k < |ivs|
    ensures PushAll(was, ivs[..k + 1]) == Push(PushAll(was, ivs[..k]), ivs[k])
  {
    assert ivs[..k + 1][..k] == ivs[..k];
  }

  lemma WholeWritten(content: seq<Byte>, data: seq<Byte>, begin: nat, pages: nat, count: nat)
    requires begin <= |data| && pages == (|data| - begin) / PAGE && count <= pages && (|content| + begin) % PAGE == 0
    ensures var end := begin + PAGE * count;
      && end <= |data| && content + data[..begin] + data[begin..][..PAGE * count] == content + data[..end]
      && pages - count == (|data| - end) / PAGE && (|content| + end) % PAGE == 0
  {
    var end := begin + PAGE * count;
    assert data[..begin] + data[begin..][..PAGE * count] == data[..end];
  }

  lemma EmptyOnly(pages: Blocks, tables: Tables, done: seq<nat>, table: seq<nat>, ivs: seq<Run>, first: nat,
                  content: seq<Byte>)
    requires Writing(pages, tables, done, table, ivs, first, content)
    ensures (ivs == [] <==> content == []) && INVALID !in tables
    ensures content == [] ==> table == [] && done == [] && first == INVALID
    ensures |table| <= 1 && AllIn(tables, table) && (first == INVALID <==> table == []) && (table == [] ==> done == [])
  {
    if table != [] {
      assert (done + table)[0] in tables;
      assert (done + table)[|done|] == table[0];
    }
  }

  lemma NothingWritten(pages: Blocks, tables: Tables)
    requires INVALID !in tables
    ensures Writing(pages, tables, [], [], [], INVALID, [])
  {
  }


  lemma FilledUp(size: nat, begin: nat, blockSize: nat)
    requires size % PAGE != 0 && begin == if PAGE - size % PAGE < blockSize then PAGE - size % PAGE else blockSize
    ensures begin < blockSize ==> (size + begin) % PAGE == 0
  {
  }

  lemma Splits(ivs: seq<Run>)
    requires ivs != [] && Apart(ivs)
    ensures var n := Room(ivs, 0);
      && 0 < n <= |ivs| && Apart(ivs[..n]) && ivs[..n] != [] && Apart(ivs[n..])
      && PagesOf(ivs[..n]) + PagesOf(ivs[n..]) == PagesOf(ivs)
  {
    hide PagesOf, Room;
    RoomForOne(ivs);
    var n := Room(ivs, 0);
    assert ivs == ivs[..n] + ivs[n..];
    PagesAppend(ivs[..n], ivs[n..]);
    assert forall i | 0 <= i < |ivs| - n :: ivs[n..][i] == ivs[n + i];
  }

  /** The part of a file in its tables when one more table is filled. */
  lemma ListedMore(tables: Tables, tables2: Tables, chain: seq<nat>, cur: nat, part: seq<Run>, rest: seq<Run>,
                   ivs: seq<Run>)
    requires AllIn(tables, chain) && cur in tables2 && tables2[cur].intervals == part
    requires forall i | 0 <= i < |chain| ::
             chain[i] in tables2 && tables2[chain[i]].intervals == tables[chain[i]].intervals
    requires PagesOf(part) + PagesOf(rest) == PagesOf(ivs)
    ensures AllIn(tables2, chain + [cur])
    ensures PagesOf(Listed(tables2, chain + [cur])) + PagesOf(rest) == PagesOf(Listed(tables, chain)) + PagesOf(ivs)
  {
    hide PagesOf;
    ListedFrame(tables, tables2, chain);
    var all := chain + [cur];
    assert all[..|all| - 1] == chain && all[|all| - 1] == cur;
    assert Listed(tables2, all) == Listed(tables, chain) + part;
    hide *;
    PagesSplit(Listed(tables, chain), part, rest, ivs);
  }

  lemma PagesSplit(was: seq<Run>, part: seq<Run>, rest: seq<Run>, ivs: seq<Run>)
    requires PagesOf(part) + PagesOf(rest) == PagesOf(ivs)
    ensures PagesOf(was + part) + PagesOf(rest) == PagesOf(was) + PagesOf(ivs)
  {
    hide PagesOf;
    PagesAppend(was, part);
  }

  /** The first table takes its part. */
  lemma {:induction false} FlushFirst(pages: Blocks, tables: Tables, done: seq<nat>, table: seq<nat>, ivs: seq<Run>,
                                      first: nat, content: seq<Byte>, cur: nat)
    requires Writing(pages, tables, done, table, ivs, first, content) && ivs != []
    requires if table == [] then cur !in tables && cur != INVALID else cur == table[0]
    ensures var tables0, n := if table == [] then tables[cur := Table(INVALID, [])] else tables, Room(ivs, 0);
      && cur in tables0 && tables0[cur].next == INVALID
      && Flushed(pages, tables0[cur := Table(INVALID, ivs[..n])], done + [cur], ivs[n..],
                 if first == INVALID then cur else first, content)
      && AllIn(tables, done) && AllIn(tables0[cur := Table(INVALID, ivs[..n])], done + [cur])
      && FileIds(tables0[cur := Table(INVALID, ivs[..n])], done + [cur], ivs[n..]) == FileIds(tables, done, ivs)
  {
    hide PagesOf, Listed, Body, Room, Apart;
    Splits(ivs);
    EmptyOnly(pages, tables, done, table, ivs, first, content);
    var tables0, n := if table == [] then tables[cur := Table(INVALID, [])] else tables, Room(ivs, 0);
    var tables2 := tables0[cur := Table(INVALID, ivs[..n])];
    if table != [] {
      assert done + table == done + [cur] && (done + [cur])[|done|] == cur;
    }
    forall i | 0 <= i < |done| ensures done[i] != cur && done[i] in tables {
      assert (done + table)[i] == done[i];
    }
    ListedMore(tables, tables2, done, cur, ivs[..n], ivs[n..], ivs);
    FirstGood(tables, tables2, done, cur, table, ivs[..n]);
  }

  lemma FirstGood(tables: Tables, tables2: Tables, done: seq<nat>, cur: nat, table: seq<nat>, part: seq<Run>)
    requires AllIn(tables, done) && GoodTables(tables, done) && Apart(part) && part != [] && |table| <= 1
    requires AllIn(tables, done + table) && Chained(tables, done + table)
    requires (if table == [] then done == [] else table == [cur])
    requires cur in tables2 && tables2[cur] == Table(INVALID, part)
    requires forall i | 0 <= i < |done| :: done[i] in tables2 && tables2[done[i]] == tables[done[i]]
    ensures AllIn(tables2, done + [cur]) && GoodTables(tables2, done + [cur]) && Chained(tables2, done + [cur])
  {
    hide Apart;
    var chain := done + [cur];
    forall i {:trigger chain[i]} | 0 <= i < |chain|
      ensures chain[i] in tables2 && tables2[chain[i]].next == (if i + 1 < |chain| then chain[i + 1] else INVALID)
      ensures tables2[chain[i]].intervals != [] && Apart(tables2[chain[i]].intervals)
    {
      if i < |done| {
        assert chain == done + table && chain[i] == done[i];
      }
    }
  }

  /** A new table takes its part and is chained to the one before. */
  lemma FlushNext(pages: Blocks, tables: Tables, chain: seq<nat>, ivs: seq<Run>, first: nat, content: seq<Byte>,
                  next: nat)
    requires Flushed(pages, tables, chain, ivs, first, content) && ivs != [] && next !in tables && next != INVALID
    ensures var n, cur := Room(ivs, 0), chain[|chain| - 1];
      && cur in tables
      && Flushed(pages, tables[next := Table(INVALID, ivs[..n])][cur := Table(next, tables[cur].intervals)],
                 chain + [next], ivs[n..],
                 first, content)
    ensures var n, cur := Room(ivs, 0), chain[|chain| - 1];
      var tables2 := tables[next := Table(INVALID, ivs[..n])][cur := Table(next, tables[cur].intervals)];
      && AllIn(tables, chain) && AllIn(tables2, chain + [next])
      && FileIds(tables2, chain + [next], ivs[n..]) == FileIds(tables, chain, ivs)
  {
    hide PagesOf, Listed, Body, Room, Apart;
    Splits(ivs);
    var n, cur := Room(ivs, 0), chain[|chain| - 1];
    var tables2 := tables[next := Table(INVALID, ivs[..n])][cur := Table(next, tables[cur].intervals)];
    ListedMore(tables, tables2, chain, next, ivs[..n], ivs[n..], ivs);
    NextGood(tables, tables2, chain, next, ivs[..n]);
  }

  lemma NextGood(tables: Tables, tables2: Tables, chain: seq<nat>, next: nat, part: seq<Run>)
    requires AllIn(tables, chain) && GoodTables(tables, chain) && Apart(part) && part != [] && chain != []
    requires Chained(tables, chain) && Distinct(chain) && next !in tables
    requires var last := chain[|chain| - 1];
      tables2 == tables[next := Table(INVALID, part)][last := Table(next, tables[last].intervals)]
    ensures AllIn(tables2, chain + [next]) && GoodTables(tables2, chain + [next]) && Chained(tables2, chain + [next])
    ensures Distinct(chain + [next])
  {
    hide Apart;
    var now := chain + [next];
    forall i {:trigger now[i]} | 0 <= i < |now|
      ensures now[i] in tables2 && tables2[now[i]].next == (if i + 1 < |now| then now[i + 1] else INVALID)
      ensures tables2[now[i]].intervals != [] && Apart(tables2[now[i]].intervals)
    {
      if i < |chain| {
        assert now[i] == chain[i] && chain[i] in tables;
      }
    }
  }

  /** What is in the last table comes back, and is not in a finished table any more. */
  lemma ReloadStep(pages: Blocks, tables: Tables, done: seq<nat>, last: nat, first: nat, content: seq<Byte>)
    requires Flushed(pages, tables, done + [last], [], first, content)
    ensures last in tables && PushAll([], tables[last].intervals) == tables[last].intervals
    ensures AllIn(tables, done) && AllIn(tables, done + [last])
    ensures FileIds(tables, done, tables[last].intervals) == FileIds(tables, done + [last], [])
    ensures Writing(pages, tables, done, [last], tables[last].intervals, first, content)
  {
    hide PagesOf, Listed, Body;
    var chain := done + [last];
    assert chain[|done|] == last;
    forall i | 0 <= i < |done| ensures done[i] in tables && tables[done[i]].intervals != []
      && Apart(tables[done[i]].intervals) {
      assert chain[i] == done[i];
    }
    hide Apart;
    PushAllApart(tables[last].intervals);
    ListedAppend(tables, done, [last]);
    ListedOne(tables, last);
    PagesAppend(Listed(tables, done), tables[last].intervals);
    PagesNone();
    assert PagesOf(Listed(tables, chain)) + [] == PagesOf(Listed(tables, chain));
  }

  lemma CloseStep(pages: Blocks, tables: Tables, done: seq<nat>, table: seq<nat>, fd: FileDescriptor,
                  content: seq<Byte>)
    requires fd.fileSize == |content| && |table| <= 1 && INVALID !in tables
    requires if content == [] then table == [] && done == [] && fd == NO_FILE
             else Flushed(pages, tables, done + table, [], fd.first, content) && table != [] && fd.last == table[0]
    ensures IsFile(pages, tables, fd, content, done + table)
  {
    hide PagesOf, Listed, Bytes;
    PagesNone();
    if content == [] {
      NoBody(pages, tables);
    } else {
      assert PagesOf(Listed(tables, done + table)) + [] == PagesOf(Listed(tables, done + table));
      assert (done + table)[|done|] == table[0];
    }
  }

  lemma NoBody(pages: Blocks, tables: Tables)
    ensures Listed(tables, []) == [] && PagesOf([]) == [] && Body(pages, [], [])
  {
  }

  lemma OpenStep(pages: Blocks, tables: Tables, fd: FileDescriptor, content: seq<Byte>, chain: seq<nat>)
    requires IsFile(pages, tables, fd, content, chain)
    ensures INVALID !in tables && fd.fileSize == |content| && (fd == NO_FILE ==> content == [] && chain == [])
    ensures AllIn(tables, chain) && (fd != NO_FILE ==> chain != [] && chain == chain[..|chain| - 1] + [fd.last])
    ensures fd != NO_FILE ==> (
        chain != [] && Flushed(pages, tables, chain[..|chain| - 1] + [fd.last], [], fd.first, content))
  {
    hide PagesOf, Bytes, Listed;
    PagesNone();
    if fd != NO_FILE {
      assert chain == chain[..|chain| - 1] + [fd.last];
      assert PagesOf(Listed(tables, chain)) + [] == PagesOf(Listed(tables, chain));
    } else {
      NoBody(pages, tables);
    }
  }
}
