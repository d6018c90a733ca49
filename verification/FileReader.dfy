/** Reading files. */
module FileReaders {
  import opened Basics
  import opened ByteStrings
  import opened Intervals
  import opened FileStores

  /** The pages of a file, in order. */
  ghost function FilePages(tables: Tables, chain: seq<nat>): seq<nat>
    requires AllIn(tables, chain)
  {
    PagesOf(Listed(tables, chain))
  }

  /** These pages hold this content, the last one perhaps in part. */
  ghost predicate Hold(pages: Blocks, ids: seq<nat>, content: seq<Byte>) {
    AllIn(pages, ids) && |content| <= PAGE * |ids| && Bytes(pages, ids)[..|content|] == content
  }

  /** Of the pages `all` those from number `page` on are still to come: `ivs`, and then what the tables from number
      `k` on list. */
  ghost predicate Remaining(tables: Tables, chain: seq<nat>, k: nat, ivs: seq<Run>, next: nat, all: seq<nat>,
                            page: nat) {
    && AllIn(tables, chain) && Chained(tables, chain) && GoodTables(tables, chain) && INVALID !in tables
    && k <= |chain| && next == (if k < |chain| then chain[k] else INVALID) && AllIn(tables, chain[k..])
    && page <= |all| && PagesOf(ivs) + PagesOf(Listed(tables, chain[k..])) == all[page..]
  }

  class FileReader {
    const store: Store
    const pageSequence: IntervalSequence
    var curFilePos: nat
    var fileSize: nat
    var nextFileTable: nat
    ghost var content: seq<Byte>
    ghost var chain: seq<nat>
    /** All pages that are read, from the first byte on. */
    ghost var ids: seq<nat>
    ghost var loaded: nat

    ghost predicate Valid()
      reads this, store, pageSequence
    {
      && pageSequence.Valid() && fileSize == |content| && curFilePos <= |content|
      && Hold(store.pages, ids, content)
      && Remaining(store.tables, chain, loaded, pageSequence.intervals, nextFileTable, ids, curFilePos / PAGE)
      && (curFilePos % PAGE != 0 ==> pageSequence.intervals != [])
    }

    constructor (store: Store)
      ensures this.store == store && fresh(pageSequence) && pageSequence.Valid() && pageSequence.intervals == []
    {
      this.store := store;
      pageSequence := new IntervalSequence();
      curFilePos, fileSize, nextFileTable := 0, 0, INVALID;
      content, chain, ids, loaded := [], [], [], 0;
    }

    /** Starts to read a file. What is left in the page sequence of a file that was not read to its end is read
        first, in place of the file's own first pages. */
    method Open(file: FileDescriptor, ghost own: seq<Byte>, ghost chain: seq<nat>)
      requires IsFile(store.pages, store.tables, file, own, chain)
      requires pageSequence.Valid() && AllIn(store.pages, PagesOf(pageSequence.intervals))
      modifies this, pageSequence
      ensures Valid() && curFilePos == 0 && |content| == |own| && AllIn(store.tables, chain)
      ensures ids == PagesOf(old(pageSequence.intervals)) + FilePages(store.tables, chain)
      ensures ids == FilePages(store.tables, chain) <==> old(pageSequence.intervals) == []
      ensures old(pageSequence.intervals) == [] ==> content == own
    {
      hide IsFile, PagesOf, Remaining, Hold, FilePages;
      ghost var left := pageSequence.intervals;
      curFilePos, fileSize := 0, file.fileSize;
      OpenFacts(store.pages, store.tables, file, own, chain, left);
      this.chain, ids := chain, PagesOf(left) + FilePages(store.tables, chain);
      content := Bytes(store.pages, ids)[..|own|];
      if file != NO_FILE {
        nextFileTable := file.first;
        FirstLoad(store.tables, chain, left);
        Load();
        loaded := 1;
      } else {
        nextFileTable, loaded := INVALID, 0;
      }
    }

    /** Takes the intervals of the next table. */
    method Load()
      requires pageSequence.Valid() && nextFileTable in store.tables
      modifies this`nextFileTable, pageSequence
      ensures pageSequence.Valid()
      ensures pageSequence.intervals == PushAll(old(pageSequence.intervals), store.tables[old(nextFileTable)].intervals)
      ensures nextFileTable == store.tables[old(nextFileTable)].next
    {
      hide PushAll, Push;
      ghost var was := pageSequence.intervals;
      var part := store.tables[nextFileTable].intervals;
      PushAllSteps(was, part, 0);
      for i := 0 to |part|
        invariant pageSequence.Valid() && pageSequence.intervals == PushAll(was, part[..i])
        invariant nextFileTable == old(nextFileTable)
      {
        PushAllSteps(was, part, i);
        pageSequence.PushBack(part[i]);
      }
      assert part[..|part|] == part;
      nextFileTable := store.tables[nextFileTable].next;
    }

    /** The next run of at most `max` pages; with `max` zero, the next page stays where it is. */
    method NextInterval(max: nat, ghost page: nat) returns (iv: Interval)
      requires pageSequence.Valid()
      requires Remaining(store.tables, chain, loaded, pageSequence.intervals, nextFileTable, ids, page)
      requires page < |ids|
      modifies this`nextFileTable, this`loaded, pageSequence
      ensures pageSequence.Valid()
      ensures Remaining(store.tables, chain, loaded, pageSequence.intervals, nextFileTable, ids, page + Length(iv))
      ensures Length(iv) <= max && (max > 0 ==> Length(iv) > 0)
      ensures page + Length(iv) <= |ids|
      ensures Pages(iv) == ids[page..page + Length(iv)]
      ensures max == 0 ==> iv.begin == ids[page] && pageSequence.intervals != []
    {
      hide Remaining, PagesOf, Apart, Pages, PushAll, Push;
      if pageSequence.intervals == [] {
        NotAtEnd(store.tables, chain, loaded, nextFileTable, ids, page);
        if nextFileTable == INVALID {
          return Interval(INVALID, INVALID);
        }
        LoadStep(store.tables, chain, loaded, nextFileTable, ids, page);
        PushAllApart(store.tables[nextFileTable].intervals);
        Load();
        loaded := loaded + 1;
      }
      ghost var was := pageSequence.intervals;
      iv := pageSequence.PopPages(max);
      PopStep(store.tables, chain, loaded, was, nextFileTable, ids, page, iv, pageSequence.intervals);
    }

    /** The next bytes of the file, as many as are wanted or are left. */
    method Read(wanted: nat) returns (data: seq<Byte>)
      requires Valid()
      modifies this, pageSequence
      ensures Valid() && content == old(content) && ids == old(ids) && chain == old(chain)
      ensures |data| == (if wanted < |content| - old(curFilePos) then wanted else |content| - old(curFilePos))
      ensures curFilePos == old(curFilePos) + |data| && data == content[old(curFilePos)..curFilePos]
    {
      hide Hold, Remaining, Bytes;
      var blockSize := if wanted < fileSize - curFilePos then wanted else fileSize - curFilePos;
      data := [];
      if blockSize == 0 {
        return;
      }
      data := ReadBlock(blockSize);
      curFilePos := curFilePos + blockSize;
    }

    /** The rest of a page, then whole pages, then the beginning of a page. */
    method ReadBlock(blockSize: nat) returns (data: seq<Byte>)
      requires Valid() && 0 < blockSize <= |content| - curFilePos
      modifies this`nextFileTable, this`loaded, pageSequence
      ensures pageSequence.Valid() && |data| == blockSize && data == content[curFilePos..curFilePos + blockSize]
      ensures Remaining(store.tables, chain, loaded, pageSequence.intervals, nextFileTable, ids,
                        (curFilePos + blockSize) / PAGE)
      ensures (curFilePos + blockSize) % PAGE != 0 ==> pageSequence.intervals != []
    {
      hide Hold, Remaining, Bytes, PagesOf, Pages, Length, Listed;
      data := [];
      if curFilePos % PAGE != 0 {
        data := ReadRest(blockSize);
      }
      if |data| < blockSize {
        var more := ReadAligned(blockSize - |data|, curFilePos + |data|);
        Joined(content, curFilePos, curFilePos + |data|, curFilePos + blockSize);
        data := data + more;
      }
    }

    method ReadAligned(count: nat, pos: nat) returns (data: seq<Byte>)
      requires pageSequence.Valid() && Hold(store.pages, ids, content)
      requires pos % PAGE == 0 && pos + count <= |content|
      requires Remaining(store.tables, chain, loaded, pageSequence.intervals, nextFileTable, ids, pos / PAGE)
      modifies this`nextFileTable, this`loaded, pageSequence
      ensures pageSequence.Valid() && |data| == count && data == content[pos..pos + count]
      ensures Remaining(store.tables, chain, loaded, pageSequence.intervals, nextFileTable, ids, (pos + count) / PAGE)
      ensures (pos + count) % PAGE != 0 ==> pageSequence.intervals != []
    {
      hide Hold, Remaining, Bytes, PagesOf, Pages, Length, Listed;
      data := [];
      var pages := count / PAGE;
      if pages > 0 {
        data := ReadWhole(pages, pos);
      }
      if |data| < count {
        var more := ReadBeginning(count - |data|, pos + |data|);
        Joined(content, pos, pos + |data|, pos + count);
        data := data + more;
      }
    }

    /** Whole pages. */
    method ReadWhole(count: nat, pos: nat) returns (data: seq<Byte>)
      requires pageSequence.Valid() && Hold(store.pages, ids, content)
      requires pos % PAGE == 0 && pos + PAGE * count <= |content| && 0 < count
      requires Remaining(store.tables, chain, loaded, pageSequence.intervals, nextFileTable, ids, pos / PAGE)
      modifies this`nextFileTable, this`loaded, pageSequence
      ensures pageSequence.Valid() && |data| == PAGE * count && data == content[pos..pos + |data|]
      ensures Remaining(store.tables, chain, loaded, pageSequence.intervals, nextFileTable, ids, (pos + |data|) / PAGE)
    {
      hide Hold, Remaining, Bytes, Pages;
      SizeIs(store.pages, ids, content);
      data := [];
      var pages := count;
      ghost var page, last := pos / PAGE, pos / PAGE + count;
      PageBegins(pos, 0);
      while pages > 0
        invariant 0 <= pages <= count && page + pages == last && |data| == PAGE * page - pos
        invariant pos <= PAGE * page && data == content[pos..PAGE * page] && pageSequence.Valid()
        invariant Remaining(store.tables, chain, loaded, pageSequence.intervals, nextFileTable, ids, page)
        decreases pages
      {
        var iv := NextInterval(pages, page);
        RangeIs(store.pages, ids, content, page, page + Length(iv));
        var more := store.ReadPages(iv);
        Joined(content, pos, PAGE * page, PAGE * (page + Length(iv)));
        pages, page := pages - Length(iv), page + Length(iv);
        data := data + more;
      }
      PageBegins(pos, count);
    }

    /** The beginning of the next page, which stays where it is. */
    method ReadBeginning(count: nat, pos: nat) returns (data: seq<Byte>)
      requires pageSequence.Valid() && Hold(store.pages, ids, content)
      requires pos % PAGE == 0 && pos + count <= |content| && 0 < count < PAGE
      requires Remaining(store.tables, chain, loaded, pageSequence.intervals, nextFileTable, ids, pos / PAGE)
      modifies this`nextFileTable, this`loaded, pageSequence
      ensures pageSequence.Valid() && |data| == count && data == content[pos..pos + count]
      ensures pageSequence.intervals != []
      ensures Remaining(store.tables, chain, loaded, pageSequence.intervals, nextFileTable, ids, (pos + count) / PAGE)
    {
      hide Hold, Remaining, Bytes;
      SizeIs(store.pages, ids, content);
      ghost var page := pos / PAGE;
      NextPosition(pos, count);
      var iv := NextInterval(0, page);
      PartIs(store.pages, ids, content, page, 0, count);
      data := store.ReadPage(iv.begin, 0, count);
    }

    /** The rest of a page of which the beginning was read before. */
    method ReadRest(blockSize: nat) returns (data: seq<Byte>)
      requires Valid() && curFilePos % PAGE != 0 && 0 < blockSize <= |content| - curFilePos
      modifies this`nextFileTable, this`loaded, pageSequence
      ensures pageSequence.Valid() && 0 < |data| <= blockSize && data == content[curFilePos..curFilePos + |data|]
      ensures |data| < blockSize ==> (curFilePos + |data|) % PAGE == 0
      ensures Remaining(store.tables, chain, loaded, pageSequence.intervals, nextFileTable, ids,
                        (curFilePos + |data|) / PAGE)
      ensures (curFilePos + |data|) % PAGE != 0 ==> pageSequence.intervals != []
    {
      hide Hold, Remaining, Bytes, Pages;
      ghost var page := curFilePos / PAGE;
      SizeIs(store.pages, ids, content);
      FrontIs(store.tables, chain, loaded, pageSequence.intervals, nextFileTable, ids, page);
      var offset := curFilePos % PAGE;
      var id := pageSequence.intervals[0].begin;
      RestOf(curFilePos, blockSize);
      if offset + blockSize >= PAGE {
        PartIs(store.pages, ids, content, page, offset, PAGE);
        data := store.ReadPage(id, offset, PAGE);
        var _ := NextInterval(1, page);
      } else {
        PartIs(store.pages, ids, content, page, offset, offset + blockSize);
        data := store.ReadPage(id, offset, offset + blockSize);
      }
    }
  }

  lemma PushAllSteps(was: seq<Run>, ivs: seq<Run>, k: nat)
    ensures PushAll(was, []) == was && ivs[..0] == []
    ensures k < |ivs| ==> PushAll(was, ivs[..k + 1]) == Push(PushAll(was, ivs[..k]), ivs[k])
  {
    if k < |ivs| {
      assert ivs[..k + 1][..k] == ivs[..k];
    }
  }

  lemma OpenFacts(pages: Blocks, tables: Tables, fd: FileDescriptor, own: seq<Byte>, chain: seq<nat>,
                  left: seq<Run>)
    requires IsFile(pages, tables, fd, own, chain) && AllIn(pages, PagesOf(left))
    ensures fd.fileSize == |own| && AllIn(tables, chain) && Chained(tables, chain) && GoodTables(tables, chain)
    ensures INVALID !in tables && (if fd == NO_FILE then chain == [] else chain != [] && fd.first == chain[0])
    ensures var all := PagesOf(left) + FilePages(tables, chain);
      && AllIn(pages, all) && |own| <= |Bytes(pages, all)| && Hold(pages, all, Bytes(pages, all)[..|own|])
      && (left == [] ==> Bytes(pages, all)[..|own|] == own) && (all == FilePages(tables, chain) <==> left == [])
      && (chain == [] ==> Remaining(tables, chain, 0, left, INVALID, all, 0))
  {
    hide PagesOf, Listed, Bytes;
    PagesNone();
    var all, x := PagesOf(left) + FilePages(tables, chain), PagesOf(left);
    if left == [] {
      assert all == FilePages(tables, chain);
    } else {
      PagesFirst(left);
      assert |all| > |FilePages(tables, chain)|;
    }
    assert chain[0..] == chain && all[0..] == all;
  }

  /** The first table goes behind what is left from before. */
  lemma FirstLoad(tables: Tables, chain: seq<nat>, left: seq<Run>)
    requires AllIn(tables, chain) && Chained(tables, chain) && GoodTables(tables, chain) && INVALID !in tables
    requires chain != []
    ensures var t, all := tables[chain[0]], PagesOf(left) + FilePages(tables, chain);
      Remaining(tables, chain, 1, PushAll(left, t.intervals), t.next, all, 0)
  {
    hide PagesOf, Listed, PushAll;
    var t, all := tables[chain[0]], PagesOf(left) + FilePages(tables, chain);
    assert chain == [chain[0]] + chain[1..] && AllIn(tables, [chain[0]]) && AllIn(tables, chain[1..]);
    ListedAppend(tables, [chain[0]], chain[1..]);
    ListedOne(tables, chain[0]);
    PagesAppend(t.intervals, Listed(tables, chain[1..]));
    PushAllPages(left, t.intervals);
    assert all[0..] == all;
  }

  lemma NotAtEnd(tables: Tables, chain: seq<nat>, k: nat, next: nat, all: seq<nat>, page: nat)
    requires Remaining(tables, chain, k, [], next, all, page) && page < |all|
    ensures k < |chain| && next != INVALID && next == chain[k]
  {
    PagesNone();
    assert |PagesOf(Listed(tables, chain[k..]))| > 0;
  }

  /** The next table takes the place of the empty sequence. */
  lemma LoadStep(tables: Tables, chain: seq<nat>, k: nat, next: nat, all: seq<nat>, page: nat)
    requires Remaining(tables, chain, k, [], next, all, page) && k < |chain| && next == chain[k]
    ensures next in tables && Apart(tables[next].intervals)
    ensures Remaining(tables, chain, k + 1, tables[next].intervals, tables[next].next, all, page)
    ensures tables[next].intervals != []
  {
    hide PagesOf, Listed, Apart;
    PagesNone();
    assert chain[k..] == [next] + chain[k + 1..];
    assert AllIn(tables, [next]) && AllIn(tables, chain[k + 1..]);
    ListedAppend(tables, [next], chain[k + 1..]);
    ListedOne(tables, next);
    PagesAppend(tables[next].intervals, Listed(tables, chain[k + 1..]));
  }

  lemma PopStep(tables: Tables, chain: seq<nat>, k: nat, was: seq<Run>, next: nat, all: seq<nat>, page: nat,
                iv: Interval, ivs: seq<Run>)
    requires Remaining(tables, chain, k, was, next, all, page) && was != [] && Pages(iv) + PagesOf(ivs) == PagesOf(was)
    requires iv.begin == was[0].begin
    ensures page + Length(iv) <= |all| && page < |all|
    ensures Remaining(tables, chain, k, ivs, next, all, page + Length(iv))
    ensures Pages(iv) == all[page..page + Length(iv)] && iv.begin == all[page]
    ensures Length(iv) == 0 ==> ivs != []
  {
    PagesFirst(was);
    if Length(iv) == 0 {
      assert Pages(iv) == [];
    }
    SplitFront(all, page, PagesOf(was), PagesOf(Listed(tables, chain[k..])), Pages(iv),
               PagesOf(ivs));
  }

  /** Reading on from within a page ends in it, or at the beginning of the next one. */
  lemma RestOf(pos: nat, n: nat)
    ensures pos == PAGE * (pos / PAGE) + pos % PAGE
    ensures var left := PAGE - pos % PAGE;
      && (pos + left) / PAGE == pos / PAGE + 1 && (pos + left) % PAGE == 0
      && (n < left ==> (pos + n) / PAGE == pos / PAGE)
  {
  }

  lemma PageBegins(pos: nat, n: nat)
    requires pos % PAGE == 0
    ensures (pos + PAGE * n) / PAGE == pos / PAGE + n && PAGE * ((pos + PAGE * n) / PAGE) == pos + PAGE * n
  {
  }

  lemma Joined(content: seq<Byte>, a: nat, b: nat, c: nat)
    requires a <= b <= c <= |content|
    ensures content[a..b] + content[b..c] == content[a..c]
  {
  }

  lemma SplitFront(all: seq<nat>, page: nat, was: seq<nat>, rest: seq<nat>, front: seq<nat>, back: seq<nat>)
    requires page <= |all| && was + rest == all[page..] && front + back == was && was != []
    ensures page + |front| <= |all| && page < |all| && all[page] == was[0]
    ensures back + rest == all[page + |front|..] && front == all[page..page + |front|]
  {
    assert all[page..][|front|..] == all[page + |front|..] && all[page..][..|front|] == all[page..page + |front|];
    assert all[page..][0] == all[page];
  }

  lemma FrontIs(tables: Tables, chain: seq<nat>, k: nat, ivs: seq<Run>, next: nat, all: seq<nat>, page: nat)
    requires Remaining(tables, chain, k, ivs, next, all, page) && ivs != []
    ensures page < |all| && all[page] == ivs[0].begin
  {
    PagesFirst(ivs);
    assert all[page..][0] == all[page] == PagesOf(ivs)[0];
  }

  lemma SizeIs(pages: Blocks, ids: seq<nat>, content: seq<Byte>)
    requires Hold(pages, ids, content)
    ensures |content| <= PAGE * |ids| && AllIn(pages, ids)
  {
  }

  lemma RangeIs(pages: Blocks, ids: seq<nat>, content: seq<Byte>, a: nat, b: nat)
    requires Hold(pages, ids, content) && a <= b && PAGE * b <= |content|
    ensures b <= |ids| && AllIn(pages, ids[a..b]) && Bytes(pages, ids[a..b]) == content[PAGE * a..PAGE * b]
  {
    hide Bytes;
    BytesRange(pages, ids, a, b);
    assert content[PAGE * a..PAGE * b] == Bytes(pages, ids)[..|content|][PAGE * a..PAGE * b]
           == Bytes(pages, ids)[PAGE * a..PAGE * b];
  }

  lemma NextPosition(pos: nat, count: nat)
    requires pos % PAGE == 0 && 0 < count < PAGE
    ensures (pos + count) / PAGE == pos / PAGE && PAGE * (pos / PAGE) == pos
  {
  }

  lemma {:induction false} PartIs(pages: Blocks, ids: seq<nat>, content: seq<Byte>, page: nat, from: nat, to: nat)
    requires Hold(pages, ids, content) && from <= to <= PAGE && PAGE * page + to <= |content| && page < |ids|
    ensures ids[page] in pages
    ensures pages[ids[page]][from..to] == content[PAGE * page + from..PAGE * page + to]
  {
    hide Bytes;
    BytesAt(pages, ids, page);
    PartOf(Bytes(pages, ids), PAGE * page, from, to, content);
  }

  lemma PartOf(all: seq<Byte>, p: nat, from: nat, to: nat, content: seq<Byte>)
    requires from <= to <= PAGE && p + PAGE <= |all| && p + to <= |content| <= |all| && content == all[..|content|]
    ensures all[p..p + PAGE][from..to] == content[p + from..p + to]
  {
    var block := all[p..p + PAGE];
    var x, y := block[from..to], content[p + from..p + to];
    assert |x| == |y|;
    forall i | 0 <= i < |x| ensures x[i] == y[i] {
      assert x[i] == block[from + i] == all[p + from + i] && y[i] == content[p + from + i];
    }
  }
}
