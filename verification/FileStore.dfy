/** Files in the store: a chain of table pages lists the intervals of pages that hold the bytes. */
module FileStores {
  import opened Basics
  import opened ByteStrings
  import opened Intervals
  import opened FileTables

  const PAGE: nat := 4096

  type Block = s: seq<Byte> | |s| == PAGE witness seq(PAGE, _ => 0)

  type Blocks = map<nat, Block>

  datatype Table = Table(next: nat, intervals: seq<Run>)

  type Tables = map<nat, Table>

  datatype FileDescriptor = FileDescriptor(first: nat, last: nat, fileSize: nat)

  const NO_FILE := FileDescriptor(INVALID, INVALID, 0)

  /** What the tables list finds room in their pages. */
  ghost predicate AllFit(tables: Tables) {
    forall t | t in tables :: Used(PackAll(tables[t].intervals)) <= DATA
  }

  lemma FitsAs(tables: Tables, id: nat, table: Table)
    requires AllFit(tables) && (table.intervals == [] || (id in tables && table.intervals == tables[id].intervals))
    ensures AllFit(tables[id := table])
  {
  }

  lemma FitsFilled(tables: Tables, id: nat, next: nat, pool: seq<Run>)
    requires AllFit(tables)
    ensures AllFit(tables[id := Table(next, pool[..Room(pool, 0)])])
  {
    assert pool[..0] == [];
    RoomFits(pool, 0);
  }

  // ------------------------------------------------------------------ the bytes of a file

  ghost predicate AllIn<T>(pages: map<nat, T>, ids: seq<nat>) {
    forall i | 0 <= i < |ids| :: ids[i] in pages
  }

  /** What was there is as it was, save for what is `mine`. */
  ghost predicate Kept<T>(was: map<nat, T>, now: map<nat, T>, mine: multiset<nat>) {
    forall id | id in was && id !in mine :: id in now && now[id] == was[id]
  }

  lemma KeptSame<T>(was: map<nat, T>, mine: multiset<nat>)
    ensures Kept(was, was, mine)
  {
  }

  lemma KeptOne<T>(was: map<nat, T>, now: map<nat, T>, mine: multiset<nat>, id: nat, x: T)
    requires Kept(was, now, mine) && (id in mine || id !in was)
    ensures Kept(was, now[id := x], mine)
  {
  }

  lemma KeptMore<T>(was: map<nat, T>, now: map<nat, T>, mine: multiset<nat>, more: multiset<nat>)
    requires Kept(was, now, mine) && forall id | id in mine :: id in more
    ensures Kept(was, now, more)
  {
  }

  lemma KeptThrough<T>(was: map<nat, T>, mid: map<nat, T>, now: map<nat, T>, mine: multiset<nat>, more: multiset<nat>)
    requires Kept(was, mid, mine) && Kept(mid, now, more) && forall id | id in more :: id in mine || id !in was
    ensures Kept(was, now, mine)
  {
  }

  ghost predicate Distinct(ids: seq<nat>) {
    forall i, j | 0 <= i < j < |ids| :: ids[i] != ids[j]
  }

  ghost function Bytes(pages: Blocks, ids: seq<nat>): (r: seq<Byte>)
    requires AllIn(pages, ids)
    ensures |r| == PAGE * |ids|
  {
    if ids == [] then [] else Bytes(pages, ids[..|ids| - 1]) + pages[ids[|ids| - 1]]
  }

  /** These pages, the last one perhaps in part, hold this content. */
  ghost predicate Body(pages: Blocks, ids: seq<nat>, content: seq<Byte>) {
    && AllIn(pages, ids) && Distinct(ids)
    && |content| <= PAGE * |ids| < |content| + PAGE && Bytes(pages, ids)[..|content|] == content
  }

  lemma {:induction false} BytesAppend(pages: Blocks, a: seq<nat>, b: seq<nat>)
    requires AllIn(pages, a) && AllIn(pages, b)
    ensures AllIn(pages, a + b) && Bytes(pages, a + b) == Bytes(pages, a) + Bytes(pages, b)
    decreases |b|
  {
    if b == [] {
      assert a + b == a;
    } else {
      assert (a + b)[..|a + b| - 1] == a + b[..|b| - 1];
      BytesAppend(pages, a, b[..|b| - 1]);
    }
  }

  lemma {:induction false} BytesFrame(pages: Blocks, pages2: Blocks, ids: seq<nat>)
    requires AllIn(pages, ids) && forall i | 0 <= i < |ids| :: ids[i] in pages2 && pages2[ids[i]] == pages[ids[i]]
    ensures AllIn(pages2, ids) && Bytes(pages2, ids) == Bytes(pages, ids)
  {
    if ids != [] {
      BytesFrame(pages, pages2, ids[..|ids| - 1]);
    }
  }

  lemma BytesOne(pages: Blocks, id: nat)
    requires id in pages
    ensures Bytes(pages, [id]) == pages[id]
  {
    assert [id][..0] == [];
  }

  /** Page number `i` holds the bytes from `PAGE * i` on. */
  lemma BytesAt(pages: Blocks, ids: seq<nat>, i: nat)
    requires AllIn(pages, ids) && i < |ids|
    ensures Bytes(pages, ids)[PAGE * i..PAGE * i + PAGE] == pages[ids[i]]
    ensures Bytes(pages, ids)[..PAGE * i] == Bytes(pages, ids[..i])
  {
    var a, b := ids[..i], ids[i + 1..];
    assert ids == a + [ids[i]] + b;
    BytesAppend(pages, a + [ids[i]], b);
    BytesAppend(pages, a, [ids[i]]);
    BytesOne(pages, ids[i]);
  }

  /** The pages from `a` to `b` hold the bytes between. */
  lemma BytesRange(pages: Blocks, ids: seq<nat>, a: nat, b: nat)
    requires AllIn(pages, ids) && a <= b <= |ids|
    ensures AllIn(pages, ids[a..b]) && Bytes(pages, ids)[PAGE * a..PAGE * b] == Bytes(pages, ids[a..b])
  {
    var x, y, z := ids[..a], ids[a..b], ids[b..];
    assert ids == x + y + z;
    BytesAppend(pages, x + y, z);
    BytesAppend(pages, x, y);
  }

  /** Of the pages of a file only the last one is written, and only if it is not full. */
  ghost function OpenPage(ids: seq<nat>, content: seq<Byte>): multiset<nat> {
    if ids == [] || |content| % PAGE == 0 then multiset{} else multiset{ids[|ids| - 1]}
  }

  /** More ids behind those that were there, none of which was in use. */
  ghost predicate Longer(was: seq<nat>, now: seq<nat>, used: set<nat>) {
    was <= now && forall i | |was| <= i < |now| :: now[i] !in used
  }

  lemma LongerSame(ids: seq<nat>, used: set<nat>)
    ensures Longer(ids, ids, used)
  {
  }

  lemma LongerBy(ids: seq<nat>, more: seq<nat>, used: set<nat>)
    requires forall id | id in more :: id !in used
    ensures Longer(ids, ids + more, used)
  {
  }

  lemma LongerThrough(a: seq<nat>, b: seq<nat>, c: seq<nat>, used: set<nat>, more: set<nat>)
    requires Longer(a, b, used) && Longer(b, c, more) && used <= more
    ensures Longer(a, c, used)
  {
    forall i | |a| <= i < |c| ensures c[i] !in used {
      assert i < |b| ==> c[i] == b[i];
    }
  }

  function Overwritten(block: Block, offset: nat, data: seq<Byte>): Block
    requires offset + |data| <= PAGE
  {
    block[..offset] + data + block[offset + |data|..]
  }

  /** More bytes in the last page, which has room. */
  lemma FillLast(pages: Blocks, ids: seq<nat>, content: seq<Byte>, chunk: seq<Byte>)
    requires Body(pages, ids, content) && |content| % PAGE != 0 && |content| % PAGE + |chunk| <= PAGE
    ensures ids != []
    ensures var last := ids[|ids| - 1];
      Body(pages[last := Overwritten(pages[last], |content| % PAGE, chunk)], ids, content + chunk)
  {
    var n, last, off := |ids|, ids[|ids| - 1], |content| % PAGE;
    var pages2 := pages[last := Overwritten(pages[last], off, chunk)];
    var init := ids[..n - 1];
    assert ids == init + [last];
    BytesAppend(pages, init, [last]);
    BytesOne(pages, last);
    BytesFrame(pages, pages2, init);
    BytesAppend(pages2, init, [last]);
    BytesOne(pages2, last);
    var was, now := Bytes(pages, ids), Bytes(pages2, ids);
    Whole(|content|, n);
    LastBytes(Bytes(pages, init), pages[last], content, off, chunk);
  }

  lemma Whole(size: nat, n: nat)
    requires size <= PAGE * n < size + PAGE && size % PAGE != 0
    ensures n > 0 && size == PAGE * (n - 1) + size % PAGE
  {
  }

  lemma LastBytes(front: seq<Byte>, block: Block, content: seq<Byte>, off: nat, chunk: seq<Byte>)
    requires |content| == |front| + off && off + |chunk| <= PAGE && (front + block)[..|content|] == content
    ensures (front + Overwritten(block, off, chunk))[..|content| + |chunk|] == content + chunk
  {
    assert content == front + block[..off];
  }

  /** New pages behind a file whose last page is full. */
  lemma {:induction false} AddPages(pages: Blocks, ids: seq<nat>, content: seq<Byte>, pages2: Blocks, more: seq<nat>,
                                    data: seq<Byte>)
    requires Body(pages, ids, content) && |content| % PAGE == 0
    requires Distinct(more) && AllIn(pages2, more) && forall i | 0 <= i < |more| :: more[i] !in pages
    requires forall id | id in pages :: id in pages2 && pages2[id] == pages[id]
    requires |data| <= PAGE * |more| < |data| + PAGE && Bytes(pages2, more)[..|data|] == data
    ensures Body(pages2, ids + more, content + data)
  {
    BytesFrame(pages, pages2, ids);
    BytesAppend(pages2, ids, more);
    assert |content| == PAGE * |ids|;
    assert Bytes(pages, ids)[..|content|] == Bytes(pages, ids);
    assert (content + Bytes(pages2, more))[..|content| + |data|] == content + data;
  }

  // ------------------------------------------------------------------ chains of tables

  ghost predicate Chained(tables: Tables, chain: seq<nat>) {
    forall i {:trigger chain[i]} | 0 <= i < |chain| ::
      chain[i] in tables && tables[chain[i]].next == (if i + 1 < |chain| then chain[i + 1] else INVALID)
  }

  /** The intervals listed in these tables, one table after the other. */
  ghost function Listed(tables: Tables, chain: seq<nat>): seq<Run>
    requires AllIn(tables, chain)
  {
    if chain == [] then [] else Listed(tables, chain[..|chain| - 1]) + tables[chain[|chain| - 1]].intervals
  }

  lemma {:induction false} ListedAppend(tables: Tables, a: seq<nat>, b: seq<nat>)
    requires AllIn(tables, a) && AllIn(tables, b)
    ensures AllIn(tables, a + b) && Listed(tables, a + b) == Listed(tables, a) + Listed(tables, b)
    decreases |b|
  {
    if b == [] {
      assert a + b == a;
    } else {
      assert (a + b)[..|a + b| - 1] == a + b[..|b| - 1] && (a + b)[|a + b| - 1] == b[|b| - 1];
      ListedAppend(tables, a, b[..|b| - 1]);
      assert Listed(tables, a + b) == Listed(tables, a + b[..|b| - 1]) + tables[b[|b| - 1]].intervals;
    }
  }

  lemma ListedOne(tables: Tables, id: nat)
    requires id in tables
    ensures Listed(tables, [id]) == tables[id].intervals
  {
    assert [id][..0] == [];
  }

  lemma {:induction false} ListedFrame(tables: Tables, tables2: Tables, chain: seq<nat>)
    requires AllIn(tables, chain)
    requires forall i | 0 <= i < |chain| ::
             chain[i] in tables2 && tables2[chain[i]].intervals == tables[chain[i]].intervals
    ensures AllIn(tables2, chain) && Listed(tables2, chain) == Listed(tables, chain)
  {
    if chain != [] {
      ListedFrame(tables, tables2, chain[..|chain| - 1]);
    }
  }

  /** A table lists something, and no interval that could be merged with the one before it. */
  ghost predicate GoodTables(tables: Tables, chain: seq<nat>)
    requires AllIn(tables, chain)
  {
    forall i | 0 <= i < |chain| :: tables[chain[i]].intervals != [] && Apart(tables[chain[i]].intervals)
  }

  /** The descriptor leads to this content. */
  ghost predicate IsFile(pages: Blocks, tables: Tables, fd: FileDescriptor, content: seq<Byte>, chain: seq<nat>) {
    && INVALID !in tables && fd.fileSize == |content|
    && Chained(tables, chain) && Distinct(chain) && AllIn(tables, chain) && GoodTables(tables, chain)
    && (chain == [] <==> fd == NO_FILE)
    && (chain != [] ==> fd.first == chain[0] && fd.last == chain[|chain| - 1] && content != [])
    && Body(pages, PagesOf(Listed(tables, chain)), content)
  }

  /** What happens to other pages does not matter to a file. */
  lemma FileFrame(pages: Blocks, pages2: Blocks, tables: Tables, tables2: Tables, fd: FileDescriptor,
                  content: seq<Byte>, chain: seq<nat>)
    requires IsFile(pages, tables, fd, content, chain) && INVALID !in tables2
    requires forall id | id in chain && id in tables :: id in tables2 && tables2[id] == tables[id]
    requires forall id | id in PagesOf(Listed(tables, chain)) && id in pages :: id in pages2 && pages2[id] == pages[id]
    ensures IsFile(pages2, tables2, fd, content, chain)
  {
    hide PagesOf;
    ListedFrame(tables, tables2, chain);
    BytesFrame(pages, pages2, PagesOf(Listed(tables, chain)));
  }

  // ------------------------------------------------------------------ the store

  /** Fresh pages exist. */
  lemma FreshRun(ids: set<nat>, max: nat)
    requires max > 0
    ensures exists iv: Run :: FreshFor(iv, ids, max)
  {
    var most := Above(ids + {INVALID});
    var iv: Run := Interval(most, most + 1);
    assert FreshFor(iv, ids, max);
  }

  predicate FreshFor(iv: Run, ids: set<nat>, max: nat) {
    Length(iv) <= max && INVALID !in Pages(iv) && forall id | id in Pages(iv) :: id !in ids
  }

  lemma {:induction false} OneMorePage(was: Blocks, now: Blocks, ids: seq<nat>, i: nat, data: seq<Byte>)
    requires Distinct(ids) && i < |ids| && PAGE * (i + 1) <= |data| && AllIn(was, ids[..i])
    requires Bytes(was, ids[..i]) == data[..PAGE * i]
    requires now == was[ids[i] := data[PAGE * i..PAGE * i + PAGE]]
    ensures AllIn(now, ids[..i + 1]) && Bytes(now, ids[..i + 1]) == data[..PAGE * (i + 1)]
  {
    hide Bytes;
    BytesFrame(was, now, ids[..i]);
    assert ids[..i + 1] == ids[..i] + [ids[i]];
    BytesAppend(now, ids[..i], [ids[i]]);
    BytesOne(now, ids[i]);
    assert data[..PAGE * i] + data[PAGE * i..PAGE * i + PAGE] == data[..PAGE * (i + 1)];
  }

  /** The pages of the file as its users see them. */
  class Store {
    var pages: Blocks
    var tables: Tables

    constructor ()
      ensures pages == map[] && tables == map[]
    {
      pages, tables := map[], map[];
    }

    ghost function Used(): set<nat>
      reads this
    {
      pages.Keys + tables.Keys
    }

    /** No page is a table as well. */
    ghost predicate Apart()
      reads this
    {
      pages.Keys !! tables.Keys
    }

    /** A run of fresh pages, at most `max` of them; what they hold is not known. */
    method AllocateInterval(max: nat) returns (iv: Run)
      requires max > 0
      modifies this`pages
      ensures FreshFor(iv, old(pages).Keys + tables.Keys, max)
      ensures pages.Keys == old(pages).Keys + (set id | id in Pages(iv))
      ensures forall id | id in old(pages) :: pages[id] == old(pages)[id]
    {
      FreshRun(pages.Keys + tables.Keys, max);
      iv :| FreshFor(iv, pages.Keys + tables.Keys, max);
      var block: Block :| true;
      pages := pages + map id | id in Pages(iv) :: block;
    }

    method NewTable() returns (id: nat)
      modifies this`tables
      ensures id !in old(tables) && id !in pages && id != INVALID && tables == old(tables)[id := Table(INVALID, [])]
    {
      FreshRun(pages.Keys + tables.Keys, 1);
      var iv: Run :| FreshFor(iv, pages.Keys + tables.Keys, 1);
      id := iv.begin;
      assert Pages(iv)[0] == id;
      tables := tables[id := Table(INVALID, [])];
    }

    method WritePage(id: nat, offset: nat, data: seq<Byte>)
      requires id in pages && offset + |data| <= PAGE
      modifies this`pages
      ensures pages == old(pages)[id := Overwritten(old(pages)[id], offset, data)]
    {
      pages := pages[id := Overwritten(pages[id], offset, data)];
    }

    method WritePages(iv: Run, data: seq<Byte>)
      requires AllIn(pages, Pages(iv)) && |data| == PAGE * Length(iv)
      modifies this`pages
      ensures pages.Keys == old(pages).Keys
      ensures (forall id | id in pages && id !in Pages(iv) :: pages[id] == old(pages)[id])
      ensures AllIn(pages, Pages(iv)) && Bytes(pages, Pages(iv)) == data
    {
      for i := 0 to Length(iv)
        invariant pages.Keys == old(pages).Keys
        invariant (forall id | id in pages && id !in Pages(iv) :: pages[id] == old(pages)[id])
        invariant AllIn(pages, Pages(iv)[..i]) && Bytes(pages, Pages(iv)[..i]) == data[..PAGE * i]
      {
        var id := Pages(iv)[i];
        ghost var was := pages;
        pages := pages[id := data[PAGE * i..PAGE * i + PAGE]];
        OneMorePage(was, pages, Pages(iv), i, data);
      }
      assert Pages(iv)[..Length(iv)] == Pages(iv);
    }

    method ReadPage(id: nat, offset: nat, end: nat) returns (data: seq<Byte>)
      requires id in pages && offset <= end <= PAGE
      ensures data == pages[id][offset..end]
    {
      data := pages[id][offset..end];
    }

    method ReadPages(iv: Interval) returns (data: seq<Byte>)
      requires AllIn(pages, Pages(iv))
      ensures data == Bytes(pages, Pages(iv))
    {
      data := [];
      for i := 0 to Length(iv)
        invariant data == Bytes(pages, Pages(iv)[..i])
      {
        assert Pages(iv)[..i + 1][..i] == Pages(iv)[..i];
        data := data + pages[Pages(iv)[i]];
      }
      assert Pages(iv)[..Length(iv)] == Pages(iv);
    }
  }
}
