/** What is written, in any number of sessions and pieces, is what is read, in pieces of any size. */
module FileSessions {
  import opened Basics
  import opened ByteStrings
  import opened Intervals
  import opened FileStores
  import opened FileWriters
  import opened FileReaders

  function Concat(pieces: seq<seq<Byte>>): seq<Byte> {
    if pieces == [] then [] else Concat(pieces[..|pieces| - 1]) + pieces[|pieces| - 1]
  }

  function ConcatAll(sessions: seq<seq<seq<Byte>>>): seq<Byte> {
    if sessions == [] then [] else ConcatAll(sessions[..|sessions| - 1]) + Concat(sessions[|sessions| - 1])
  }

  function Total(sizes: seq<nat>): nat {
    if sizes == [] then 0 else Total(sizes[..|sizes| - 1]) + sizes[|sizes| - 1]
  }

  /** A session that writes these pieces to file number `file`. */
  datatype Writes = ToFile(file: nat, pieces: seq<seq<Byte>>)

  /** What a file holds after these sessions. */
  function ContentOf(sessions: seq<Writes>, file: nat): seq<Byte> {
    if sessions == [] then [] else
      var last := sessions[|sessions| - 1];
      ContentOf(sessions[..|sessions| - 1], file) + if last.file == file then Concat(last.pieces) else []
  }

  /** The pages of a file. */
  ghost function IdsOf(tables: Tables, chain: seq<nat>): seq<nat>
    requires AllIn(tables, chain)
  {
    PagesOf(Listed(tables, chain))
  }

  /** What writing a file does to a store: other pages and tables stay as they are, and what the file takes was not in
      use. */
  ghost predicate Grows(pages: Blocks, tables: Tables, ids: seq<nat>, chain: seq<nat>, pages2: Blocks, tables2: Tables,
                        ids2: seq<nat>, chain2: seq<nat>) {
    && Kept(pages, pages2, multiset(ids)) && Kept(tables, tables2, multiset(chain))
    && Longer(ids, ids2, pages.Keys + tables.Keys) && Longer(chain, chain2, pages.Keys + tables.Keys)
    && pages.Keys + tables.Keys <= pages2.Keys + tables2.Keys
    && (pages.Keys !! tables.Keys ==> pages2.Keys !! tables2.Keys)
  }

  lemma GrowsNot(pages: Blocks, tables: Tables, ids: seq<nat>, chain: seq<nat>)
    ensures Grows(pages, tables, ids, chain, pages, tables, ids, chain)
  {
  }

  lemma GrowsIs(pages: Blocks, tables: Tables, ids: seq<nat>, chain: seq<nat>, pages2: Blocks, tables2: Tables,
                ids2: seq<nat>, chain2: seq<nat>)
    requires Grows(pages, tables, ids, chain, pages2, tables2, ids2, chain2)
    ensures Kept(pages, pages2, multiset(ids)) && Kept(tables, tables2, multiset(chain))
    ensures Longer(ids, ids2, pages.Keys + tables.Keys) && Longer(chain, chain2, pages.Keys + tables.Keys)
    ensures pages.Keys + tables.Keys <= pages2.Keys + tables2.Keys
  {
    hide Kept, Longer;
  }

  lemma GrowsThrough(pages0: Blocks, tables0: Tables, ids0: seq<nat>, chain0: seq<nat>, pages: Blocks, tables: Tables,
                     ids: seq<nat>, chain: seq<nat>, pages2: Blocks, tables2: Tables, ids2: seq<nat>, chain2: seq<nat>)
    requires Grows(pages0, tables0, ids0, chain0, pages, tables, ids, chain)
    requires Grows(pages, tables, ids, chain, pages2, tables2, ids2, chain2)
    ensures Grows(pages0, tables0, ids0, chain0, pages2, tables2, ids2, chain2)
  {
    hide Kept, Longer;
    var used0, used := pages0.Keys + tables0.Keys, pages.Keys + tables.Keys;
    MineThrough(pages0, pages, pages2, ids0, ids, used0);
    MineThrough(tables0, tables, tables2, chain0, chain, used0);
    LongerThrough(ids0, ids, ids2, used0, used);
    LongerThrough(chain0, chain, chain2, used0, used);
  }

  lemma MineThrough<T>(was: map<nat, T>, mid: map<nat, T>, now: map<nat, T>, ids: seq<nat>, mine: seq<nat>,
                       used: set<nat>)
    requires Kept(was, mid, multiset(ids)) && Kept(mid, now, multiset(mine)) && Longer(ids, mine, used)
    requires was.Keys <= used
    ensures Kept(was, now, multiset(ids))
  {
    forall id | id in multiset(mine) ensures id in multiset(ids) || id !in was {
      var k :| 0 <= k < |mine| && mine[k] == id;
      if k < |ids| {
        assert id == ids[k];
      }
    }
    KeptThrough(was, mid, now, multiset(ids), multiset(mine));
  }

  lemma GrowsOnce(pages: Blocks, tables: Tables, ids: seq<nat>, chain: seq<nat>, pages2: Blocks, tables2: Tables,
                  ids2: seq<nat>, chain2: seq<nat>, content: seq<Byte>, last: seq<nat>)
    requires Kept(pages, pages2, OpenPage(ids, content)) && Kept(tables, tables2, multiset(last))
    requires forall t | t in last :: t in chain
    requires Longer(ids, ids2, pages.Keys + tables.Keys) && Longer(chain, chain2, pages.Keys + tables.Keys)
    requires pages.Keys + tables.Keys <= pages2.Keys + tables2.Keys
    requires pages.Keys !! tables.Keys ==> pages2.Keys !! tables2.Keys
    ensures Grows(pages, tables, ids, chain, pages2, tables2, ids2, chain2)
  {
    hide Longer;
    KeptMore(pages, pages2, OpenPage(ids, content), multiset(ids));
    forall t | t in multiset(last) ensures t in multiset(chain) {
      assert t in last;
    }
    KeptMore(tables, tables2, multiset(last), multiset(chain));
  }

  /** One session appends its pieces to the file and closes it. */
  method Session(writer: FileWriter, file: FileDescriptor, pieces: seq<seq<Byte>>, ghost chain: seq<nat>,
                 ghost was: seq<Byte>)
    returns (fd: FileDescriptor, ghost now: seq<nat>)
    requires writer.Valid() && writer.content == []
    requires IsFile(writer.store.pages, writer.store.tables, file, was, chain) && AllIn(writer.store.tables, chain)
    modifies writer, writer.store, writer.pageSequence
    ensures writer.Valid() && writer.content == []
    ensures IsFile(writer.store.pages, writer.store.tables, fd, was + Concat(pieces), now)
    ensures AllIn(writer.store.tables, now)
    ensures Grows(old(writer.store.pages), old(writer.store.tables), old(IdsOf(writer.store.tables, chain)), chain,
                  writer.store.pages, writer.store.tables, IdsOf(writer.store.tables, now), now)
  {
    hide IsFile, FileWriter.Valid, FileWriter.Own, Kept, Longer, OpenPage, Grows, FileWriter.InTables, IdsOf;
    var store := writer.store;
    ghost var ids, pages, tables := IdsOf(store.tables, chain), store.pages, store.tables;
    IdsAre(tables, chain);
    writer.OpenAppend(file, chain, was);
    GrowsNot(pages, tables, ids, chain);
    NonePut(was, pieces);
    for j := 0 to |pieces|
      invariant writer.Valid() && writer.content == was + Concat(pieces[..j])
      invariant Grows(pages, tables, ids, chain, store.pages, store.tables, writer.Own(), writer.OwnTables())
    {
      ghost var ids1, chain1, pages1, tables1 := writer.Own(), writer.OwnTables(), store.pages, store.tables;
      ghost var content, last := writer.content, writer.table;
      writer.Write(pieces[j]);
      GrowsOnce(pages1, tables1, ids1, chain1, store.pages, store.tables, writer.Own(), writer.OwnTables(), content,
                last);
      GrowsThrough(pages, tables, ids, chain, pages1, tables1, ids1, chain1, store.pages, store.tables, writer.Own(),
                   writer.OwnTables());
      NextPut(was, pieces, j);
    }
    ghost var ids1, chain1, tables1, last := writer.Own(), writer.OwnTables(), store.tables, writer.table;
    fd, now := writer.Close();
    IdsAre(store.tables, now);
    KeptSame(store.pages, OpenPage(ids1, []));
    LongerSame(ids1, store.pages.Keys + tables1.Keys);
    GrowsOnce(store.pages, tables1, ids1, chain1, store.pages, store.tables, ids1, now, [], last);
    GrowsThrough(pages, tables, ids, chain, store.pages, tables1, ids1, chain1, store.pages, store.tables, ids1, now);
  }

  lemma IdsAre(tables: Tables, chain: seq<nat>)
    requires AllIn(tables, chain)
    ensures IdsOf(tables, chain) == PagesOf(Listed(tables, chain))
  {
  }

  lemma NonePut(was: seq<Byte>, pieces: seq<seq<Byte>>)
    ensures was + Concat(pieces[..0]) == was && pieces[..|pieces|] == pieces
  {
  }

  lemma NextPut(was: seq<Byte>, pieces: seq<seq<Byte>>, j: nat)
    requires j < |pieces|
    ensures was + Concat(pieces[..j]) + pieces[j] == was + Concat(pieces[..j + 1])
  {
    assert pieces[..j + 1][..j] == pieces[..j];
  }

  /** Each session appends its pieces to the file and closes it. Whatever was in the store before stays as it is. */
  method WriteSessions(store: Store, sessions: seq<seq<seq<Byte>>>, highWaterMark: nat)
    returns (fd: FileDescriptor, ghost chain: seq<nat>)
    requires INVALID !in store.tables && highWaterMark > 0
    modifies store
    ensures IsFile(store.pages, store.tables, fd, ConcatAll(sessions), chain)
    ensures Kept(old(store.pages), store.pages, multiset{}) && Kept(old(store.tables), store.tables, multiset{})
  {
    hide IsFile, FileWriter.Valid, Kept, Longer, Writing;
    var files := seq(|sessions|, i requires 0 <= i < |sessions| => ToFile(0, sessions[i]));
    var fds;
    ghost var chains;
    fds, chains := WriteFiles(store, 1, files, highWaterMark);
    fd, chain := fds[0], chains[0];
    OneFile(sessions);
  }

  /** The pieces read are the content, as far as the sizes reach. */
  method ReadBack(store: Store, fd: FileDescriptor, sizes: seq<nat>, ghost content: seq<Byte>, ghost chain: seq<nat>)
    returns (pieces: seq<seq<Byte>>)
    requires IsFile(store.pages, store.tables, fd, content, chain)
    ensures |pieces| == |sizes|
    ensures Concat(pieces) == content[..if Total(sizes) < |content| then Total(sizes) else |content|]
  {
    hide IsFile, Remaining, Hold, FilePages, FileReader.Valid;
    var reader := new FileReader(store);
    reader.Open(fd, content, chain);
    pieces := [];
    for i := 0 to |sizes|
      invariant reader.store == store && fresh(reader) && fresh(reader.pageSequence) && reader.Valid()
      invariant reader.content == content
      invariant reader.curFilePos == if Total(sizes[..i]) < |content| then Total(sizes[..i]) else |content|
      invariant |pieces| == i && Concat(pieces) == content[..reader.curFilePos]
    {
      ghost var pos := reader.curFilePos;
      var piece := reader.Read(sizes[i]);
      assert (pieces + [piece])[..i] == pieces && sizes[..i + 1][..i] == sizes[..i];
      pieces := pieces + [piece];
      Joined(content, 0, pos, reader.curFilePos);
    }
    assert sizes[..|sizes|] == sizes;
  }

  // ------------------------------------------------------------------ several files

  lemma OneFile(sessions: seq<seq<seq<Byte>>>)
    ensures ContentOf(seq(|sessions|, i requires 0 <= i < |sessions| => ToFile(0, sessions[i])), 0)
         == ConcatAll(sessions)
  {
    if sessions != [] {
      var n := |sessions| - 1;
      var all := seq(|sessions|, i requires 0 <= i < |sessions| => ToFile(0, sessions[i]));
      OneFile(sessions[..n]);
      assert all[..n] == seq(n, i requires 0 <= i < n => ToFile(0, sessions[..n][i]));
    }
  }

  /** Files with these contents, none of which shares a page or a table with another one. */
  ghost predicate AllFiles(pages: Blocks, tables: Tables, fds: seq<FileDescriptor>, chains: seq<seq<nat>>,
                           contents: seq<seq<Byte>>) {
    && |fds| == |chains| == |contents|
    && (forall k | 0 <= k < |fds| :: IsFile(pages, tables, fds[k], contents[k], chains[k]) && AllIn(tables, chains[k]))
    && (forall k, l | 0 <= k < |fds| && 0 <= l < |fds| && k != l ::
          Disjoint2(chains[k], chains[l]) && Disjoint2(IdsOf(tables, chains[k]), IdsOf(tables, chains[l])))
  }

  ghost predicate Disjoint2(a: seq<nat>, b: seq<nat>) {
    forall id | id in a :: id !in b
  }

  /** Sessions of any number of files, in any order: each file holds what was written to it, and whatever was in the
      store before stays as it is. */
  method WriteFiles(store: Store, count: nat, sessions: seq<Writes>, highWaterMark: nat)
    returns (fds: seq<FileDescriptor>, ghost chains: seq<seq<nat>>)
    requires INVALID !in store.tables && highWaterMark > 0 && forall s | s in sessions :: s.file < count
    modifies store
    ensures |fds| == count
    ensures AllFiles(store.pages, store.tables, fds, chains, Contents(sessions, count))
    ensures Kept(old(store.pages), store.pages, multiset{}) && Kept(old(store.tables), store.tables, multiset{})
  {
    hide IsFile, FileWriter.Valid, Kept, Longer, AllFiles, ContentOf, NewHere, Contents, Grows;
    var writer := new FileWriter(store, highWaterMark);
    fds, chains := seq(count, _ => NO_FILE), seq(count, _ => []);
    ghost var used0 := store.Used();
    NoFiles(store.pages, store.tables, count, used0);
    KeptSame(store.pages, multiset{});
    KeptSame(store.tables, multiset{});
    assert sessions[..0] == [];
    for i := 0 to |sessions|
      invariant writer.store == store && fresh(writer) && fresh(writer.pageSequence) && writer.Valid()
      invariant writer.content == [] && |fds| == count
      invariant AllFiles(store.pages, store.tables, fds, chains, Contents(sessions[..i], count))
      invariant NewHere(store.tables, chains, used0)
      invariant Kept(old(store.pages), store.pages, multiset{}) && Kept(old(store.tables), store.tables, multiset{})
      invariant used0 <= store.Used()
    {
      assert sessions[i] in sessions;
      var k := sessions[i].file;
      ghost var pages, tables, used := store.pages, store.tables, store.Used();
      ghost var contents := Contents(sessions[..i], count);
      ContentMore(sessions, i, count);
      FileAt(pages, tables, fds, chains, contents, k);
      OwnNew(tables, chains, used0, k);
      var fd;
      ghost var now;
      fd, now := Session(writer, fds[k], sessions[i].pieces, chains[k], contents[k]);
      GrowsIs(pages, tables, IdsOf(tables, chains[k]), chains[k], store.pages, store.tables, IdsOf(store.tables, now),
              now);
      SessionStep(pages, tables, store.pages, store.tables, fds, chains, contents, k, fd, now,
                  contents[k] + Concat(sessions[i].pieces), used, used0);
      KeptThrough(old(store.pages), pages, store.pages, multiset{}, multiset(IdsOf(tables, chains[k])));
      KeptThrough(old(store.tables), tables, store.tables, multiset{}, multiset(chains[k]));
      fds, chains := fds[k := fd], chains[k := now];
    }
    assert sessions[..|sessions|] == sessions;
  }

  function Contents(sessions: seq<Writes>, count: nat): (r: seq<seq<Byte>>)
    ensures |r| == count && forall k | 0 <= k < count :: r[k] == ContentOf(sessions, k)
  {
    seq(count, k requires 0 <= k < count => ContentOf(sessions, k))
  }

  lemma ContentMore(sessions: seq<Writes>, i: nat, count: nat)
    requires i < |sessions| && sessions[i].file < count
    ensures var k, was := sessions[i].file, Contents(sessions[..i], count);
      Contents(sessions[..i + 1], count) == was[k := was[k] + Concat(sessions[i].pieces)]
  {
    assert sessions[..i + 1][..i] == sessions[..i];
    forall k | 0 <= k < count && k != sessions[i].file
      ensures ContentOf(sessions[..i + 1], k) == ContentOf(sessions[..i], k)
    {
      assert ContentOf(sessions[..i], k) + [] == ContentOf(sessions[..i], k);
    }
  }

  /** None of their pages and tables was in use at the beginning. */
  ghost predicate NewHere(tables: Tables, chains: seq<seq<nat>>, used: set<nat>) {
    forall k | 0 <= k < |chains| :: AllIn(tables, chains[k])
      && (forall t | t in chains[k] :: t !in used) && forall id | id in IdsOf(tables, chains[k]) :: id !in used
  }

  lemma OwnNew(tables: Tables, chains: seq<seq<nat>>, used: set<nat>, k: nat)
    requires NewHere(tables, chains, used) && k < |chains|
    ensures AllIn(tables, chains[k])
    ensures (forall t | t in multiset(chains[k]) :: t !in used)
    ensures forall id | id in multiset(IdsOf(tables, chains[k])) :: id !in used
  {
  }

  lemma NoFiles(pages: Blocks, tables: Tables, count: nat, used: set<nat>)
    requires INVALID !in tables
    ensures var chains: seq<seq<nat>> := seq(count, _ => []);
      && AllFiles(pages, tables, seq(count, _ => NO_FILE), chains, Contents([], count))
      && NewHere(tables, chains, used)
  {
    assert Listed(tables, []) == [] && PagesOf([]) == [] && Body(pages, [], []);
    assert IsFile(pages, tables, NO_FILE, [], []);
  }

  lemma FileAt(pages: Blocks, tables: Tables, fds: seq<FileDescriptor>, chains: seq<seq<nat>>,
               contents: seq<seq<Byte>>, k: nat)
    requires AllFiles(pages, tables, fds, chains, contents) && k < |fds|
    ensures |fds| == |chains| == |contents|
    ensures IsFile(pages, tables, fds[k], contents[k], chains[k]) && AllIn(tables, chains[k])
  {
    hide IsFile;
  }

  /** A file that shares nothing with the one written to. */
  lemma OtherFile(pages: Blocks, tables: Tables, pages2: Blocks, tables2: Tables, fd: FileDescriptor,
                  content: seq<Byte>, chain: seq<nat>, mine: seq<nat>, ids: seq<nat>)
    requires IsFile(pages, tables, fd, content, chain) && AllIn(tables, chain) && INVALID !in tables2
    requires Kept(pages, pages2, multiset(ids)) && Kept(tables, tables2, multiset(mine))
    requires Disjoint2(mine, chain) && Disjoint2(ids, IdsOf(tables, chain))
    ensures IsFile(pages2, tables2, fd, content, chain) && AllIn(tables2, chain)
    ensures IdsOf(tables2, chain) == IdsOf(tables, chain)
    ensures forall id | id in IdsOf(tables, chain) :: id in pages
  {
    hide PagesOf, Listed;
    FileFrame(pages, pages2, tables, tables2, fd, content, chain);
    ListedFrame(tables, tables2, chain);
  }

  lemma StillApart(a: seq<nat>, b: seq<nat>, now: seq<nat>, used: set<nat>)
    requires Disjoint2(a, b) && Longer(a, now, used) && forall id | id in b :: id in used
    ensures Disjoint2(now, b) && Disjoint2(b, now)
  {
    forall id | id in now ensures id !in b {
      var i :| 0 <= i < |now| && now[i] == id;
      if i < |a| {
        assert id == a[i];
      }
    }
  }

  lemma SessionStep(pages: Blocks, tables: Tables, pages2: Blocks, tables2: Tables, fds: seq<FileDescriptor>,
                    chains: seq<seq<nat>>, contents: seq<seq<Byte>>, k: nat, fd: FileDescriptor, now: seq<nat>,
                    content: seq<Byte>, used: set<nat>, used0: set<nat>)
    requires AllFiles(pages, tables, fds, chains, contents) && k < |fds| && AllIn(tables, chains[k])
    requires used == pages.Keys + tables.Keys && used0 <= used && NewHere(tables, chains, used0)
    requires IsFile(pages2, tables2, fd, content, now) && AllIn(tables2, now)
    requires Kept(pages, pages2, multiset(IdsOf(tables, chains[k]))) && Kept(tables, tables2, multiset(chains[k]))
    requires Longer(IdsOf(tables, chains[k]), IdsOf(tables2, now), used) && Longer(chains[k], now, used)
    ensures AllFiles(pages2, tables2, fds[k := fd], chains[k := now], contents[k := content])
    ensures NewHere(tables2, chains[k := now], used0)
  {
    hide IsFile, Kept, Longer, IdsOf, AllFiles;
    assert |fds| == |chains| == |contents| by {
      FileAt(pages, tables, fds, chains, contents, k);
    }
    var fds2, chains2, contents2 := fds[k := fd], chains[k := now], contents[k := content];
    NoInvalid(pages2, tables2, fd, content, now);
    forall j | 0 <= j < |fds| && j != k
      ensures IsFile(pages2, tables2, fds[j], contents[j], chains[j]) && AllIn(tables2, chains[j])
      ensures AllIn(tables, chains[j]) && IdsOf(tables2, chains[j]) == IdsOf(tables, chains[j])
      ensures Disjoint2(now, chains[j]) && Disjoint2(chains[j], now)
      ensures Disjoint2(IdsOf(tables2, now), IdsOf(tables2, chains[j]))
      ensures Disjoint2(IdsOf(tables2, chains[j]), IdsOf(tables2, now))
    {
      FileAt(pages, tables, fds, chains, contents, j);
      ApartAt(pages, tables, fds, chains, contents, k, j);
      OtherFile(pages, tables, pages2, tables2, fds[j], contents[j], chains[j], chains[k], IdsOf(tables, chains[k]));
      forall t | t in chains[j] ensures t in used {
      }
      StillApart(chains[k], chains[j], now, used);
      StillApart(IdsOf(tables, chains[k]), IdsOf(tables, chains[j]), IdsOf(tables2, now), used);
    }
    OtherPairs(pages, tables, tables2, fds, chains, contents, k);
    MakeFiles(pages2, tables2, fds2, chains2, contents2, k);
    StillNew(tables, tables2, chains, k, now, used, used0);
  }

  lemma NoInvalid(pages: Blocks, tables: Tables, fd: FileDescriptor, content: seq<Byte>, chain: seq<nat>)
    requires IsFile(pages, tables, fd, content, chain)
    ensures INVALID !in tables
  {
  }

  lemma ApartAt(pages: Blocks, tables: Tables, fds: seq<FileDescriptor>, chains: seq<seq<nat>>,
                contents: seq<seq<Byte>>, k: nat, l: nat)
    requires AllFiles(pages, tables, fds, chains, contents) && k < |fds| && l < |fds| && k != l
    ensures |fds| == |chains| && AllIn(tables, chains[k]) && AllIn(tables, chains[l])
    ensures Disjoint2(chains[k], chains[l]) && Disjoint2(IdsOf(tables, chains[k]), IdsOf(tables, chains[l]))
  {
    hide IsFile, IdsOf, Disjoint2;
  }

  lemma OtherPairs(pages: Blocks, tables: Tables, tables2: Tables, fds: seq<FileDescriptor>, chains: seq<seq<nat>>,
                   contents: seq<seq<Byte>>, k: nat)
    requires AllFiles(pages, tables, fds, chains, contents) && k < |fds| == |chains|
    requires forall j | 0 <= j < |fds| && j != k ::
               AllIn(tables, chains[j]) && AllIn(tables2, chains[j]) &&
               IdsOf(tables2, chains[j]) == IdsOf(tables, chains[j])
    ensures forall j, l | 0 <= j < |fds| && 0 <= l < |fds| && j != l && j != k && l != k ::
              Disjoint2(chains[j], chains[l]) && Disjoint2(IdsOf(tables2, chains[j]), IdsOf(tables2, chains[l]))
  {
    hide IsFile, IdsOf, Disjoint2, AllFiles;
    forall j, l | 0 <= j < |fds| && 0 <= l < |fds| && j != l && j != k && l != k
      ensures Disjoint2(chains[j], chains[l]) && Disjoint2(IdsOf(tables2, chains[j]), IdsOf(tables2, chains[l]))
    {
      ApartAt(pages, tables, fds, chains, contents, j, l);
    }
  }

  lemma MakeFiles(pages: Blocks, tables: Tables, fds: seq<FileDescriptor>, chains: seq<seq<nat>>,
                  contents: seq<seq<Byte>>, k: nat)
    requires |fds| == |chains| == |contents| && k < |fds|
    requires forall j | 0 <= j < |fds| ::
               IsFile(pages, tables, fds[j], contents[j], chains[j]) && AllIn(tables, chains[j])
    requires forall j | 0 <= j < |fds| && j != k :: Disjoint2(chains[k], chains[j]) && Disjoint2(chains[j], chains[k])
    requires forall j | 0 <= j < |fds| && j != k ::
               && Disjoint2(IdsOf(tables, chains[k]), IdsOf(tables, chains[j]))
               && Disjoint2(IdsOf(tables, chains[j]), IdsOf(tables, chains[k]))
    requires forall j, l | 0 <= j < |fds| && 0 <= l < |fds| && j != l && j != k && l != k ::
               Disjoint2(chains[j], chains[l]) && Disjoint2(IdsOf(tables, chains[j]), IdsOf(tables, chains[l]))
    ensures AllFiles(pages, tables, fds, chains, contents)
  {
    hide IsFile, IdsOf, Disjoint2;
  }

  lemma StillNew(tables: Tables, tables2: Tables, chains: seq<seq<nat>>, k: nat, now: seq<nat>, used: set<nat>,
                 used0: set<nat>)
    requires NewHere(tables, chains, used0) && k < |chains| && used0 <= used && AllIn(tables, chains[k])
    requires AllIn(tables2, now) && Longer(chains[k], now, used)
    requires Longer(IdsOf(tables, chains[k]), IdsOf(tables2, now), used)
    requires forall j | 0 <= j < |chains| && j != k :: AllIn(tables, chains[j]) && AllIn(tables2, chains[j])
               && IdsOf(tables2, chains[j]) == IdsOf(tables, chains[j])
    ensures NewHere(tables2, chains[k := now], used0)
  {
    hide IdsOf, Longer;
    OwnNew(tables, chains, used0, k);
    NewStill(chains[k], now, used, used0);
    NewStill(IdsOf(tables, chains[k]), IdsOf(tables2, now), used, used0);
  }

  lemma NewStill(was: seq<nat>, now: seq<nat>, used: set<nat>, used0: set<nat>)
    requires Longer(was, now, used) && used0 <= used && forall id | id in multiset(was) :: id !in used0
    ensures forall id | id in now :: id !in used0
  {
    forall id | id in now ensures id !in used0 {
      var i :| 0 <= i < |now| && now[i] == id;
      if i < |was| {
        assert id == was[i] && id in multiset(was);
      }
    }
  }

  /** Each of these files read as a whole is its content. */
  method ReadAll(store: Store, fds: seq<FileDescriptor>, ghost chains: seq<seq<nat>>, ghost contents: seq<seq<Byte>>)
    returns (read: seq<seq<Byte>>)
    requires AllFiles(store.pages, store.tables, fds, chains, contents)
    ensures read == contents
  {
    hide IsFile;
    read := [];
    for k := 0 to |fds|
      invariant |fds| == |contents| && read == contents[..k]
    {
      FileAt(store.pages, store.tables, fds, chains, contents, k);
      FileSize(store.pages, store.tables, fds[k], contents[k], chains[k]);
      var pieces := ReadBack(store, fds[k], [fds[k].fileSize], contents[k], chains[k]);
      OnePiece(pieces, fds[k].fileSize);
      assert contents[k][..|contents[k]|] == contents[k];
      read := read + [pieces[0]];
    }
  }

  /** Each file read as a whole is what was written to it. */
  method WriteAndRead(store: Store, count: nat, sessions: seq<Writes>, highWaterMark: nat)
    returns (read: seq<seq<Byte>>)
    requires INVALID !in store.tables && highWaterMark > 0 && forall s | s in sessions :: s.file < count
    modifies store
    ensures |read| == count && forall k | 0 <= k < count :: read[k] == ContentOf(sessions, k)
  {
    hide IsFile, AllFiles;
    var fds;
    ghost var chains;
    fds, chains := WriteFiles(store, count, sessions, highWaterMark);
    read := ReadAll(store, fds, chains, Contents(sessions, count));
  }

  lemma FileSize(pages: Blocks, tables: Tables, fd: FileDescriptor, content: seq<Byte>, chain: seq<nat>)
    requires IsFile(pages, tables, fd, content, chain)
    ensures fd.fileSize == |content|
  {
  }

  lemma OnePiece(pieces: seq<seq<Byte>>, size: nat)
    requires |pieces| == 1
    ensures Concat(pieces) == pieces[0] && Total([size]) == size
  {
    assert pieces[..0] == [] && [size][..0] == [];
  }
}
