/** The free space of the file: itself a chain of tables that list free pages. */
module FreeStores {
  import opened Basics
  import opened Intervals
  import opened FileTables
  import opened FileStores
  import opened PageBags
  import opened FreeTables

  datatype Allocation = Got(iv: Interval) | Nothing | Exhausted

  class FreeStore {
    var tables: Tables
    var fd: FileDescriptor
    var currentFileSize: nat
    var filesToDelete: seq<FileDescriptor>
    var freeMetaDataPages: set<nat>
    var stillInUsePages: set<nat>
    const current: IntervalSequence
    var loaded: bool
    /** All pages of the file, the tables of the free list and those of the files to delete. */
    var pages: set<nat>
    ghost var chain: seq<nat>
    ghost var chains: seq<seq<nat>>

    ghost predicate Shape()
      reads this, current
    {
      && current.Valid() && INVALID !in pages && tables.Keys <= pages && chain != [] && AllIn(tables, chain)
      && AllIn(tables, chain[1..])
      && FileOk(tables, fd.(last := chain[|chain| - 1]), chain) && FilesOk(tables, filesToDelete, chains)
    }

    /** Everything the free store answers for. */
    ghost function Owned(): multiset<nat>
      requires Shape()
      reads this, current
    {
      ListBag(tables, chain, loaded)
      + (Bag(current.intervals) + multiset(freeMetaDataPages) + multiset(stillInUsePages) + FilesBag(tables, chains))
    }

    /** The pages that can still be allocated. */
    ghost function FreePages(): multiset<nat>
      requires Shape()
      reads this, current
    {
      Bag(Listed(tables, if loaded then chain[1..] else chain)) + Bag(current.intervals)
    }

    /** The intervals at hand once the head of the list is loaded. */
    ghost function Head(): seq<Run>
      requires Shape()
      reads this, current
    {
      if loaded then current.intervals else PushAll(current.intervals, tables[fd.first].intervals)
    }

    /** Between calls: as long as nothing was allocated, the list is as the transaction found it. */
    ghost predicate Valid()
      reads this, current
      ensures Valid() ==> Shape()
    {
      && State() && currentFileSize <= fd.fileSize && (loaded <==> currentFileSize != fd.fileSize)
      && (!loaded ==> current.intervals == [])
      && (|chain| > 1 || !loaded ==> fd.last == chain[|chain| - 1])
    }

    ghost predicate State()
      reads this, current
      ensures State() ==> Shape()
    {
      Shape() && Owned() <= multiset(pages) && PAGE * |FreePages()| <= currentFileSize
    }

    /** The free list as a transaction finds it. */
    constructor (tables: Tables, fd: FileDescriptor, pages: set<nat>, ghost chain: seq<nat>)
      requires INVALID !in pages && tables.Keys <= pages && FileOk(tables, fd, chain) && AllIn(tables, chain[1..])
      requires ListBag(tables, chain, false) <= multiset(pages) && PAGE * |Bag(Listed(tables, chain))| <= fd.fileSize
      ensures Valid() && fresh(current) && Owned() == ListBag(tables, chain, false)
      ensures FreePages() == Bag(Listed(tables, chain))
      ensures this.tables == tables && this.fd == fd && this.pages == pages && currentFileSize == fd.fileSize
      ensures freeMetaDataPages == {} && stillInUsePages == {} && filesToDelete == [] && !loaded
    {
      this.tables, this.fd, this.currentFileSize := tables, fd, fd.fileSize;
      filesToDelete, freeMetaDataPages, stillInUsePages, loaded := [], {}, {}, false;
      this.pages, this.chain, this.chains := pages, chain, [];
      current := new IntervalSequence();
      new;
      hide Shape, Owned, FreePages, FileOk, ListBag;
      StartsValid();
    }

    lemma StartsValid()
      requires INVALID !in pages && tables.Keys <= pages && FileOk(tables, fd, chain) && AllIn(tables, chain[1..])
      requires ListBag(tables, chain, false) <= multiset(pages) && PAGE * |Bag(Listed(tables, chain))| <= fd.fileSize
      requires current.Valid() && current.intervals == [] && filesToDelete == [] && freeMetaDataPages == {}
      requires stillInUsePages == {} && !loaded
      requires chains == [] && currentFileSize == fd.fileSize
      ensures Valid() && Owned() == ListBag(tables, chain, false) && FreePages() == Bag(Listed(tables, chain))
    {
      hide PagesOf, Listed, ListBag, FilesBag, Bag, FilesOk, AllIn, Chained, Distinct;
      FilesNone(tables);
      ghost var none: set<nat> := {};
      assert multiset(none) == multiset{};
      assert fd.(last := chain[|chain| - 1]) == fd;
      assert Owned() == ListBag(tables, chain, false);
      assert FreePages() == Bag(Listed(tables, chain));
    }

    /** Meta-data pages that become free. */
    method Deallocate(page: nat)
      requires Valid() && page in pages && page !in Owned()
      modifies this`freeMetaDataPages
      ensures Valid() && Owned() == old(Owned()) + multiset{page}
      ensures freeMetaDataPages == old(freeMetaDataPages) + {page}
    {
      hide ListBag, FilesBag, Bag, PagesOf;
      assert page !in multiset(freeMetaDataPages);
      freeMetaDataPages := freeMetaDataPages + {page};
      assert multiset(freeMetaDataPages) == multiset(old(freeMetaDataPages)) + multiset{page};
      OneMoreFits(old(Owned()), page, pages);
    }

    /** Pages that become free although the cache still needs them until the commit is done. */
    method DeallocateStillInUse(page: nat)
      requires Valid() && page in pages && page !in Owned()
      modifies this`stillInUsePages
      ensures Valid() && Owned() == old(Owned()) + multiset{page}
      ensures stillInUsePages == old(stillInUsePages) + {page}
    {
      hide ListBag, FilesBag, Bag, PagesOf;
      assert page !in multiset(stillInUsePages);
      stillInUsePages := stillInUsePages + {page};
      assert multiset(stillInUsePages) == multiset(old(stillInUsePages)) + multiset{page};
      OneMoreFits(old(Owned()), page, pages);
    }

    /** The pages of a file become free with the commit. */
    method DeleteFile(file: FileDescriptor, ghost files: seq<nat>)
      requires Valid() && (file != NO_FILE ==> FileOk(tables, file, files))
      requires file != NO_FILE ==> PAGE * |Bag(Listed(tables, files))| < file.fileSize + PAGE
      requires file != NO_FILE ==> Owned() + (multiset(files) + Bag(Listed(tables, files))) <= multiset(pages)
      modifies this`filesToDelete, this`chains
      ensures Valid()
      ensures Owned() == if file == NO_FILE then old(Owned())
              else old(Owned()) + (multiset(files) + Bag(Listed(tables, files)))
      ensures filesToDelete == old(filesToDelete) + if file == NO_FILE then []
              else [file.(fileSize := (file.fileSize + PAGE - 1) / PAGE * PAGE)]
    {
      hide ListBag, Bag, PagesOf, Listed, FilesBag, FilesOk;
      if file == NO_FILE {
        return;
      }
      var rounded := file.(fileSize := (file.fileSize + PAGE - 1) / PAGE * PAGE);
      RoundedUp(|Bag(Listed(tables, files))|, file.fileSize);
      FilesMore(tables, filesToDelete, chains, rounded, files);
      filesToDelete := filesToDelete + [rounded];
      chains := chains + [files];
    }

    /** The head of the free list is loaded when it is needed first. */
    method LoadHead()
      requires State()
      modifies this`loaded, current
      ensures State() && loaded && Owned() == old(Owned()) && FreePages() == old(FreePages())
      ensures current.intervals == old(Head())
    {
      hide FilesBag, Bag, PagesOf, Listed, PushAll, ListBag, Chained, Distinct;
      if loaded {
        return;
      }
      LoadStep(tables, chain, current.intervals);
      Moved(ListBag(tables, chain, true), Bag(PushAll(current.intervals, tables[fd.first].intervals)),
            ListBag(tables, chain, false), Bag(current.intervals),
            multiset(freeMetaDataPages), multiset(stillInUsePages), FilesBag(tables, chains));
      InsertInto(current, tables[fd.first].intervals);
      loaded := true;
    }

    /** Up to `maxPages` pages of one interval. The code takes from the list as long as its size is not zero;
        the list can be exhausted before, since the size still counts pages that became tables. */
    method Allocate(maxPages: nat) returns (r: Allocation)
      requires Valid() && maxPages > 0
      modifies this`tables, this`currentFileSize, this`freeMetaDataPages, this`loaded, this`chain, current
      ensures r != Exhausted ==> Valid()
      ensures r == Nothing <==> old(currentFileSize) == 0
      ensures r == Exhausted <==> old(currentFileSize) > 0 && old(FreePages()) == multiset{}
      ensures r.Got? ==> FreePages() + multiset(Pages(r.iv)) == old(FreePages())
      ensures r == Nothing ==> Owned() == old(Owned())
      ensures r.Got? ==> 0 < Length(r.iv) <= maxPages && Owned() + multiset(Pages(r.iv)) == old(Owned())
      ensures r.Got? ==> currentFileSize == old(currentFileSize) - PAGE * Length(r.iv)
      ensures r == Nothing ==> unchanged(this) && unchanged(current)
      ensures r != Nothing ==> loaded && 1 <= |chain| <= |old(chain)|
      ensures r != Nothing ==> LoadedTo(old(tables), old(chain), old(freeMetaDataPages), old(Head()), maxPages,
                                        Loads(old(chain), chain), tables, chain, freeMetaDataPages)
      ensures r != Nothing ==> GivesFrom(AtHand(old(tables), old(chain), old(Head()), Loads(old(chain), chain)),
                                         maxPages, r, current.intervals)
    {
      hide PushAll, Pages, LoadedTo, AtHand, Behind, Gathered, FreeStore.State, FreeStore.Shape, FreeStore.Owned;
      hide FreeStore.FreePages, FreeStore.Valid, FreeStore.Head;
      ValidFacts();
      if currentFileSize == 0 {
        return Nothing;
      }
      LoadHead();
      ghost var j := LoadTables(maxPages);
      if current.intervals == [] {
        return Exhausted;
      }
      FrontSome(current.intervals, maxPages);
      var iv := Take(maxPages);
      r := Got(iv);
      ValidAgain();
    }

    lemma ValidFacts()
      requires Valid()
      ensures State() && AllIn(tables, chain) && currentFileSize <= fd.fileSize
      ensures |chain| > 1 || !loaded ==> fd.last == chain[|chain| - 1]
      ensures currentFileSize == 0 ==> FreePages() == multiset{}
    {
      hide FilesBag, Bag, PagesOf, Listed, ListBag, Chained, Distinct, FilesOk;
    }

    lemma StoreTables()
      requires Valid()
      ensures tables.Keys <= pages
    {
    }

    lemma HeadOwned()
      requires Valid()
      ensures fd.first in Owned() && fd.first in tables
    {
      hide FilesBag, Bag, PagesOf, Listed;
      assert chain[0] in multiset(chain);
    }

    lemma ValidAgain()
      requires State() && loaded && currentFileSize < fd.fileSize
      requires |chain| > 1 ==> fd.last == chain[|chain| - 1]
      ensures Valid()
    {
      hide FilesBag, Bag, PagesOf, Listed, ListBag, Chained, Distinct, FilesOk, FileOk;
    }

    /** Takes pages off the first interval. */
    method Take(maxPages: nat) returns (iv: Interval)
      requires State() && maxPages > 0 && current.intervals != []
      modifies this`currentFileSize, current
      ensures State() && old(FreePages()) != multiset{}
      ensures 0 < Length(iv) <= maxPages && Owned() + multiset(Pages(iv)) == old(Owned())
      ensures FreePages() + multiset(Pages(iv)) == old(FreePages())
      ensures currentFileSize == old(currentFileSize) - PAGE * Length(iv)
      ensures iv == Front(old(current.intervals), maxPages)
      ensures current.intervals == Behind(old(current.intervals), maxPages)
    {
      hide FilesBag, Bag, PagesOf, Listed, ListBag, Chained, Distinct, Pages, Behind;
      ghost var was := current.intervals;
      ghost var listed := Bag(Listed(tables, if loaded then chain[1..] else chain));
      iv := current.PopPages(maxPages);
      PopBag(was, iv, current.intervals);
      TakeSum(ListBag(tables, chain, loaded), multiset(Pages(iv)), Bag(current.intervals), multiset(freeMetaDataPages),
              multiset(stillInUsePages), FilesBag(tables, chains), pages);
      TakeSize(listed, multiset(Pages(iv)), Bag(current.intervals));
      currentFileSize := currentFileSize - Length(iv) * PAGE;
    }

    /** Loads as many tables as are needed for a request; the head then leads past them, and they are free. */
    method LoadTables(maxPages: nat) returns (ghost j: nat)
      requires State() && loaded && maxPages > 0
      modifies this`tables, this`freeMetaDataPages, this`chain, current
      ensures State() && Owned() == old(Owned()) && FreePages() == old(FreePages())
      ensures current.intervals == [] ==> FreePages() == multiset{}
      ensures |chain| <= old(|chain|) && (|chain| > 1 ==> chain[|chain| - 1] == old(chain[|chain| - 1]))
      ensures 1 <= j <= |old(chain)| && |chain| == |old(chain)| - j + 1
      ensures loaded && LoadedTo(old(tables), old(chain), old(freeMetaDataPages), old(current.intervals), maxPages, j,
                                 tables, chain, freeMetaDataPages)
      ensures current.intervals == AtHand(old(tables), old(chain), old(current.intervals), j)
    {
      hide FilesBag, Bag, PagesOf, Listed, ListBag, TailBag, Loading, Chained, Distinct, FileOk, FilesOk, Shape;
      hide Coalesced, Sorted, PushAll, Needed, Passed, Gathered, FreeStore.State, FreeStore.Owned, FreeStore.FreePages;
      ShapeFacts();
      StateFacts();
      var next;
      next, j := LoadMore(maxPages);
      if j == |chain| {
        NothingListed(tables, chain[j..]);
      }
      HeadLeads(tables, chain, j, next);
      if next != tables[fd.first].next {
        SkipLoaded(next, j);
      } else {
        NoneSkipped(j, old(Owned()), old(FreePages()));
      }
    }

    lemma StateFacts()
      requires State()
      ensures Owned() <= multiset(pages) && PAGE * |FreePages()| <= currentFileSize
    {
      hide FilesBag, Bag, PagesOf, Listed, ListBag, Shape, FileOk, FilesOk;
    }

    /** If the head of the list leads on as before, no table was loaded. */
    lemma NoneSkipped(j: nat, owned: multiset<nat>, free: multiset<nat>)
      requires Shape() && loaded && 1 <= j <= |chain| && AllIn(tables, chain[j..]) && fd.first in tables
      requires tables[fd.first].next == (if j < |chain| then chain[j] else INVALID)
      requires Loading(tables, chain, j, Bag(current.intervals), freeMetaDataPages, RestBag()) == owned
      requires Bag(Listed(tables, chain[j..])) + Bag(current.intervals) == free
      requires owned <= multiset(pages) && PAGE * |free| <= currentFileSize
      ensures j == 1 && State() && Owned() == owned && FreePages() == free
    {
      hide FilesBag, Bag, PagesOf, Listed, ListBag, TailBag, Loading, Chained, Distinct, FileOk, FilesOk;
      NoneLoaded(tables, chain, j, Bag(current.intervals), freeMetaDataPages, stillInUsePages, filesToDelete, chains,
                 fd);
    }

    /** The head of the list leads to table number `j`, and the current intervals are sorted. */
    method SkipLoaded(next: nat, ghost j: nat)
      requires Shape() && loaded && 1 <= j <= |chain| && next == (if j < |chain| then chain[j] else INVALID)
      requires AllIn(tables, chain[j..])
      requires Loading(tables, chain, j, Bag(current.intervals), freeMetaDataPages, RestBag()) <= multiset(pages)
      requires PAGE * |Bag(Listed(tables, chain[j..])) + Bag(current.intervals)| <= currentFileSize
      modifies this`tables, this`chain, current
      ensures State() && Owned() == old(Loading(tables, chain, j, Bag(current.intervals), freeMetaDataPages, RestBag()))
      ensures FreePages() == old(Bag(Listed(tables, chain[j..])) + Bag(current.intervals))
      ensures current.intervals == [] ==> old(current.intervals) == []
      ensures |chain| <= old(|chain|) && (|chain| > 1 ==> chain[|chain| - 1] == old(chain[|chain| - 1]))
      ensures chain == [old(chain)[0]] + old(chain)[j..] && fd.first == old(chain)[0] && fd.first in old(tables)
      ensures tables == old(tables)[fd.first := old(tables)[fd.first].(next := next)]
      ensures current.intervals == Coalesced(Sorted(old(current.intervals)))
    {
      hide FilesBag, PagesOf, Listed, ListBag, TailBag, Loading, Chained, Distinct, Sorted, Coalesced;
      SkipTables(tables, chain, j, Bag(current.intervals), freeMetaDataPages, stillInUsePages, filesToDelete, chains,
                 fd, pages);
      tables := tables[fd.first := tables[fd.first].(next := next)];
      chain := [chain[0]] + chain[j..];
      ghost var was := current.intervals;
      current.Sort();
      EmptyBag(was, current.intervals);
    }

    lemma ShapeFacts()
      requires State()
      ensures chain != [] && fd.first == chain[0] && fd.first in tables && AllIn(tables, chain)
      ensures Chained(tables, chain) && FilesIn(tables, chains) && Distinct(chain) && INVALID !in tables
    {
    }

    ghost function RestBag(): multiset<nat>
      requires FilesIn(tables, chains)
      reads this
    {
      multiset(stillInUsePages) + FilesBag(tables, chains)
    }

    /** The first part of loading: the list is as it was, but the tables before number `j` are done with. */
    method LoadMore(maxPages: nat) returns (next: nat, ghost j: nat)
      requires State() && loaded && maxPages > 0
      modifies this`freeMetaDataPages, current
      ensures Shape() && 1 <= j <= |chain| && next == (if j < |chain| then chain[j] else INVALID)
      ensures AllIn(tables, chain[j..])
      ensures Loading(tables, chain, j, Bag(current.intervals), freeMetaDataPages, RestBag()) == old(Owned())
      ensures Bag(Listed(tables, chain[j..])) + Bag(current.intervals) == old(FreePages())
      ensures current.intervals == [] ==> j == |chain|
      ensures AllIn(tables, chain) && Needed(tables, chain, |PagesOf(old(current.intervals))|, maxPages, j)
      ensures current.intervals == Gathered(tables, chain, old(current.intervals), j)
      ensures freeMetaDataPages == old(freeMetaDataPages) + Passed(chain, j)
    {
      hide FilesBag, Bag, PagesOf, Listed, PushAll, ListBag, TailBag, FileOk, FilesOk, Distinct, Passed, Needed,
           Gathered, NotEnough;
      ShapeFacts();
      ghost var cur := current.intervals;
      NoTables(tables, chain, cur, maxPages);
      next, j := tables[fd.first].next, 1;
      StartSum(tables, chain, Bag(current.intervals), multiset(freeMetaDataPages), multiset(stillInUsePages),
               FilesBag(tables, chains));
      while next != INVALID && current.totalLength < maxPages
        invariant 1 <= j <= |chain| && next == (if j < |chain| then chain[j] else INVALID) && current.Valid()
        invariant AllIn(tables, chain[j..])
        invariant Loading(tables, chain, j, Bag(current.intervals), freeMetaDataPages, RestBag()) == old(Owned())
        invariant Bag(Listed(tables, chain[j..])) + Bag(current.intervals) == old(FreePages())
        invariant current.intervals == Gathered(tables, chain, cur, j)
        invariant freeMetaDataPages == old(freeMetaDataPages) + Passed(chain, j)
        invariant AllIn(tables, chain) && NotEnough(tables, chain, |PagesOf(cur)|, maxPages, j)
        decreases |chain| - j
      {
        TableMore(tables, chain, cur, maxPages, j);
        LoadOne(tables, chain, j, current.intervals, freeMetaDataPages, RestBag(), pages);
        freeMetaDataPages := freeMetaDataPages + {next};
        InsertInto(current, tables[next].intervals);
        next := tables[next].next;
        j := j + 1;
      }
      NothingTotal(current);
      EnoughNow(tables, chain, cur, maxPages, j);
    }

    // ---------------------------------------------------------------- closing

    /** Writes the free list back: what was there and was not allocated, and everything that became free. No
        page that is still in use becomes a table. */
    method Close() returns (r: FileDescriptor, ghost list: seq<nat>, ghost grown: seq<nat>)
      requires Valid()
      modifies this, current
      ensures list != [] && AllIn(tables, list) && AllIn(tables, list[1..]) && FileOk(tables, r, list)
      ensures SizeOk(tables, r, list)
      ensures multiset(list) + Bag(Listed(tables, list)) == old(Owned()) + multiset(grown) <= multiset(pages)
      ensures old(pages) <= pages && forall t | t in grown :: t !in old(pages)
      ensures forall t | t in list :: t !in old(stillInUsePages)
      ensures INVALID !in pages && tables.Keys <= pages
      ensures old(AllFit(tables)) ==> AllFit(tables)
      ensures old(stillInUsePages) == {} ==> grown == []
      ensures r.fileSize == old(ClosedSize()) && r.first == old(fd.first)
      ensures Kept(old(tables), tables, old(Owned()))
    {
      hide FilesBag, Bag, PagesOf, Listed, ListBag, Chaining, FileOk, SizeOk, Ready, FilesOk, AllFit, Kept;
      ghost var total := Owned();
      StoreTables();
      var pool, size := Collect();
      ghost var collected := tables;
      list, grown := PushTables(pool, total, size);
      KeptThrough(old(tables), collected, tables, total, total);
      ghost var pushed := tables;
      list := ChainFiles(list, total + multiset(grown), size);
      KeptThrough(old(tables), pushed, tables, total, total + multiset(grown));
      fd := fd.(fileSize := size);
      r := fd;
      filesToDelete, chains, freeMetaDataPages, stillInUsePages := [], [], {}, {};
      current.Clear();
    }

    /** The size of the closed list: what was left, the files to delete, and one page for each page that became free
        on its own or as the single table of a file. */
    function ClosedSize(): nat
      reads this
    {
      currentFileSize + FilesSize(filesToDelete)
      + PAGE * (|freeMetaDataPages| + Singles(filesToDelete) + |stillInUsePages|)
    }

    /** What `PushTables` starts from: `total` is what is in the list, in the files and in the pool. */
    ghost predicate Ready(pool: IntervalSequence, total: multiset<nat>, size: nat)
      reads this, current, pool
    {
      && Shape() && pool.Valid() && current.intervals == [] && fd.last == chain[|chain| - 1]
      && ListBag(tables, chain, loaded) + FilesBag(tables, chains) + Bag(pool.intervals) == total <= multiset(pages)
      && (if pool.intervals == [] then loaded ==> tables[fd.first].intervals == [] else loaded)
      && PAGE * (|Bag(pool.intervals)| + |Bag(Listed(tables, if loaded then chain[1..] else chain))|
                 + FilesCount(tables, chains)) <= size
      && stillInUsePages <= pages && forall p | p in chain || p in FilesBag(tables, chains) :: p !in stillInUsePages
    }

    /** Everything that is free goes into one pool; the head of the list gives up what it listed if there is
        anything to write. */
    method Collect() returns (pool: IntervalSequence, size: nat)
      requires Valid()
      modifies this`tables, this`fd, this`filesToDelete, this`freeMetaDataPages, this`chains, this`loaded, current
      ensures fresh(pool) && Ready(pool, old(Owned()), size)
      ensures old(AllFit(tables)) ==> AllFit(tables)
      ensures size == old(ClosedSize()) && Kept(old(tables), tables, old(Owned())) && fd.first == old(fd.first)
    {
      hide FilesBag, Bag, PagesOf, Listed, ListBag, FilesOk, Chained, Distinct, FilesCount, FilesSize, FileOk, AllFit,
           Ready, Kept, Singles;
      Prepare();
      CountBound(tables, filesToDelete, chains);
      size := fd.fileSize + FilesSize(filesToDelete);
      pool := CollectFree();
      size := size + (|freeMetaDataPages| + |stillInUsePages|) * PAGE;
      NowReady(pool, old(Owned()), size);
    }

    /** The pool gets what files of one table list, the table pages that are free, the pages still in use and the
        intervals left. */
    method CollectFree() returns (pool: IntervalSequence)
      requires State() && (loaded ==> tables[fd.first].intervals == []) && (!loaded ==> current.intervals == [])
      modifies this`filesToDelete, this`freeMetaDataPages, this`chains, this`loaded, current
      ensures fresh(pool) && Shape() && pool.Valid() && current.intervals == []
      ensures ListBag(tables, chain, loaded) + FilesBag(tables, chains) + Bag(pool.intervals) == old(Owned())
      ensures |Bag(pool.intervals)| + |Bag(Listed(tables, if loaded then chain[1..] else chain))|
              + FilesCount(tables, chains)
           == |freeMetaDataPages| + |stillInUsePages| + old(|FreePages()| + FilesCount(tables, chains))
      ensures if pool.intervals == [] then loaded ==> tables[fd.first].intervals == [] else loaded
      ensures stillInUsePages <= pages
      ensures forall p | p in chain || p in FilesBag(tables, chains) :: p !in stillInUsePages
      ensures |freeMetaDataPages| == old(|freeMetaDataPages| + Singles(filesToDelete))
    {
      hide FilesBag, Bag, PagesOf, Listed, ListBag, FilesOk, Chained, Distinct, FilesCount, FilesSize, FileOk, Singles;
      pool := new IntervalSequence();
      SplitFiles(pool);
      TakeSome(Owned(), Bag(pool.intervals), pages);
      StillApart();
      AddRemaining(pool);
    }

    lemma NowReady(pool: IntervalSequence, total: multiset<nat>, size: nat)
      requires Shape() && pool.Valid() && current.intervals == [] && fd.last == chain[|chain| - 1]
      requires ListBag(tables, chain, loaded) + FilesBag(tables, chains) + Bag(pool.intervals)
               == total <= multiset(pages)
      requires if pool.intervals == [] then loaded ==> tables[fd.first].intervals == [] else loaded
      requires PAGE * (|Bag(pool.intervals)| + |Bag(Listed(tables, if loaded then chain[1..] else chain))|
                       + FilesCount(tables, chains)) <= size
      requires stillInUsePages <= pages
      requires forall p | p in chain || p in FilesBag(tables, chains) :: p !in stillInUsePages
      ensures Ready(pool, total, size)
    {
      hide FilesBag, Bag, PagesOf, Listed, ListBag, FilesOk, Chained, Distinct, FilesCount, FileOk;
    }

    /** Appends the files to delete to the list, table chain by table chain. */
    method ChainFiles(ghost list: seq<nat>, ghost total: multiset<nat>, ghost size: nat) returns (ghost list2: seq<nat>)
      requires Chaining(tables, list, fd.last, filesToDelete, chains, total, pages, size) && list != []
      requires fd.first == list[0]
      requires FilesIn(tables, chains) && forall p | p in FilesBag(tables, chains) :: p !in stillInUsePages
      requires forall t | t in list :: t !in stillInUsePages
      modifies this`tables, this`fd
      ensures list2 != [] && AllIn(tables, list2) && AllIn(tables, list2[1..])
      ensures var r := FileDescriptor(fd.first, fd.last, size); FileOk(tables, r, list2) && SizeOk(tables, r, list2)
      ensures multiset(list2) + Bag(Listed(tables, list2)) == total <= multiset(pages) && INVALID !in tables
      ensures tables.Keys <= pages
      ensures forall t | t in list2 :: t !in stillInUsePages
      ensures old(AllFit(tables)) ==> AllFit(tables)
      ensures Kept(old(tables), tables, total) && fd.first == old(fd.first)
    {
      hide FilesBag, Bag, PagesOf, Listed, Chaining, AllFit, Kept;
      KeptSame(tables, total);
      list2 := list;
      ghost var left := chains;
      for i := 0 to |filesToDelete|
        invariant Chaining(tables, list2, fd.last, filesToDelete[i..], left, total, pages, size)
        invariant list2 != [] && fd.first == list2[0] == list[0]
        invariant FilesIn(tables, left) && forall p | p in FilesBag(tables, left) :: p !in stillInUsePages
        invariant forall t | t in list2 :: t !in stillInUsePages
        invariant (old(AllFit(tables)) ==> AllFit(tables)) && Kept(old(tables), tables, total)
      {
        ghost var last, files := fd.last, filesToDelete[i..];
        assert files[0] == filesToDelete[i] && files[1..] == filesToDelete[i + 1..];
        ChainStep(tables, list2, last, files, left, total, pages, size);
        if old(AllFit(tables)) {
          FitsAs(tables, fd.last, tables[fd.last].(next := filesToDelete[i].first));
        }
        LastIn(tables, list2, last, files, left, total, pages, size);
        KeptOne(old(tables), tables, total, fd.last, tables[fd.last].(next := filesToDelete[i].first));
        tables := tables[fd.last := tables[fd.last].(next := filesToDelete[i].first)];
        fd := fd.(last := filesToDelete[i].last);
        list2, left := list2 + left[0], left[1..];
      }
      ChainDone(tables, list2, fd.last, filesToDelete[|filesToDelete|..], left, total, pages, size,
                FileDescriptor(list2[0], fd.last, size));
    }

    /** Pages still in use belong to no table. */
    lemma StillApart()
      requires Shape() && Owned() <= multiset(pages)
      ensures stillInUsePages <= pages
      ensures forall p | p in chain || p in FilesBag(tables, chains) :: p !in stillInUsePages
    {
      hide FilesBag, Bag, PagesOf, Listed, FileOk;
      var list, f := ListBag(tables, chain, loaded), FilesBag(tables, chains);
      InUseApart(list, Bag(current.intervals), multiset(freeMetaDataPages), stillInUsePages, f, pages);
      forall p | p in chain || p in f ensures p !in stillInUsePages {
        assert p in chain ==> p in multiset(chain);
        assert p in list + f;
      }
    }

    /** The pool gets the free table pages, the pages still in use and, with anything to write, the intervals
        that are left. */
    method AddRemaining(pool: IntervalSequence)
      requires Shape() && pool.Valid() && pool != current && Owned() + Bag(pool.intervals) <= multiset(pages)
      requires PAGE * |FreePages()| <= currentFileSize
      requires (loaded ==> tables[fd.first].intervals == []) && (!loaded ==> current.intervals == [])
      modifies this`loaded, current, pool
      ensures Shape() && pool.Valid() && current.intervals == []
      ensures ListBag(tables, chain, loaded) + FilesBag(tables, chains) + Bag(pool.intervals)
              == old(Owned() + Bag(pool.intervals))
      ensures |Bag(pool.intervals)| + |Bag(Listed(tables, if loaded then chain[1..] else chain))|
           == old(|Bag(pool.intervals)| + |freeMetaDataPages| + |stillInUsePages| + |FreePages()|)
      ensures if pool.intervals == [] then loaded ==> tables[fd.first].intervals == [] else loaded
    {
      hide FilesBag, Bag, PagesOf, Listed, ListBag, FilesOk, FileOk, PushAll, Sorted, AllIn, Chained, Distinct;
      ghost var given := Bag(pool.intervals);
      AddPages(pool, freeMetaDataPages);
      AddPages(pool, stillInUsePages);
      assert State() by {
        TakeSome(Owned(), given, pages);
      }
      if pool.intervals != [] {
        LoadHead();
      }
      ShapeFacts();
      AllGiven(ListBag(tables, chain, loaded), FilesBag(tables, chains), Bag(current.intervals), freeMetaDataPages,
               stillInUsePages, given, Bag(Listed(tables, if loaded then chain[1..] else chain)));
      MoveCurrent(pool);
    }

    /** The intervals that are left join the pool, which is then sorted. */
    method MoveCurrent(pool: IntervalSequence)
      requires current.Valid() && pool.Valid() && pool != current
      modifies current, pool
      ensures current.Valid() && pool.Valid() && current.intervals == []
      ensures Bag(pool.intervals) == old(Bag(pool.intervals)) + old(Bag(current.intervals))
      ensures pool.intervals == [] <==> old(pool.intervals) == [] && old(current.intervals) == []
    {
      hide Bag, PagesOf, PushAll, Sorted;
      ghost var cur, before := current.intervals, pool.intervals;
      BagPushAll(before, cur);
      current.MoveTo(pool);
      ghost var moved := pool.intervals;
      pool.Sort();
      SortedBag(moved, pool.intervals);
      NoneLeft(before, cur, pool.intervals);
    }

    /** One interval for each of these pages. */
    static method AddPages(pool: IntervalSequence, more: set<nat>)
      requires pool.Valid()
      modifies pool
      ensures pool.Valid() && Bag(pool.intervals) == old(Bag(pool.intervals)) + multiset(more)
    {
      hide Bag, PagesOf;
      var todo := more;
      while todo != {}
        invariant pool.Valid() && todo <= more
        invariant Bag(pool.intervals) + multiset(todo) == old(Bag(pool.intervals)) + multiset(more)
        decreases |todo|
      {
        var p :| p in todo;
        BagPush(pool.intervals, Interval(p, p + 1));
        pool.PushBack(Interval(p, p + 1));
        assert multiset(todo) == multiset(todo - {p}) + multiset{p};
        assert Pages(Interval(p, p + 1)) == [p];
        todo := todo - {p};
      }
      assert multiset(todo) == multiset{};
    }

    /** A page that did not exist before. */
    method NewPage() returns (id: nat)
      modifies this`pages
      ensures id !in old(pages) && id != INVALID && pages == old(pages) + {id}
    {
      FreshRun(pages, 1);
      var iv: Run :| FreshFor(iv, pages, 1);
      assert Pages(iv)[0] == iv.begin;
      id := iv.begin;
      pages := pages + {id};
    }

    /** Fills a table with as much of the pool as finds room in it. */
    method Transfer(id: nat, pool: IntervalSequence)
      requires pool.Valid() && id in tables && pool.intervals != []
      modifies this`tables, pool
      ensures pool.Valid() && pool.intervals == old(pool.intervals)[Room(old(pool.intervals), 0)..]
      ensures tables == old(tables)[id := Table(old(tables)[id].next,
                                                old(pool.intervals)[..Room(old(pool.intervals), 0)])]
      ensures old(AllFit(tables)) ==> AllFit(tables)
    {
      hide AllFit;
      if AllFit(tables) {
        FitsFilled(tables, id, tables[id].next, pool.intervals);
      }
      ghost var all := pool.intervals;
      var n := Room(pool.intervals, 0);
      var taken := pool.intervals[..n];
      for i := 0 to n
        invariant pool.Valid() && pool.intervals == all[i..] && tables == old(tables)
      {
        var _ := pool.PopFront();
      }
      tables := tables[id := tables[id].(intervals := taken)];
    }


    /** Files with a single table are taken apart: what they list goes to the pool, the table is free. The
        others stay as they are. */
    method SplitFiles(pool: IntervalSequence)
      requires State() && pool.Valid() && pool.intervals == [] && pool != current
      modifies this`filesToDelete, this`freeMetaDataPages, this`chains, pool
      ensures Shape() && pool.Valid() && Owned() + Bag(pool.intervals) == old(Owned())
      ensures |freeMetaDataPages| == old(|freeMetaDataPages| + Singles(filesToDelete))
      ensures |Bag(pool.intervals)| + FilesCount(tables, chains) == old(FilesCount(tables, chains))
    {
      hide FilesBag, Bag, PagesOf, Listed, ListBag, Chained, Distinct, FilesCount, PushAll, FileOk, SizeOk, Singles;
      NoSingles();
      ghost var files0, chains0, meta0 := filesToDelete, chains, freeMetaDataPages;
      ghost var others := ListBag(tables, chain, loaded) + Bag(current.intervals) + multiset(stillInUsePages);
      ghost var before := multiset(meta0) + FilesBag(tables, chains);
      var keep: seq<FileDescriptor> := [];
      ghost var keepChains: seq<seq<nat>> := [];
      SplitStart(tables, chains0, multiset(meta0), others, Bag(current.intervals), multiset(stillInUsePages),
                 ListBag(tables, chain, loaded));
      for i := 0 to |filesToDelete|
        invariant filesToDelete == files0 && chains == chains0 && FilesOk(tables, keep, keepChains) && pool.Valid()
        invariant FilesIn(tables, chains0[i..])
        invariant Bag(pool.intervals) + multiset(freeMetaDataPages) + FilesBag(tables, keepChains)
                  + FilesBag(tables, chains0[i..]) == before
        invariant |Bag(pool.intervals)| + FilesCount(tables, keepChains) + FilesCount(tables, chains0[i..])
                  == FilesCount(tables, chains0)
        invariant |freeMetaDataPages| == |meta0| + Singles(files0[..i])
      {
        var file := filesToDelete[i];
        SinglesMore(files0, i);
        SplitStep(tables, files0, chains0, i, pool.intervals, freeMetaDataPages, keep, keepChains, others, pages);
        if file.first == file.last {
          InsertInto(pool, tables[file.first].intervals);
          freeMetaDataPages := freeMetaDataPages + {file.first};
        } else {
          keep := keep + [file];
          keepChains := keepChains + [chains0[i]];
        }
      }
      assert files0[..|files0|] == files0;
      filesToDelete, chains := keep, keepChains;
    }

    /** Appends intervals to a sequence. */
    static method InsertInto(to: IntervalSequence, part: seq<Run>)
      requires to.Valid()
      modifies to
      ensures to.Valid() && to.intervals == PushAll(old(to.intervals), part)
    {
      ghost var was := to.intervals;
      for i := 0 to |part|
        invariant to.Valid() && to.intervals == PushAll(was, part[..i])
      {
        assert part[..i + 1][..i] == part[..i];
        to.PushBack(part[i]);
      }
      assert part[..|part|] == part;
    }

    /** Writes the pool into tables: the head, and then tables chained behind it, which are taken from the
        pool itself unless the next page there is still in use. */
    method PushTables(pool: IntervalSequence, ghost total: multiset<nat>, ghost size: nat)
      returns (ghost list: seq<nat>, ghost grown: seq<nat>)
      requires Ready(pool, total, size)
      modifies this`tables, this`fd, this`pages, pool
      ensures Chaining(tables, list, fd.last, filesToDelete, chains, total + multiset(grown), pages, size) && list != []
      ensures fd.first == list[0]
      ensures old(pages) <= pages && INVALID !in pages && forall t | t in grown :: t !in old(pages)
      ensures forall t | t in list :: t !in stillInUsePages
      ensures FilesIn(tables, chains) && forall p | p in FilesBag(tables, chains) :: p !in stillInUsePages
      ensures (old(AllFit(tables)) ==> AllFit(tables)) && (stillInUsePages == {} ==> grown == [])
      ensures Kept(old(tables), tables, total) && fd.first == old(fd.first)
    {
      hide FilesBag, Bag, PagesOf, Listed, ListBag, Distinct, FilesCount, Chaining, Room, SizeOk, AllFit, Kept;
      grown := [];
      KeptSame(tables, total);
      assert total + multiset(grown) == total;
      if pool.intervals == [] {
        ListAsIs(tables, chain, loaded, filesToDelete, chains, total, pages, size, fd.last);
        list := chain;
        return;
      }
      list, grown := FillTables(pool, total, size);
    }

    method FillTables(pool: IntervalSequence, ghost total: multiset<nat>, ghost size: nat)
      returns (ghost list: seq<nat>, ghost grown: seq<nat>)
      requires Shape() && pool.Valid() && pool.intervals != [] && fd.last == chain[|chain| - 1]
      requires ListBag(tables, chain, true) + FilesBag(tables, chains) + Bag(pool.intervals) == total <= multiset(pages)
      requires PAGE * (|Bag(pool.intervals)| + |Bag(Listed(tables, chain[1..]))| + FilesCount(tables, chains)) <= size
      requires stillInUsePages <= pages && forall p | p in chain :: p !in stillInUsePages
      modifies this`tables, this`fd, this`pages, pool
      ensures Chaining(tables, list, fd.last, filesToDelete, chains, total + multiset(grown), pages, size) && list != []
      ensures fd.first == list[0]
      ensures old(pages) <= pages && INVALID !in pages && forall t | t in grown :: t !in old(pages)
      ensures forall t | t in list :: t !in stillInUsePages
      ensures FilesIn(tables, chains) && FilesBag(tables, chains) == old(FilesBag(tables, chains))
      ensures (old(AllFit(tables)) ==> AllFit(tables)) && (stillInUsePages == {} ==> grown == [])
      ensures Kept(old(tables), tables, total) && fd.first == old(fd.first)
    {
      hide FilesBag, Bag, PagesOf, Listed, ListBag, Distinct, FilesCount, Pushing, Room, FileOk, SizeOk, Chained,
           AllFit, Chaining, Kept;
      grown := [];
      var head := fd.first;
      ghost var done, rest, limit := [head], chain[1..], |Bag(pool.intervals)|;
      ghost var others, f := |Bag(Listed(tables, rest))| + FilesCount(tables, chains), FilesBag(tables, chains);
      HeadIs(tables, fd, chain);
      ghost var n := Room(pool.intervals, 0);
      HeadIn(tables, chain, total);
      KeptOne(tables, tables, total, head, Table(tables[head].next, pool.intervals[..n]));
      PoolParts(pool.intervals);
      PushFirst(tables, tables[head := Table(tables[head].next, pool.intervals[..n])], n, chain, pool.intervals,
                filesToDelete, chains, total, pages, others, f);
      assert total + multiset(grown) == total;
      Transfer(head, pool);
      var cur := head;
      while pool.intervals != []
        invariant Pushing(tables, done, rest, pool.intervals, filesToDelete, chains, total + multiset(grown), pages,
                          limit, others, f)
        invariant pool.Valid() && done != [] && cur == done[|done| - 1] && done[0] == fd.first == head && fd == old(fd)
        invariant old(pages) <= pages && INVALID !in pages && forall t | t in grown :: t !in old(pages)
        invariant forall t | t in done :: t !in stillInUsePages
        invariant (old(AllFit(tables)) ==> AllFit(tables)) && (stillInUsePages == {} ==> grown == [])
        invariant Kept(old(tables), tables, total) && (cur in total || cur !in old(tables))
        decreases |PagesOf(pool.intervals)|
      {
        var next;
        next, grown := NextTable(pool, done, rest, total, grown, limit, others, f);
        LinkKept(old(tables), tables, total, cur, next, pool.intervals[..Room(pool.intervals, 0)]);
        LinkTable(cur, next, pool);
        cur := next;
        done := done + [next];
      }
      Closes(tables, done, rest, fd, chain);
      if fd.first == fd.last {
        fd := fd.(last := cur);
      }
      list := done + rest;
      PushDone(tables, done, rest, filesToDelete, chains, total + multiset(grown), pages, limit, others, f, fd.last,
               size);
    }

    /** Chains a table behind another one and fills it with what finds room of the pool. */
    method LinkTable(cur: nat, next: nat, pool: IntervalSequence)
      requires pool.Valid() && cur in tables && cur != next
      modifies this`tables, pool
      ensures pool.Valid() && pool.intervals == old(pool.intervals)[Room(old(pool.intervals), 0)..]
      ensures tables == WithTable(old(tables), cur, next, old(pool.intervals)[..Room(old(pool.intervals), 0)])
      ensures old(AllFit(tables)) ==> AllFit(tables)
      ensures |PagesOf(pool.intervals)| <= old(|PagesOf(pool.intervals)|)
      ensures old(pool.intervals) != [] ==> |PagesOf(pool.intervals)| < old(|PagesOf(pool.intervals)|)
    {
      hide AllFit, Room, PagesOf;
      ghost var before, was := tables, pool.intervals;
      if AllFit(tables) {
        LinkFits(tables, cur, next);
      }
      tables := tables[next := Table(tables[cur].next, [])];
      tables := tables[cur := tables[cur].(next := next)];
      if pool.intervals != [] {
        PoolShrinks(pool.intervals);
        Transfer(next, pool);
      } else {
        NothingToFill(pool.intervals);
      }
      FilledIs(before, cur, next, was[..Room(was, 0)]);
    }

    /** A page for the next table. */
    method NextTable(pool: IntervalSequence, ghost done: seq<nat>, ghost rest: seq<nat>, ghost total: multiset<nat>,
                     ghost grown: seq<nat>, ghost limit: nat, ghost others: nat, ghost f: multiset<nat>)
      returns (next: nat, ghost grown2: seq<nat>)
      requires Pushing(tables, done, rest, pool.intervals, filesToDelete, chains, total + multiset(grown), pages,
                       limit, others, f)
      requires pool.Valid() && pool.intervals != [] && INVALID !in pages && done != []
      modifies this`pages, pool
      ensures pool.Valid() && old(pages) <= pages && INVALID !in pages
      ensures (forall t | t in grown2 :: t in grown || t !in old(pages))
      ensures next !in stillInUsePages || next !in old(pages)
      ensures var first := old(pool.intervals)[0].begin;
        if first in stillInUsePages then next !in old(pages) && grown2 == grown + [next] && unchanged(pool)
        else next == first && grown2 == grown && pool.intervals == Behind(old(pool.intervals), 1)
      ensures next in total || next in grown || next !in old(pages)
      ensures |PagesOf(pool.intervals)| <= |PagesOf(old(pool.intervals))|
      ensures pool.intervals == old(pool.intervals) || |PagesOf(pool.intervals)| < |PagesOf(old(pool.intervals))|
      ensures var n, cur := Room(pool.intervals, 0), done[|done| - 1];
        && cur in tables && cur != next
        && Pushing(tables[next := Table(tables[cur].next, pool.intervals[..n])]
                         [cur := Table(next, tables[cur].intervals)],
                   done + [next], rest, pool.intervals[n..], filesToDelete, chains, total + multiset(grown2), pages,
                   limit, others, f)
    {
      hide FilesBag, Bag, PagesOf, Listed, Pushing, Room, FilesOk;
      ghost var was, pages0, sum := pool.intervals, pages, total + multiset(grown);
      grown2 := grown;
      if pool.intervals[0].begin in stillInUsePages {
        next := NewPage();
        NextPage(tables, done, rest, was, filesToDelete, chains, sum, pages0, limit, others, f, next);
        grown2 := grown + [next];
        assert total + multiset(grown2) == sum + multiset{next};
      } else {
        NextPage(tables, done, rest, was, filesToDelete, chains, sum, pages0, limit, others, f,
                 pool.intervals[0].begin);
        PoolIn(tables, done, rest, was, filesToDelete, chains, sum, pages0, limit, others, f);
        var iv := pool.PopPages(1);
        next := iv.begin;
        OnePage(iv, was, pool.intervals);
        PushFits(tables, done, rest, was, filesToDelete, chains, sum, pages0, limit, others, f);
      }
      PushNext(tables, done, rest, was, filesToDelete, chains, sum, pages0, limit, others, f, next, pool.intervals,
               total + multiset(grown2), pages);
    }

    /** If something was allocated, the head page lists nothing any more, and the descriptor is brought up to
        date. */
    method Prepare()
      requires Valid()
      modifies this`tables, this`fd
      ensures State() && Owned() == old(Owned()) && FreePages() == old(FreePages()) && fd.first == old(fd.first)
      ensures fd.fileSize == currentFileSize && fd.last == chain[|chain| - 1]
      ensures Kept(old(tables), tables, old(Owned()))
      ensures (loaded ==> tables[fd.first].intervals == []) && (!loaded ==> current.intervals == [])
      ensures old(AllFit(tables)) ==> AllFit(tables)
    {
      hide FilesBag, Bag, PagesOf, Listed, ListBag, FilesOk, Distinct, AllFit, Chained, Kept;
      KeptSame(tables, Owned());
      if fd.fileSize != currentFileSize {
        var head := fd.first;
        HeadOwned();
        KeptOne(tables, tables, Owned(), head, tables[head].(intervals := []));
        HeadEnds(tables, chain);
        ClearHead(tables, chain, Bag(current.intervals) + multiset(freeMetaDataPages) + multiset(stillInUsePages),
                  filesToDelete, chains, pages);
        if tables[head].next == INVALID {
          fd := fd.(last := fd.first);
        }
        if AllFit(tables) {
          FitsAs(tables, head, tables[head].(intervals := []));
        }
        tables := tables[head := tables[head].(intervals := [])];
        fd := fd.(fileSize := currentFileSize);
      }
    }

  }

  lemma FilledIs(tables: Tables, cur: nat, next: nat, ivs: seq<Run>)
    requires cur in tables && cur != next
    ensures var linked := tables[next := Table(tables[cur].next, [])][cur := Table(next, tables[cur].intervals)];
      linked[next := Table(linked[next].next, ivs)]
        == tables[next := Table(tables[cur].next, ivs)][cur := Table(next, tables[cur].intervals)]
  {
  }

  lemma LinkFits(tables: Tables, cur: nat, next: nat)
    requires AllFit(tables) && cur in tables && cur != next
    ensures AllFit(tables[next := Table(tables[cur].next, [])][cur := Table(next, tables[cur].intervals)])
  {
    hide AllFit;
    FitsAs(tables, next, Table(tables[cur].next, []));
    FitsAs(tables[next := Table(tables[cur].next, [])], cur, Table(next, tables[cur].intervals));
  }

  lemma FrontSome(ivs: seq<Run>, max: nat)
    requires ivs != [] && max > 0
    ensures Length(Front(ivs, max)) > 0
  {
  }

  /** How far a list was loaded that is shorter now. */
  ghost function Loads(before: seq<nat>, now: seq<nat>): nat
    requires 1 <= |now| <= |before|
  {
    |before| - |now| + 1
  }

  /** The pages at hand when the tables before number `j` are loaded. */
  ghost function Having(tables: Tables, chain: seq<nat>, have: nat, j: nat): nat
    requires AllIn(tables, chain) && 1 <= j <= |chain|
  {
    have + |PagesOf(Listed(tables, chain[1..j]))|
  }

  /** No fewer tables would do. */
  ghost predicate NotEnough(tables: Tables, chain: seq<nat>, have: nat, max: nat, j: nat)
    requires AllIn(tables, chain) && j <= |chain|
  {
    forall k | 1 <= k < j :: Having(tables, chain, have, k) < max
  }

  /** The tables before number `j`, and no more of them, are needed to have `max` pages at hand, or there are no
      more. */
  ghost predicate Needed(tables: Tables, chain: seq<nat>, have: nat, max: nat, j: nat)
    requires AllIn(tables, chain) && 1 <= j <= |chain|
  {
    NotEnough(tables, chain, have, max, j) && (j == |chain| || Having(tables, chain, have, j) >= max)
  }

  /** The tables of the list between its head and number `j`. */
  ghost function Passed(chain: seq<nat>, j: nat): set<nat>
    requires 1 <= j <= |chain|
  {
    set p | p in chain[1..j]
  }

  /** Just as many tables as a request needs were loaded, those before number `j`: their pages are free and the head
      leads past them. */
  ghost predicate LoadedTo(was: Tables, before: seq<nat>, metaBefore: set<nat>, head: seq<Run>, max: nat, j: nat,
                           now: Tables, chain: seq<nat>, meta: set<nat>)
    requires AllIn(was, before) && 1 <= j <= |before|
  {
    && Needed(was, before, |PagesOf(head)|, max, j)
    && chain == [before[0]] + before[j..] && meta == metaBefore + Passed(before, j)
    && now == was[before[0] := was[before[0]].(next := if j < |before| then before[j] else INVALID)]
  }

  /** What is given are the first pages of the first interval at hand, as many as are asked for or as it has; the rest
      stays at hand. */
  ghost predicate GivesFrom(ready: seq<Run>, max: nat, r: Allocation, left: seq<Run>) {
    if ready == [] then r == Exhausted && left == [] else r == Got(Front(ready, max)) && left == Behind(ready, max)
  }

  /** What the head had, and what these tables list. */
  ghost function Gathered(tables: Tables, chain: seq<nat>, head: seq<Run>, j: nat): seq<Run>
    requires AllIn(tables, chain) && 1 <= j <= |chain|
  {
    PushAll(head, Listed(tables, chain[1..j]))
  }

  /** The intervals at hand: if tables were loaded they are sorted, and those that continue each other are one. */
  ghost function AtHand(tables: Tables, chain: seq<nat>, head: seq<Run>, j: nat): seq<Run>
    requires AllIn(tables, chain) && 1 <= j <= |chain|
  {
    var all := Gathered(tables, chain, head, j);
    if j == 1 then all else Coalesced(Sorted(all))
  }

  lemma NoTables(tables: Tables, chain: seq<nat>, cur: seq<Run>, max: nat)
    requires chain != [] && AllIn(tables, chain)
    ensures Gathered(tables, chain, cur, 1) == cur && Passed(chain, 1) == {}
    ensures NotEnough(tables, chain, |PagesOf(cur)|, max, 1)
  {
    assert chain[1..1] == [];
  }

  lemma {:induction false} PushAllAppend(a: seq<Run>, b: seq<Run>, c: seq<Run>)
    ensures PushAll(PushAll(a, b), c) == PushAll(a, b + c)
    decreases |c|
  {
    hide Push;
    if c == [] {
      assert b + c == b;
    } else {
      assert (b + c)[..|b + c| - 1] == b + c[..|c| - 1];
      PushAllAppend(a, b, c[..|c| - 1]);
    }
  }

  /** The head leads to the second table; only if it is to lead elsewhere a table was loaded. */
  lemma HeadLeads(tables: Tables, chain: seq<nat>, j: nat, next: nat)
    requires 1 <= j <= |chain| && Chained(tables, chain) && Distinct(chain) && AllIn(tables, chain)
    requires INVALID !in tables
    requires next == if j < |chain| then chain[j] else INVALID
    ensures tables[chain[0]].next == next <==> j == 1
    ensures j == 1 ==> tables == tables[chain[0] := tables[chain[0]].(next := next)] && chain == [chain[0]] + chain[1..]
  {
    assert tables[chain[0]].next == if 1 < |chain| then chain[1] else INVALID;
    assert 1 < |chain| ==> chain[1] in tables;
    assert tables[chain[0]] == tables[chain[0]].(next := tables[chain[0]].next);
  }

  lemma TableMore(tables: Tables, chain: seq<nat>, cur: seq<Run>, max: nat, j: nat)
    requires 1 <= j < |chain| && AllIn(tables, chain) && NotEnough(tables, chain, |PagesOf(cur)|, max, j)
    requires |PagesOf(Gathered(tables, chain, cur, j))| < max
    ensures PushAll(Gathered(tables, chain, cur, j), tables[chain[j]].intervals)
         == Gathered(tables, chain, cur, j + 1)
    ensures Passed(chain, j + 1) == Passed(chain, j) + {chain[j]}
    ensures NotEnough(tables, chain, |PagesOf(cur)|, max, j + 1)
  {
    hide PagesOf, PushAll;
    var part := chain[1..j];
    assert chain[1..j + 1] == part + [chain[j]];
    ListedAppend(tables, part, [chain[j]]);
    ListedOne(tables, chain[j]);
    PushAllAppend(cur, Listed(tables, part), tables[chain[j]].intervals);
    PushAllPages(cur, Listed(tables, part));
  }

  lemma EnoughNow(tables: Tables, chain: seq<nat>, cur: seq<Run>, max: nat, j: nat)
    requires 1 <= j <= |chain| && AllIn(tables, chain) && NotEnough(tables, chain, |PagesOf(cur)|, max, j)
    requires j == |chain| || |PagesOf(Gathered(tables, chain, cur, j))| >= max
    ensures Needed(tables, chain, |PagesOf(cur)|, max, j)
  {
    hide PagesOf, PushAll;
    PushAllPages(cur, Listed(tables, chain[1..j]));
  }

  lemma PoolIn(tables: Tables, done: seq<nat>, rest: seq<nat>, pool: seq<Run>, files: seq<FileDescriptor>,
               chains: seq<seq<nat>>, total: multiset<nat>, pages: set<nat>, limit: nat, others: nat, f: multiset<nat>)
    requires Pushing(tables, done, rest, pool, files, chains, total, pages, limit, others, f) && pool != []
    ensures pool[0].begin in total
  {
    hide PagesOf, Listed, FilesBag, FilesCount, Chained;
    PagesFirst(pool);
    assert Pages(pool[0])[0] == pool[0].begin;
    assert PagesOf(pool)[0] == pool[0].begin && pool[0].begin in Bag(pool);
  }

  /** How many of these files have a single table. */
  function Singles(files: seq<FileDescriptor>): nat {
    if files == [] then 0 else
      Singles(files[..|files| - 1]) + if files[|files| - 1].first == files[|files| - 1].last then 1 else 0
  }

  lemma NoSingles()
    ensures Singles([]) == 0
  {
  }

  lemma SinglesMore(files: seq<FileDescriptor>, i: nat)
    requires i < |files|
    ensures files[..0] == []
    ensures Singles(files[..i + 1]) == Singles(files[..i]) + if files[i].first == files[i].last then 1 else 0
  {
    assert files[..i + 1][..i] == files[..i];
  }

  lemma HeadIn(tables: Tables, chain: seq<nat>, total: multiset<nat>)
    requires chain != [] && AllIn(tables, chain) && AllIn(tables, chain[1..]) && ListBag(tables, chain, true) <= total
    ensures chain[0] in total && Kept(tables, tables, total)
  {
    hide PagesOf, Listed;
    assert chain[0] in multiset(chain);
  }

  lemma LastIn(tables: Tables, list: seq<nat>, last: nat, files: seq<FileDescriptor>, chains: seq<seq<nat>>,
               total: multiset<nat>, pages: set<nat>, size: nat)
    requires Chaining(tables, list, last, files, chains, total, pages, size)
    ensures last in total
  {
    hide PagesOf, Listed, FilesBag, FilesCount;
    assert last in multiset(list);
  }

  ghost function WithTable(tables: Tables, cur: nat, next: nat, ivs: seq<Run>): Tables
    requires cur in tables
  {
    tables[next := Table(tables[cur].next, ivs)][cur := Table(next, tables[cur].intervals)]
  }

  lemma LinkKept(was: Tables, now: Tables, mine: multiset<nat>, cur: nat, next: nat, ivs: seq<Run>)
    requires Kept(was, now, mine) && cur in now && cur != next
    requires (cur in mine || cur !in was) && (next in mine || next !in was)
    ensures Kept(was, WithTable(now, cur, next, ivs), mine)
  {
  }

  lemma LoadStep(tables: Tables, chain: seq<nat>, cur: seq<Run>)
    requires chain != [] && AllIn(tables, chain) && AllIn(tables, chain[1..])
    ensures ListBag(tables, chain, true) + Bag(PushAll(cur, tables[chain[0]].intervals))
            == ListBag(tables, chain, false) + Bag(cur)
    ensures Bag(Listed(tables, chain[1..])) + Bag(PushAll(cur, tables[chain[0]].intervals))
            == Bag(Listed(tables, chain)) + Bag(cur)
  {
    hide PagesOf, Listed, Bag;
    BagPushAll(cur, tables[chain[0]].intervals);
    ListedFirst(tables, chain);
  }

  lemma ListedFirst(tables: Tables, chain: seq<nat>)
    requires chain != [] && AllIn(tables, chain)
    ensures AllIn(tables, chain[1..])
    ensures Bag(Listed(tables, chain)) == Bag(tables[chain[0]].intervals) + Bag(Listed(tables, chain[1..]))
  {
    hide PagesOf, Listed;
    assert chain == [chain[0]] + chain[1..] && AllIn(tables, [chain[0]]);
    ListedAppend(tables, [chain[0]], chain[1..]);
    ListedOne(tables, chain[0]);
    BagAppend(tables[chain[0]].intervals, Listed(tables, chain[1..]));
  }

  lemma Moved(a: multiset<nat>, b: multiset<nat>, a2: multiset<nat>, b2: multiset<nat>, x: multiset<nat>,
              y: multiset<nat>, z: multiset<nat>)
    requires a + b == a2 + b2
    ensures a + (b + x + y + z) == a2 + (b2 + x + y + z)
  {
    assert a + (b + x + y + z) == (a + b) + (x + y + z);
    assert a2 + (b2 + x + y + z) == (a2 + b2) + (x + y + z);
  }

  /** What is owned while tables are loaded: those from number `j` on are still in the list. */
  ghost function Loading(tables: Tables, chain: seq<nat>, j: nat, cur: multiset<nat>, meta: set<nat>,
                         rest: multiset<nat>): multiset<nat>
    requires 0 < |chain| && j <= |chain| && AllIn(tables, chain[j..])
  {
    multiset{chain[0]} + TailBag(tables, chain, j) + cur + multiset(meta) + rest
  }

  lemma StartSum(tables: Tables, chain: seq<nat>, cur: multiset<nat>, meta: multiset<nat>, still: multiset<nat>,
                 files: multiset<nat>)
    requires chain != [] && AllIn(tables, chain) && AllIn(tables, chain[1..])
    ensures ListBag(tables, chain, true) + (cur + meta + still + files)
         == multiset{chain[0]} + TailBag(tables, chain, 1) + cur + meta + (still + files)
  {
    hide ListBag, TailBag;
    ListIs(tables, chain, true);
  }

  /** The next table moves its intervals to the current ones and becomes free. */
  lemma LoadOne(tables: Tables, chain: seq<nat>, j: nat, cur: seq<Run>, meta: set<nat>, rest: multiset<nat>,
                pages: set<nat>)
    requires 0 < j < |chain| && AllIn(tables, chain) && AllIn(tables, chain[j..])
    requires Loading(tables, chain, j, Bag(cur), meta, rest) <= multiset(pages)
    ensures chain[j] !in meta && AllIn(tables, chain[j + 1..])
    ensures Loading(tables, chain, j + 1, Bag(PushAll(cur, tables[chain[j]].intervals)), meta + {chain[j]}, rest)
         == Loading(tables, chain, j, Bag(cur), meta, rest)
    ensures Bag(Listed(tables, chain[j + 1..])) + Bag(PushAll(cur, tables[chain[j]].intervals))
         == Bag(Listed(tables, chain[j..])) + Bag(cur)
  {
    hide PagesOf, Listed, Bag, TailBag;
    TailStep(tables, chain, j);
    ListedFirst(tables, chain[j..]);
    assert chain[j..][1..] == chain[j + 1..] && chain[j..][0] == chain[j];
    BagPushAll(cur, tables[chain[j]].intervals);
    var part := Bag(tables[chain[j]].intervals);
    var others := multiset{chain[0]} + part + TailBag(tables, chain, j + 1) + Bag(cur) + rest;
    assert Loading(tables, chain, j, Bag(cur), meta, rest) == (multiset{chain[j]} + multiset(meta)) + others;
    NewIn(chain[j], meta, others, pages);
  }

  lemma NewIn(x: nat, meta: set<nat>, others: multiset<nat>, pages: set<nat>)
    requires (multiset{x} + multiset(meta)) + others <= multiset(pages)
    ensures x !in meta && multiset(meta + {x}) == multiset(meta) + multiset{x}
  {
    var bag := (multiset{x} + multiset(meta)) + others;
    assert bag[x] <= multiset(pages)[x] <= 1;
  }

  lemma NothingListed(tables: Tables, chain: seq<nat>)
    requires chain == []
    ensures Listed(tables, chain) == [] && Bag([]) == multiset{}
  {
  }

  lemma EmptyBag(was: seq<Run>, now: seq<Run>)
    requires multiset(PagesOf(now)) == multiset(PagesOf(was))
    ensures now == [] ==> was == []
  {
    if was != [] {
      PagesFirst(was);
      assert PagesOf(was)[0] in multiset(PagesOf(was));
    }
  }

  lemma NoneLeft(before: seq<Run>, cur: seq<Run>, now: seq<Run>)
    requires Bag(now) == Bag(before) + Bag(cur)
    ensures now == [] <==> before == [] && cur == []
  {
    NoneIs(now);
    NoneIs(before);
    NoneIs(cur);
    hide Bag;
    assert |Bag(now)| == |Bag(before)| + |Bag(cur)|;
  }

  lemma NoneIs(ivs: seq<Run>)
    ensures |Bag(ivs)| == 0 <==> ivs == []
  {
    if ivs != [] {
      PagesFirst(ivs);
    }
  }

  /** A page that is still in use is neither a table of the list nor part of a file. */
  lemma InUseApart(list: multiset<nat>, cur: multiset<nat>, meta: multiset<nat>, still: set<nat>,
                   files: multiset<nat>, pages: set<nat>)
    requires list + (cur + meta + multiset(still) + files) <= multiset(pages)
    ensures still <= pages && forall p | p in list + files :: p !in still
  {
    var used := multiset(still);
    assert list + (cur + meta + used + files) == used + (list + files + cur + meta);
    OnceParts(used, list + files + cur + meta, pages);
    forall p | p in still ensures p in pages {
      assert p in used;
    }
    forall p | p in list + files ensures p !in still {
      assert p in list + files + cur + meta;
    }
  }

  lemma HeadEnds(tables: Tables, chain: seq<nat>)
    requires chain != [] && Chained(tables, chain) && AllIn(tables, chain) && INVALID !in tables
    ensures tables[chain[0]].next == INVALID <==> |chain| == 1
  {
    if |chain| > 1 {
      assert chain[1] in tables;
    }
  }

  /** The head page does not list anything any more; that is in the current intervals. */
  lemma ClearHead(tables: Tables, chain: seq<nat>, rest: multiset<nat>, files: seq<FileDescriptor>,
                  chains: seq<seq<nat>>, pages: set<nat>)
    requires chain != [] && AllIn(tables, chain) && AllIn(tables, chain[1..]) && Chained(tables, chain)
    requires Distinct(chain)
    requires FilesOk(tables, files, chains)
    requires ListBag(tables, chain, true) + (rest + FilesBag(tables, chains)) <= multiset(pages)
    ensures var tables2 := tables[chain[0] := tables[chain[0]].(intervals := [])];
      && FilesOk(tables2, files, chains) && FilesBag(tables2, chains) == FilesBag(tables, chains)
      && AllIn(tables2, chain) && AllIn(tables2, chain[1..]) && Chained(tables2, chain)
      && ListBag(tables2, chain, true) == ListBag(tables, chain, true)
      && Listed(tables2, chain[1..]) == Listed(tables, chain[1..])
  {
    hide PagesOf, Listed, Bag, FilesBag;
    var tables2 := tables[chain[0] := tables[chain[0]].(intervals := [])];
    var f := FilesBag(tables, chains);
    ListIs(tables, chain, true);
    HeadApart(multiset{chain[0]}, f, TailBag(tables, chain, 1) + rest, pages);
    assert chain[0] in multiset{chain[0]};
    FilesOkFrame(tables, tables2, files, chains);
    HeadFrame(tables, tables2, chain);
  }

  lemma AllGiven(list: multiset<nat>, files: multiset<nat>, cur: multiset<nat>, free: set<nat>, inUse: set<nat>,
                 given: multiset<nat>, listed: multiset<nat>)
    ensures list + files + (given + multiset(free) + multiset(inUse) + cur)
         == list + (cur + multiset(free) + multiset(inUse) + files) + given
    ensures |given + multiset(free) + multiset(inUse) + cur| + |listed|
         == |given| + |free| + |inUse| + |listed + cur|
  {
  }

  lemma TakeSome(a: multiset<nat>, b: multiset<nat>, pages: set<nat>)
    requires a + b <= multiset(pages)
    ensures a <= multiset(pages)
  {
  }

  lemma SortedBag(was: seq<Run>, now: seq<Run>)
    requires multiset(PagesOf(now)) == multiset(PagesOf(was))
    ensures Bag(now) == Bag(was)
  {
  }

  lemma OnePage(iv: Interval, was: seq<Run>, now: seq<Run>)
    requires Pages(iv) + PagesOf(now) == PagesOf(was) && Length(iv) == 1
    ensures Bag(was) == multiset{iv.begin} + Bag(now) && |PagesOf(now)| < |PagesOf(was)|
  {
    assert Pages(iv) == [iv.begin];
  }

  lemma PushFits(tables: Tables, done: seq<nat>, rest: seq<nat>, pool: seq<Run>, files: seq<FileDescriptor>,
                 chains: seq<seq<nat>>,
                 total: multiset<nat>, pages: set<nat>, limit: nat, others: nat, f: multiset<nat>)
    requires Pushing(tables, done, rest, pool, files, chains, total, pages, limit, others, f)
    ensures total <= multiset(pages)
  {
  }

  /** The list consisted of the head alone exactly when the head was its last table. */
  lemma Closes(tables: Tables, done: seq<nat>, rest: seq<nat>, fd: FileDescriptor, chain: seq<nat>)
    requires chain != [] && Distinct(chain) && fd.first == chain[0] && fd.last == chain[|chain| - 1]
    requires rest == chain[1..]
    ensures fd.first == fd.last <==> rest == []
    ensures rest != [] ==> fd.last == rest[|rest| - 1]
  {
  }

  lemma HeadIs(tables: Tables, fd: FileDescriptor, chain: seq<nat>)
    requires chain != [] && FileOk(tables, fd.(last := chain[|chain| - 1]), chain)
    ensures fd.first == chain[0] && Chained(tables, chain) && Distinct(chain)
  {
  }

  lemma NothingTotal(ivs: IntervalSequence)
    requires ivs.Valid()
    ensures ivs.intervals == [] ==> ivs.totalLength == 0
  {
  }

  /** The head leads past the tables before number `j`. */
  lemma SkipTables(tables: Tables, chain: seq<nat>, j: nat, cur: multiset<nat>, meta: set<nat>, still: set<nat>,
                   files: seq<FileDescriptor>, chains: seq<seq<nat>>, fd: FileDescriptor, pages: set<nat>)
    requires chain != [] && FileOk(tables, fd.(last := chain[|chain| - 1]), chain) && 1 <= j <= |chain|
    requires AllIn(tables, chain[j..])
    requires FilesOk(tables, files, chains) && INVALID !in tables
    requires Loading(tables, chain, j, cur, meta, multiset(still) + FilesBag(tables, chains)) <= multiset(pages)
    ensures var next := if j < |chain| then chain[j] else INVALID;
      var tables2, chain2 := tables[fd.first := tables[fd.first].(next := next)], [chain[0]] + chain[j..];
      && FileOk(tables2, fd.(last := chain2[|chain2| - 1]), chain2) && AllIn(tables2, chain2[1..])
      && FilesOk(tables2, files, chains)
      && FilesBag(tables2, chains) == FilesBag(tables, chains)
      && chain2[1..] == chain[j..] && Listed(tables2, chain2[1..]) == Listed(tables, chain[j..])
      && ListBag(tables2, chain2, true) + (cur + multiset(meta) + multiset(still) + FilesBag(tables2, chains))
         == Loading(tables, chain, j, cur, meta, multiset(still) + FilesBag(tables, chains))
  {
    hide PagesOf, Listed, Bag, FilesBag;
    var next := if j < |chain| then chain[j] else INVALID;
    var tables2, chain2 := tables[fd.first := tables[fd.first].(next := next)], [chain[0]] + chain[j..];
    var files0 := FilesBag(tables, chains);
    HeadApart(multiset{chain[0]}, files0, TailBag(tables, chain, j) + cur + multiset(meta) + multiset(still), pages);
    assert chain[0] in multiset{chain[0]};
    FilesOkFrame(tables, tables2, files, chains);
    assert chain2[1..] == chain[j..];
    ListedFrame(tables, tables2, chain[j..]);
    SkipChain(tables, tables2, chain, j, next);
    ListIs(tables2, chain2, true);
    assert chain2[1..] == chain[j..];
  }

  lemma HeadApart(head: multiset<nat>, files: multiset<nat>, rest: multiset<nat>, pages: set<nat>)
    requires head + files + rest <= multiset(pages)
    ensures forall p | p in head :: p !in files
  {
    OnceParts(head, files + rest, pages);
    forall p | p in head ensures p !in files {
      assert p !in files + rest;
    }
  }

  lemma SkipChain(tables: Tables, tables2: Tables, chain: seq<nat>, j: nat, next: nat)
    requires 1 <= j <= |chain| && Chained(tables, chain) && Distinct(chain) && AllIn(tables, chain)
    requires next == (if j < |chain| then chain[j] else INVALID)
    requires tables2 == tables[chain[0] := tables[chain[0]].(next := next)]
    ensures var chain2 := [chain[0]] + chain[j..];
      Chained(tables2, chain2) && Distinct(chain2) && AllIn(tables2, chain2) && AllIn(tables2, chain2[1..])
  {
    var chain2 := [chain[0]] + chain[j..];
    forall i {:trigger chain2[i]} | 0 <= i < |chain2|
      ensures chain2[i] in tables2 && tables2[chain2[i]].next == (if i + 1 < |chain2| then chain2[i + 1] else INVALID)
    {
      if i > 0 {
        assert chain2[i] == chain[j + i - 1] && chain[j + i - 1] != chain[0];
        assert i + 1 < |chain2| ==> chain2[i + 1] == chain[j + i];
      } else {
        assert chain2[0] == chain[0] && (j < |chain| ==> chain2[1] == chain[j]);
      }
    }
  }

  /** Nothing was loaded: the head still leads to the second table. */
  lemma NoneLoaded(tables: Tables, chain: seq<nat>, j: nat, cur: multiset<nat>, meta: set<nat>, still: set<nat>,
                   files: seq<FileDescriptor>, chains: seq<seq<nat>>, fd: FileDescriptor)
    requires chain != [] && FileOk(tables, fd.(last := chain[|chain| - 1]), chain) && 1 <= j <= |chain|
    requires AllIn(tables, chain[j..])
    requires FilesOk(tables, files, chains) && INVALID !in tables && AllIn(tables, chain[1..])
    requires (if j < |chain| then chain[j] else INVALID) == tables[fd.first].next
    ensures j == 1
    ensures ListBag(tables, chain, true) + (cur + multiset(meta) + multiset(still) + FilesBag(tables, chains))
         == Loading(tables, chain, j, cur, meta, multiset(still) + FilesBag(tables, chains))
  {
    hide PagesOf, Listed, Bag, FilesBag, ListBag, TailBag;
    assert chain[0] in tables && tables[chain[0]].next == (if 1 < |chain| then chain[1] else INVALID);
    if 1 < |chain| {
      assert chain[1] in tables;
    }
    StartSum(tables, chain, cur, multiset(meta), multiset(still), FilesBag(tables, chains));
  }

  lemma TakeSum(list: multiset<nat>, a: multiset<nat>, cur: multiset<nat>, meta: multiset<nat>, still: multiset<nat>,
                files: multiset<nat>,
                pages: set<nat>)
    requires list + ((a + cur) + meta + still + files) <= multiset(pages)
    ensures list + (cur + meta + still + files) <= multiset(pages)
    ensures list + (cur + meta + still + files) + a == list + ((a + cur) + meta + still + files)
  {
    assert list + ((a + cur) + meta + still + files) == list + (cur + meta + still + files) + a;
  }

  lemma TakeSize(listed: multiset<nat>, a: multiset<nat>, cur: multiset<nat>)
    ensures |listed + (a + cur)| == |listed + cur| + |a|
  {
  }

  lemma PopBag(was: seq<Run>, iv: Interval, ivs: seq<Run>)
    requires Pages(iv) + PagesOf(ivs) == PagesOf(was)
    ensures multiset(Pages(iv)) + Bag(ivs) == Bag(was) && |multiset(Pages(iv))| == Length(iv)
  {
  }

  lemma FilesMore(tables: Tables, files: seq<FileDescriptor>, chains: seq<seq<nat>>, file: FileDescriptor,
                  chain: seq<nat>)
    requires FilesOk(tables, files, chains) && FileOk(tables, file, chain) && SizeOk(tables, file, chain)
    ensures FilesOk(tables, files + [file], chains + [chain])
    ensures FilesBag(tables, chains + [chain])
            == FilesBag(tables, chains) + (multiset(chain) + Bag(Listed(tables, chain)))
  {
    hide PagesOf, Listed, Bag, Chained;
    FilesInMore(tables, chains, chain);
    FilesLast(tables, chains + [chain]);
    assert (chains + [chain])[..|chains|] == chains;
  }

  lemma RoundedUp(n: nat, size: nat)
    requires PAGE * n < size + PAGE
    ensures PAGE * n <= (size + PAGE - 1) / PAGE * PAGE
  {
  }

  lemma OneMoreFits(bag: multiset<nat>, page: nat, pages: set<nat>)
    requires bag <= multiset(pages) && page in pages && page !in bag
    ensures bag + multiset{page} <= multiset(pages)
  {
  }
}
