/** Runs of the free store: what is handed out until a list is used up. */
module FreeStoreRuns {
  import opened Basics
  import opened Intervals
  import opened FileTables
  import opened FileStores
  import opened PageBags
  import opened FreeStores

  ghost function Taken(got: seq<Interval>): multiset<nat> {
    if got == [] then multiset{} else Taken(got[..|got| - 1]) + multiset(Pages(got[|got| - 1]))
  }

  /** Whatever is asked for at a time, every free page is handed out once. After that the store is out of pages
      with a size left if and only if the size counted more pages than the list has. */
  method AllocateAll(store: FreeStore, maxPages: nat) returns (r: Allocation, got: seq<Interval>)
    requires store.Valid() && maxPages > 0
    modifies store, store.current
    ensures !r.Got? && Taken(got) == old(store.FreePages())
    ensures r == Exhausted <==> old(store.currentFileSize) > PAGE * old(|store.FreePages()|)
  {
    hide PagesOf, Bag, Listed, ListBag, FilesBag, FilesOk, FileOk, AllIn, Pages, Taken;
    got := [];
    NothingTaken();
    ghost var free, size := store.FreePages(), store.currentFileSize;
    while true
      invariant store.Valid() && Taken(got) + store.FreePages() == free
      invariant size - store.currentFileSize == PAGE * (|free| - |store.FreePages()|)
      decreases |store.FreePages()|
    {
      ghost var before := store.FreePages();
      SizeCovers(store);
      r := store.Allocate(maxPages);
      if !r.Got? {
        return;
      }
      TakenMore(got, r.iv);
      assert |before| == |store.FreePages()| + |multiset(Pages(r.iv))|;
      got := got + [r.iv];
    }
  }

  lemma SizeCovers(store: FreeStore)
    requires store.Valid()
    ensures PAGE * |store.FreePages()| <= store.currentFileSize
    ensures |store.FreePages()| == 0 <==> store.FreePages() == multiset{}
  {
  }

  lemma NothingTaken()
    ensures Taken([]) == multiset{}
  {
  }

  lemma TakenMore(got: seq<Interval>, iv: Interval)
    ensures Taken(got + [iv]) == Taken(got) + multiset(Pages(iv)) && |multiset(Pages(iv))| == Length(iv)
  {
    assert (got + [iv])[..|got|] == got;
  }

  // ------------------------------------------------------------------ a list that is shorter than its size

  /** The even pages from 2 to `2 * n`. */
  function Evens(n: nat): (r: set<nat>)
    ensures |r| == n && forall p | p in r :: 2 <= p <= 2 * n && p % 2 == 0
  {
    if n == 0 then {} else Evens(n - 1) + {2 * n}
  }

  lemma TwoPages(iv: Run)
    ensures Length(iv) > 1 ==> iv.begin in Pages(iv) && iv.begin + 1 in Pages(iv)
  {
    if Length(iv) > 1 {
      assert Pages(iv)[0] == iv.begin && Pages(iv)[1] == iv.begin + 1;
    }
  }

  /** Of intervals without two neighbouring pages each takes four bytes. */
  lemma {:induction false} SinglePages(ivs: seq<Run>)
    requires forall p | p in PagesOf(ivs) :: p % 2 == 0
    ensures |PagesOf(ivs)| == |ivs| && Used(PackAll(ivs)) >= 4 * |ivs|
  {
    if ivs != [] {
      var init, last := ivs[..|ivs| - 1], ivs[|ivs| - 1];
      PagesLast(ivs);
      forall p | p in PagesOf(init) || p in Pages(last) ensures p in PagesOf(ivs) {
      }
      TwoPages(last);
      SinglePages(init);
    }
  }

  /** One table does not list all of more than 1021 such pages. */
  lemma NeedsTwo(tables: Tables, list: seq<nat>, n: nat)
    requires list != [] && AllIn(tables, list) && AllFit(tables) && n > DATA / 4
    requires multiset(list) + Bag(Listed(tables, list)) == multiset({0}) + multiset(Evens(n))
    ensures |Bag(Listed(tables, list))| < n
  {
    hide PagesOf, Listed, PackAll, Used;
    var listed := Listed(tables, list);
    assert |multiset({0}) + multiset(Evens(n))| == 1 + n;
    if |list| == 1 {
      ListedOne(tables, list[0]);
      assert list == [list[0]];
      forall p | p in PagesOf(listed) ensures p % 2 == 0 {
        assert p in multiset(list) + Bag(listed);
      }
      SinglePages(listed);
    }
  }

  /** `n` pages become free, no two of them neighbours. */
  method FreeEvens(n: nat) returns (store: FreeStore)
    requires n < INVALID / 2
    ensures fresh(store) && fresh(store.current) && store.Valid() && AllFit(store.tables)
    ensures store.stillInUsePages == {} && |store.freeMetaDataPages| == n
    ensures store.Owned() == multiset{0} + multiset(Evens(n))
  {
    hide PagesOf, Bag, Listed, ListBag, FilesBag, FilesOk, FileOk, AllIn, AllFit, Evens;
    hide FreeStore.Valid, FreeStore.Shape, FreeStore.Owned;
    var tables := map[0 := Table(INVALID, [])];
    var pages := {0} + Evens(n);
    NothingListed(tables);
    store := new FreeStore(tables, FileDescriptor(0, 0, 0), pages, [0]);
    var i := 0;
    NoEvens();
    while i < n
      invariant i <= n && fresh(store) && fresh(store.current) && store.Valid() && store.pages == pages
      invariant AllFit(store.tables)
      invariant store.stillInUsePages == {} && store.freeMetaDataPages == Evens(i)
      invariant store.Owned() == multiset{0} + multiset(Evens(i))
    {
      OneMore(i, n, 2 * i + 2);
      store.Deallocate(2 * i + 2);
      i := i + 1;
    }
  }

  lemma NoEvens()
    ensures Evens(0) == {} && multiset(Evens(0)) == multiset{}
  {
  }

  /** When that list is closed, one of its pages becomes a table, but the size still counts it. */
  method CloseEvens(n: nat) returns (store: FreeStore)
    requires DATA / 4 < n < INVALID / 2
    ensures fresh(store) && fresh(store.current) && store.Valid()
    ensures |store.FreePages()| < n && PAGE * n <= store.currentFileSize
  {
    hide PagesOf, Bag, Listed, FilesBag, FilesOk, FileOk, AllIn, AllFit, Evens;
    var first := FreeEvens(n);
    var fd, list, grown := first.Close();
    assert multiset(grown) == multiset{};
    NeedsTwo(first.tables, list, n);
    store := new FreeStore(first.tables, fd, first.pages, list);
  }

  lemma {:induction false} OneMore(i: nat, n: nat, page: nat)
    requires i < n && page == 2 * i + 2
    ensures page in Evens(n) && page !in Evens(i)
    ensures Evens(i + 1) == Evens(i) + {page} && multiset(Evens(i + 1)) == multiset(Evens(i)) + multiset{page}
    decreases n
  {
    if i + 1 < n {
      OneMore(i, n - 1, page);
    } else {
      var before := Evens(i);
      assert page !in before;
      assert Evens(i + 1) == before + {page};
    }
  }

  lemma NothingListed(tables: Tables)
    requires tables == map[0 := Table(INVALID, [])]
    ensures AllIn(tables, [0]) && AllIn(tables, [0][1..]) && Listed(tables, [0]) == [] && Bag([]) == multiset{}
    ensures AllFit(tables)
    ensures FileOk(tables, FileDescriptor(0, 0, 0), [0]) && ListBag(tables, [0], false) == multiset{0}
  {
    ListedOne(tables, 0);
    assert multiset([0]) == multiset{0};
  }

  /** A store that was closed and opened again runs out of pages with a size left, and fewer pages than became
      free have been handed out. */
  method RunOut(n: nat) returns (r: Allocation, got: seq<Interval>)
    requires DATA / 4 < n < INVALID / 2
    ensures r == Exhausted && |Taken(got)| < n
  {
    hide Taken;
    var store := CloseEvens(n);
    r, got := AllocateAll(store, 1);
  }
}
