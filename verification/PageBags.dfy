/** Bags of pages: which pages tables, files and interval sequences hold, and how often. */
module PageBags {
  import opened Intervals
  import opened FileStores

  ghost function Bag(ivs: seq<Run>): multiset<nat> {
    multiset(PagesOf(ivs))
  }

  ghost predicate FilesIn(tables: Tables, chains: seq<seq<nat>>) {
    forall i | 0 <= i < |chains| :: AllIn(tables, chains[i])
  }

  /** The pages that files occupy: their tables and what these list. */
  ghost function FilesBag(tables: Tables, chains: seq<seq<nat>>): multiset<nat>
    requires FilesIn(tables, chains)
  {
    if chains == [] then multiset{} else
      FilesBag(tables, chains[..|chains| - 1]) + multiset(chains[|chains| - 1])
        + Bag(Listed(tables, chains[|chains| - 1]))
  }

  ghost predicate FilesOk(tables: Tables, files: seq<FileDescriptor>, chains: seq<seq<nat>>) {
    && |files| == |chains|
    && FilesIn(tables, chains)
    && (forall i | 0 <= i < |chains| :: FileOk(tables, files[i], chains[i]) && SizeOk(tables, files[i], chains[i]))
  }

  /** The size covers the pages that the tables list. */
  ghost predicate SizeOk(tables: Tables, fd: FileDescriptor, chain: seq<nat>)
    requires AllIn(tables, chain)
  {
    PAGE * |Bag(Listed(tables, chain))| <= fd.fileSize
  }

  ghost predicate FileOk(tables: Tables, fd: FileDescriptor, chain: seq<nat>) {
    && chain != [] && Chained(tables, chain) && Distinct(chain) && fd.first == chain[0] && fd.last == chain[|chain| - 1]
    && AllIn(tables, chain)
  }

  /** The tables of the free list, without what is in the head page when that was loaded. */
  ghost function ListBag(tables: Tables, chain: seq<nat>, loaded: bool): multiset<nat>
    requires chain != [] && AllIn(tables, chain) && AllIn(tables, chain[1..])
  {
    multiset(chain) + Bag(Listed(tables, if loaded then chain[1..] else chain))
  }

  lemma BagAppend(a: seq<Run>, b: seq<Run>)
    ensures Bag(a + b) == Bag(a) + Bag(b)
  {
    PagesAppend(a, b);
  }

  lemma BagPush(ivs: seq<Run>, iv: Run)
    ensures Bag(Push(ivs, iv)) == Bag(ivs) + multiset(Pages(iv))
  {
    PushPages(ivs, iv);
  }

  lemma BagPushAll(ivs: seq<Run>, more: seq<Run>)
    ensures Bag(PushAll(ivs, more)) == Bag(ivs) + Bag(more)
  {
    PushAllPages(ivs, more);
  }

  /** Every page occurs at most once. */
  ghost predicate Once(bag: multiset<nat>) {
    forall p | p in bag :: bag[p] == 1
  }

  lemma OnceOf(bag: multiset<nat>, pages: set<nat>)
    requires bag <= multiset(pages)
    ensures Once(bag) && forall p | p in bag :: p in pages
  {
    forall p | p in bag ensures bag[p] == 1 {
      assert bag[p] <= multiset(pages)[p];
    }
  }

  lemma OnceParts(a: multiset<nat>, b: multiset<nat>, pages: set<nat>)
    requires a + b <= multiset(pages)
    ensures forall p | p in a :: p !in b && p in pages
    ensures forall p | p in b :: p !in a && p in pages
  {
    OnceOf(a + b, pages);
    forall p | p in a + b ensures p !in a || p !in b {
      assert (a + b)[p] == a[p] + b[p];
    }
  }

  lemma OnceSeq(s: seq<nat>, bag: multiset<nat>, pages: set<nat>)
    requires multiset(s) + bag <= multiset(pages)
    ensures Distinct(s)
  {
    forall i, j | 0 <= i < j < |s| ensures s[i] != s[j] {
      var x, y := s[..j], s[j..];
      assert s == x + y && x[i] in multiset(x) && y[0] in multiset(y);
      assert multiset(s)[s[i]] == multiset(x)[s[i]] + multiset(y)[s[i]];
      assert multiset(pages)[s[i]] <= 1;
    }
  }

  /** The tables of the list from number `j` on, and what they list. */
  ghost function TailBag(tables: Tables, chain: seq<nat>, j: nat): multiset<nat>
    requires j <= |chain| && AllIn(tables, chain[j..])
  {
    multiset(chain[j..]) + Bag(Listed(tables, chain[j..]))
  }

  lemma TailStep(tables: Tables, chain: seq<nat>, j: nat)
    requires j < |chain| && AllIn(tables, chain)
    ensures AllIn(tables, chain[j..]) && AllIn(tables, chain[j + 1..])
    ensures TailBag(tables, chain, j)
            == multiset{chain[j]} + Bag(tables[chain[j]].intervals) + TailBag(tables, chain, j + 1)
  {
    hide PagesOf;
    var a, b := [chain[j]], chain[j + 1..];
    assert chain[j..] == a + b;
    ListedAppend(tables, a, b);
    ListedOne(tables, chain[j]);
    BagAppend(Listed(tables, a), Listed(tables, b));
  }

  lemma ListIs(tables: Tables, chain: seq<nat>, loaded: bool)
    requires chain != [] && AllIn(tables, chain) && AllIn(tables, chain[1..])
    ensures ListBag(tables, chain, loaded)
         == multiset{chain[0]} + (if loaded then multiset{} else Bag(tables[chain[0]].intervals))
           + TailBag(tables, chain, 1)
  {
    hide PagesOf, Listed;
    assert chain == [chain[0]] + chain[1..] && chain[0..] == chain;
    if !loaded {
      TailStep(tables, chain, 0);
    }
  }

  lemma FilesLast(tables: Tables, chains: seq<seq<nat>>)
    requires FilesIn(tables, chains) && chains != []
    ensures var init, last := chains[..|chains| - 1], chains[|chains| - 1];
      && FilesIn(tables, init) && AllIn(tables, last)
      && FilesBag(tables, chains) == FilesBag(tables, init) + multiset(last) + Bag(Listed(tables, last))
  {
  }

  lemma FilesInMore(tables: Tables, init: seq<seq<nat>>, last: seq<nat>)
    requires FilesIn(tables, init) && AllIn(tables, last)
    ensures FilesIn(tables, init + [last])
  {
    hide AllIn;
  }

  lemma {:induction false} FilesFrame(tables: Tables, tables2: Tables, chains: seq<seq<nat>>)
    requires FilesIn(tables, chains)
    requires forall id | id in FilesBag(tables, chains) && id in tables :: id in tables2 && tables2[id] == tables[id]
    ensures FilesIn(tables2, chains) && FilesBag(tables2, chains) == FilesBag(tables, chains)
  {
    hide PagesOf, Listed, Bag, FilesBag;
    if chains == [] {
      FilesNone(tables);
      FilesNone(tables2);
    } else {
      var init, last := chains[..|chains| - 1], chains[|chains| - 1];
      FilesLast(tables, chains);
      LastFrame(tables, tables2, last, FilesBag(tables, chains));
      FilesFrame(tables, tables2, init);
      FilesInMore(tables2, init, last);
      assert chains == init + [last];
      FilesLast(tables2, chains);
    }
  }

  lemma LastFrame(tables: Tables, tables2: Tables, last: seq<nat>, all: multiset<nat>)
    requires AllIn(tables, last) && multiset(last) <= all
    requires forall id | id in all && id in tables :: id in tables2 && tables2[id] == tables[id]
    ensures AllIn(tables2, last) && Listed(tables2, last) == Listed(tables, last)
  {
    hide Listed;
    forall i | 0 <= i < |last| ensures last[i] in all {
      assert last[i] in multiset(last);
    }
    ListedFrame(tables, tables2, last);
  }

  lemma {:induction false} FilesHave(tables: Tables, chains: seq<seq<nat>>, i: nat)
    requires i < |chains| && FilesIn(tables, chains)
    ensures multiset(chains[i]) <= FilesBag(tables, chains)
  {
    hide PagesOf, Listed, Bag;
    FilesLast(tables, chains);
    if i + 1 < |chains| {
      FilesHave(tables, chains[..|chains| - 1], i);
    }
  }

  lemma FilesOkFrame(tables: Tables, tables2: Tables, files: seq<FileDescriptor>, chains: seq<seq<nat>>)
    requires FilesOk(tables, files, chains)
    requires forall id | id in FilesBag(tables, chains) && id in tables :: id in tables2 && tables2[id] == tables[id]
    ensures FilesOk(tables2, files, chains) && FilesBag(tables2, chains) == FilesBag(tables, chains)
  {
    hide PagesOf, Listed, FilesBag;
    FilesFrame(tables, tables2, chains);
    forall i | 0 <= i < |chains| ensures FileOk(tables2, files[i], chains[i]) && SizeOk(tables2, files[i], chains[i]) {
      FilesHave(tables, chains, i);
      forall k | 0 <= k < |chains[i]| ensures tables2[chains[i][k]] == tables[chains[i][k]] {
        assert chains[i][k] in multiset(chains[i]);
      }
      ListedFrame(tables, tables2, chains[i]);
    }
  }

  // ------------------------------------------------------------------ several files

  ghost function FilesCount(tables: Tables, chains: seq<seq<nat>>): nat
    requires FilesIn(tables, chains)
  {
    if chains == [] then 0 else FilesCount(tables, chains[..|chains| - 1]) + |Bag(Listed(tables, chains[|chains| - 1]))|
  }

  function FilesSize(files: seq<FileDescriptor>): nat {
    if files == [] then 0 else FilesSize(files[..|files| - 1]) + files[|files| - 1].fileSize
  }

  lemma CountLast(tables: Tables, chains: seq<seq<nat>>)
    requires FilesIn(tables, chains) && chains != []
    ensures var init, last := chains[..|chains| - 1], chains[|chains| - 1];
      && FilesIn(tables, init) && AllIn(tables, last)
      && FilesCount(tables, chains) == FilesCount(tables, init) + |Bag(Listed(tables, last))|
  {
  }

  lemma {:induction false} CountFrame(tables: Tables, tables2: Tables, chains: seq<seq<nat>>)
    requires FilesIn(tables, chains)
    requires forall id | id in FilesBag(tables, chains) && id in tables :: id in tables2 && tables2[id] == tables[id]
    ensures FilesIn(tables2, chains) && FilesCount(tables2, chains) == FilesCount(tables, chains)
  {
    hide PagesOf, Listed, Bag;
    FilesFrame(tables, tables2, chains);
    if chains != [] {
      var init, last := chains[..|chains| - 1], chains[|chains| - 1];
      FilesLast(tables, chains);
      CountLast(tables, chains);
      CountLast(tables2, chains);
      forall i | 0 <= i < |last| ensures last[i] in FilesBag(tables, chains) {
        assert last[i] in multiset(last);
      }
      ListedFrame(tables, tables2, last);
      hide FilesIn, AllIn, FilesCount, FilesBag;
      CountFrame(tables, tables2, init);
    }
  }

  lemma {:induction false} CountBound(tables: Tables, files: seq<FileDescriptor>, chains: seq<seq<nat>>)
    requires FilesOk(tables, files, chains)
    ensures PAGE * FilesCount(tables, chains) <= FilesSize(files)
  {
    hide PagesOf, Listed, Bag, FileOk;
    if chains != [] {
      assert SizeOk(tables, files[|chains| - 1], chains[|chains| - 1]);
      CountLast(tables, chains);
      CountBound(tables, files[..|files| - 1], chains[..|chains| - 1]);
    }
  }

  /** The first file apart from the others. */
  lemma {:induction false} FilesFirst(tables: Tables, chains: seq<seq<nat>>)
    requires FilesIn(tables, chains) && chains != []
    ensures FilesIn(tables, chains[1..]) && AllIn(tables, chains[0])
    ensures FilesBag(tables, chains)
            == multiset(chains[0]) + Bag(Listed(tables, chains[0])) + FilesBag(tables, chains[1..])
    ensures FilesCount(tables, chains) == |Bag(Listed(tables, chains[0]))| + FilesCount(tables, chains[1..])
  {
    hide PagesOf, Listed, Bag, AllIn, FilesBag, FilesCount;
    FilesLast(tables, chains);
    CountLast(tables, chains);
    var init, rest := chains[..|chains| - 1], chains[1..];
    assert FilesIn(tables, rest);
    assert AllIn(tables, chains[0]);
    hide FilesIn;
    if |chains| == 1 {
      assert init == [] && rest == [];
      FilesNone(tables);
    } else {
      FilesFirst(tables, init);
      FilesLast(tables, rest);
      CountLast(tables, rest);
      assert init[1..] == rest[..|rest| - 1] && init[0] == chains[0];
    }
  }

  lemma FilesNone(tables: Tables)
    ensures FilesIn(tables, []) && FilesBag(tables, []) == multiset{} && FilesCount(tables, []) == 0
    ensures FilesOk(tables, [], [])
    ensures Bag([]) == multiset{}
  {
  }
}
