/** Closing the free store, on values: intervals go into tables, some of them taken from the intervals. */
module FreeTables {
  import opened Basics
  import opened Intervals
  import opened FileTables
  import opened FileStores
  import opened PageBags

  /** The tables `done` are filled and `rest` is what the list goes on with; `pool` still has to find a place,
      and the files have theirs. Together that is `total`, and no page occurs twice. */
  ghost predicate Pushing(tables: Tables, done: seq<nat>, rest: seq<nat>, pool: seq<Run>, files: seq<FileDescriptor>,
                          chains: seq<seq<nat>>, total: multiset<nat>, pages: set<nat>, limit: nat, others: nat,
                            f: multiset<nat>) {
    && done != [] && AllIn(tables, done) && AllIn(tables, rest) && AllIn(tables, done + rest)
    && Chained(tables, done + rest)
    && INVALID !in tables && tables.Keys <= pages && FilesOk(tables, files, chains)
    && multiset(done) + Bag(Listed(tables, done)) + Bag(pool) + (multiset(rest) + Bag(Listed(tables, rest)))
       + FilesBag(tables, chains)
       == total
    && total <= multiset(pages) && |Bag(Listed(tables, done))| + |Bag(pool)| <= limit
    && |Bag(Listed(tables, rest))| + FilesCount(tables, chains) == others && FilesBag(tables, chains) == f
  }

  lemma PoolParts(pool: seq<Run>)
    ensures var n := Room(pool, 0); n <= |pool| && Bag(pool[..n]) + Bag(pool[n..]) == Bag(pool)
  {
    hide PagesOf, Room;
    var n := Room(pool, 0);
    assert pool == pool[..n] + pool[n..];
    BagAppend(pool[..n], pool[n..]);
  }

  lemma ApartFrom(part: multiset<nat>, files: multiset<nat>, total: multiset<nat>, pages: set<nat>)
    requires part + files <= total <= multiset(pages)
    ensures forall p | p in part :: p !in files
  {
    OnceParts(part, files, pages);
  }

  /** The head takes what finds room; what it listed before is in the pool. */
  lemma {:induction false} PushFirst(tables: Tables, tables2: Tables, n: nat, chain: seq<nat>, pool: seq<Run>,
                                     files: seq<FileDescriptor>,
                                     chains: seq<seq<nat>>, total: multiset<nat>, pages: set<nat>, others: nat,
                                       f: multiset<nat>)
    requires chain != [] && AllIn(tables, chain) && AllIn(tables, chain[1..]) && Chained(tables, chain)
    requires Distinct(chain)
    requires INVALID !in tables && tables.Keys <= pages && FilesOk(tables, files, chains)
    requires f == FilesBag(tables, chains) && others == |Bag(Listed(tables, chain[1..]))| + FilesCount(tables, chains)
    requires ListBag(tables, chain, true) + Bag(pool) + f == total <= multiset(pages)
    requires n == Room(pool, 0) && n <= |pool| && tables2 == tables[chain[0] := Table(tables[chain[0]].next, pool[..n])]
    ensures Pushing(tables2, [chain[0]], chain[1..], pool[n..], files, chains, total, pages, |Bag(pool)|, others, f)
  {
    hide PagesOf, Listed, Bag, FilesBag, Room, ListBag, FilesCount, Pushing;
    var head, rest := chain[0], chain[1..];
    assert head in tables && tables2.Keys == tables.Keys;
    PoolParts(pool);
    HeadBag(tables, chain, Bag(pool), f, total, pages);
    FilesOkFrame(tables, tables2, files, chains);
    CountFrame(tables, tables2, chains);
    assert chain == [head] + rest;
    HeadFrame(tables, tables2, chain);
    hide AllIn, Chained, FilesOk;
    assert multiset([head]) == multiset{head};
    PushSum(multiset{head}, Bag(pool[..n]), Bag(pool[n..]), Bag(pool), multiset(rest) + Bag(Listed(tables, rest)), f);
    MakePushing(tables2, [head], rest, pool[n..], files, chains, total, pages, |Bag(pool)|, others, f);
  }

  lemma {:induction false} MakePushing(tables: Tables, done: seq<nat>, rest: seq<nat>, pool: seq<Run>,
                                       files: seq<FileDescriptor>, chains: seq<seq<nat>>,
                    total: multiset<nat>, pages: set<nat>, limit: nat, others: nat, f: multiset<nat>)
    requires done != [] && AllIn(tables, done) && AllIn(tables, rest) && AllIn(tables, done + rest)
    requires Chained(tables, done + rest)
    requires INVALID !in tables && tables.Keys <= pages && FilesOk(tables, files, chains)
    requires multiset(done) + Bag(Listed(tables, done)) + Bag(pool) + (multiset(rest) + Bag(Listed(tables, rest)))
             + FilesBag(tables, chains)
          == total
    requires total <= multiset(pages) && |Bag(Listed(tables, done))| + |Bag(pool)| <= limit
    requires |Bag(Listed(tables, rest))| + FilesCount(tables, chains) == others && FilesBag(tables, chains) == f
    ensures Pushing(tables, done, rest, pool, files, chains, total, pages, limit, others, f)
  {
    hide PagesOf, Listed, Bag, FilesBag, FilesCount, AllIn, Chained, FilesOk;
  }

  lemma HeadBag(tables: Tables, chain: seq<nat>, pool: multiset<nat>, f: multiset<nat>, total: multiset<nat>,
                pages: set<nat>)
    requires chain != [] && AllIn(tables, chain) && AllIn(tables, chain[1..])
    requires ListBag(tables, chain, true) + pool + f == total <= multiset(pages)
    ensures chain[0] !in f
    ensures total == multiset{chain[0]} + multiset{}
            + (multiset(chain[1..]) + Bag(Listed(tables, chain[1..]))) + pool + f
  {
    hide PagesOf, Listed, Bag;
    ListIs(tables, chain, true);
    assert multiset{chain[0]} + f <= total;
    ApartFrom(multiset{chain[0]}, f, total, pages);
    assert chain[0] in multiset{chain[0]};
  }

  lemma HeadFrame(tables: Tables, tables2: Tables, chain: seq<nat>)
    requires chain != [] && AllIn(tables, chain) && AllIn(tables, chain[1..]) && Chained(tables, chain)
    requires Distinct(chain)
    requires chain[0] in tables2 && tables2[chain[0]].next == tables[chain[0]].next
    requires forall id | id in tables && id != chain[0] :: id in tables2 && tables2[id] == tables[id]
    ensures AllIn(tables2, [chain[0]]) && Listed(tables2, [chain[0]]) == tables2[chain[0]].intervals
    ensures AllIn(tables2, chain[1..]) && Listed(tables2, chain[1..]) == Listed(tables, chain[1..])
    ensures AllIn(tables2, chain) && Chained(tables2, chain)
  {
    ListedFrame(tables, tables2, chain[1..]);
    ListedOne(tables2, chain[0]);
  }

  lemma PushSum(head: multiset<nat>, a: multiset<nat>, b: multiset<nat>, pool: multiset<nat>, rest: multiset<nat>,
                files: multiset<nat>)
    requires a + b == pool
    ensures head + a + b + rest + files == head + multiset{} + rest + pool + files
  {
    assert head + a + b + rest + files == head + (a + b) + rest + files;
  }

  /** A page becomes a table: a fresh one, or the first one of the pool. */
  lemma {:induction false} PushNext(tables: Tables, done: seq<nat>, rest: seq<nat>, pool: seq<Run>,
                                    files: seq<FileDescriptor>, chains: seq<seq<nat>>,
                 total: multiset<nat>, pages: set<nat>, limit: nat, others: nat, f: multiset<nat>, t: nat,
                   pool2: seq<Run>, total2: multiset<nat>, pages2: set<nat>)
    requires Pushing(tables, done, rest, pool, files, chains, total, pages, limit, others, f) && t != INVALID
    requires t in pages2 && pages <= pages2
    requires total2 <= multiset(pages2)
    requires (total2 == total && Bag(pool) == multiset{t} + Bag(pool2)) || (pool2 == pool
                                                                            && total2 == total + multiset{t})
    ensures var n, cur := Room(pool2, 0), done[|done| - 1];
      && cur in tables && cur != t
      && Pushing(tables[t := Table(tables[cur].next, pool2[..n])][cur := Table(t, tables[cur].intervals)], done + [t],
                 rest, pool2[n..],
                 files, chains, total2, pages2, limit, others, f)
  {
    hide PagesOf, Listed, Bag, FilesBag, Room, FilesCount;
    var n, cur := Room(pool2, 0), done[|done| - 1];
    var tables2 := tables[t := Table(tables[cur].next, pool2[..n])][cur := Table(t, tables[cur].intervals)];
    PoolParts(pool2);
    var d, l, r := multiset(done), Bag(Listed(tables, done)), multiset(rest) + Bag(Listed(tables, rest));
    NextSum(d, l, Bag(pool), multiset{t}, Bag(pool2), r, f, total, total2);
    NextApart(done, rest, f, l, Bag(Listed(tables, rest)), Bag(pool2), t, total2, pages2);
    FilesOkFrame(tables, tables2, files, chains);
    CountFrame(tables, tables2, chains);
    ListedFrame(tables, tables2, rest);
    ListedFrame(tables, tables2, done);
    assert AllIn(tables2, [t]);
    ListedAppend(tables2, done, [t]);
    ListedOne(tables2, t);
    BagAppend(Listed(tables, done), pool2[..n]);
    NextChain(tables, tables2, done, rest, t);
    assert multiset(done + [t]) == d + multiset{t};
    NextTotal(d, l, Bag(pool2[..n]), Bag(pool2[n..]), Bag(pool2), multiset{t}, r, f, total2);
  }

  lemma NextSum(d: multiset<nat>, l: multiset<nat>, p: multiset<nat>, t: multiset<nat>, p2: multiset<nat>,
                r: multiset<nat>,
                f: multiset<nat>, total: multiset<nat>, total2: multiset<nat>)
    requires d + l + p + r + f == total
    requires (total2 == total && p == t + p2) || (p2 == p && total2 == total + t)
    ensures d + l + (t + p2) + r + f == total2
  {
    if total2 != total || p != t + p2 {
      assert d + l + (t + p) + r + f == (d + l + p + r + f) + t;
    }
  }

  lemma NextTotal(d: multiset<nat>, l: multiset<nat>, a: multiset<nat>, b: multiset<nat>, p2: multiset<nat>,
                  t: multiset<nat>,
                  r: multiset<nat>, f: multiset<nat>, total2: multiset<nat>)
    requires a + b == p2 && d + l + (t + p2) + r + f == total2
    ensures (d + t) + (l + a) + b + r + f == total2
  {
    assert (d + t) + (l + a) + b + r + f == d + l + (t + (a + b)) + r + f;
  }

  lemma NextApart(done: seq<nat>, rest: seq<nat>, f: multiset<nat>, l: multiset<nat>, lr: multiset<nat>,
                  p2: multiset<nat>, t: nat,
                  total2: multiset<nat>, pages2: set<nat>)
    requires multiset(done) + l + (multiset{t} + p2) + (multiset(rest) + lr) + f == total2 <= multiset(pages2)
    ensures (forall i | 0 <= i < |done| :: done[i] != t) && (forall i | 0 <= i < |rest| :: rest[i] != t) && t !in f
    ensures Distinct(done + rest) && forall i | 0 <= i < |done| :: done[i] !in f
  {
    var others := l + p2 + lr;
    assert total2 == (multiset{t} + (multiset(done) + multiset(rest))) + f + others;
    assert (multiset{t} + (multiset(done) + multiset(rest))) + f <= total2;
    ApartFrom(multiset{t} + (multiset(done) + multiset(rest)), f, total2, pages2);
    assert multiset{t} + (multiset(done) + multiset(rest)) <= total2;
    ApartFrom(multiset{t}, multiset(done) + multiset(rest), total2, pages2);
    assert t in multiset{t};
    forall i | 0 <= i < |done| ensures done[i] != t && done[i] !in f {
      assert done[i] in multiset(done);
    }
    forall i | 0 <= i < |rest| ensures rest[i] != t {
      assert rest[i] in multiset(rest);
    }
    assert multiset(done + rest) == multiset(done) + multiset(rest);
    assert multiset(done + rest) + (multiset{t} + f + others) == total2;
    OnceSeq(done + rest, multiset{t} + f + others, pages2);
  }

  lemma NextChain(tables: Tables, tables2: Tables, done: seq<nat>, rest: seq<nat>, t: nat)
    requires done != [] && AllIn(tables, done + rest) && Chained(tables, done + rest) && Distinct(done + rest)
    requires (forall i | 0 <= i < |done| :: done[i] != t) && (forall i | 0 <= i < |rest| :: rest[i] != t)
    requires var cur := done[|done| - 1];
      && cur in tables && t in tables2 && tables2[t].next == tables[cur].next && cur in tables2
      && tables2[cur].next == t
      && forall id | id in tables && id != t && id != cur :: id in tables2 && tables2[id] == tables[id]
    ensures AllIn(tables2, done + [t] + rest) && Chained(tables2, done + [t] + rest)
  {
    var now := done + [t] + rest;
    hide Chained, AllIn, Distinct;
    forall i | 0 <= i < |now|
      ensures now[i] in tables2 && tables2[now[i]].next == (if i + 1 < |now| then now[i + 1] else INVALID)
    {
      ChainedAt(tables, done + rest, if i <= |done| - 1 then i else i - 1);
      if i < |done| {
        NextBefore(tables, tables2, done, rest, t, i);
      } else {
        NextBehind(tables, tables2, done, rest, t, i);
      }
    }
    ChainedIs(tables2, now);
  }

  lemma ChainedIs(tables: Tables, chain: seq<nat>)
    requires forall i | 0 <= i < |chain| ::
               chain[i] in tables && tables[chain[i]].next == (if i + 1 < |chain| then chain[i + 1] else INVALID)
    ensures AllIn(tables, chain) && Chained(tables, chain)
  {
  }

  lemma ChainedAt(tables: Tables, chain: seq<nat>, i: nat)
    requires Chained(tables, chain) && i < |chain|
    ensures chain[i] in tables && tables[chain[i]].next == (if i + 1 < |chain| then chain[i + 1] else INVALID)
  {
  }

  lemma NextBefore(tables: Tables, tables2: Tables, done: seq<nat>, rest: seq<nat>, t: nat, i: nat)
    requires done != [] && Distinct(done + rest) && i < |done| && done[i] != t
    requires var cur := done[|done| - 1];
      cur in tables2 && tables2[cur].next == t && forall id | id in tables && id != t && id != cur ::
        id in tables2 && tables2[id] == tables[id]
    requires (done + rest)[i] in tables
          && tables[(done + rest)[i]].next == (if i + 1 < |done + rest| then (done + rest)[i + 1] else INVALID)
    ensures var now := done + [t] + rest;
      now[i] in tables2 && tables2[now[i]].next == (if i + 1 < |now| then now[i + 1] else INVALID)
  {
    var was, now, n := done + rest, done + [t] + rest, |done|;
    assert was[n - 1] == done[n - 1] && now[i] == was[i] == done[i];
    if i < n - 1 {
      assert now[i + 1] == was[i + 1] == done[i + 1] && was[i] != was[n - 1];
    } else {
      assert now[i + 1] == t;
    }
  }

  lemma NextBehind(tables: Tables, tables2: Tables, done: seq<nat>, rest: seq<nat>, t: nat, i: nat)
    requires done != [] && Distinct(done + rest) && |done| <= i <= |done| + |rest|
    requires forall k | 0 <= k < |rest| :: rest[k] != t
    requires var cur := done[|done| - 1];
      && cur in tables && t in tables2 && tables2[t].next == tables[cur].next
      && forall id | id in tables && id != t && id != cur :: id in tables2 && tables2[id] == tables[id]
    requires (done + rest)[i - 1] in tables
          && tables[(done + rest)[i - 1]].next == (if i < |done + rest| then (done + rest)[i] else INVALID)
    ensures var now := done + [t] + rest;
      now[i] in tables2 && tables2[now[i]].next == (if i + 1 < |now| then now[i + 1] else INVALID)
  {
    var was, now, n := done + rest, done + [t] + rest, |done|;
    assert was[n - 1] == done[n - 1];
    if i == n {
      assert now[n] == t && (rest != [] ==> now[n + 1] == rest[0] == was[n]);
    } else {
      assert now[i] == rest[i - n - 1] == was[i - 1] && was[i - 1] != was[n - 1];
      assert i + 1 < |now| ==> now[i + 1] == rest[i - n] == was[i];
    }
  }

  // ------------------------------------------------------------------ files to delete

  /** The free list `chain` and the files behind it. */
  ghost predicate Chaining(tables: Tables, chain: seq<nat>, last: nat, files: seq<FileDescriptor>,
                           chains: seq<seq<nat>>,
                           total: multiset<nat>, pages: set<nat>, size: nat) {
    && chain != [] && AllIn(tables, chain) && Chained(tables, chain) && last == chain[|chain| - 1]
    && INVALID !in tables && tables.Keys <= pages && FilesOk(tables, files, chains)
    && multiset(chain) + Bag(Listed(tables, chain)) + FilesBag(tables, chains) == total <= multiset(pages)
    && PAGE * (|Bag(Listed(tables, chain))| + FilesCount(tables, chains)) <= size
  }

  /** The last table of the list leads to the first one of the next file. */
  lemma {:induction false} ChainStep(tables: Tables, chain: seq<nat>, last: nat, files: seq<FileDescriptor>,
                                     chains: seq<seq<nat>>,
                  total: multiset<nat>, pages: set<nat>, size: nat)
    requires Chaining(tables, chain, last, files, chains, total, pages, size) && files != []
    ensures last in tables && chains != []
    ensures Chaining(tables[last := tables[last].(next := files[0].first)], chain + chains[0], files[0].last,
                     files[1..], chains[1..],
                     total, pages, size)
    ensures forall p | p in chains[0] :: p in FilesBag(tables, chains)
    ensures FilesBag(tables[last := tables[last].(next := files[0].first)], chains[1..]) <= FilesBag(tables, chains)
  {
    hide PagesOf, Listed, Bag, FilesBag, FilesCount;
    var tables2, g, f := tables[last := tables[last].(next := files[0].first)], chains[0], FilesBag(tables, chains);
    assert last in multiset(chain);
    ApartFrom(multiset(chain), f, total, pages);
    FilesOkFrame(tables, tables2, files, chains);
    CountFrame(tables, tables2, chains);
    FilesFirst(tables2, chains);
    forall p | p in g ensures p in f {
      assert p in multiset(g);
    }
    LinkChains(tables, tables2, chain, g, Bag(Listed(tables, chain)) + f, multiset(chain), pages);
    ListedSame(tables, tables2, chain);
    ListedAppend(tables2, chain, g);
    BagAppend(Listed(tables2, chain), Listed(tables2, g));
    assert multiset(chain + g) == multiset(chain) + multiset(g);
    FilesTail(tables2, files, chains);
    LinkSum(multiset(chain), Bag(Listed(tables, chain)), multiset(g), Bag(Listed(tables2, g)),
            FilesBag(tables2, chains[1..]));
  }

  lemma FilesTail(tables: Tables, files: seq<FileDescriptor>, chains: seq<seq<nat>>)
    requires FilesOk(tables, files, chains) && files != []
    ensures FilesOk(tables, files[1..], chains[1..]) && FileOk(tables, files[0], chains[0])
  {
    hide PagesOf, Listed, Bag, Chained, Distinct, AllIn;
  }

  lemma ListedSame(tables: Tables, tables2: Tables, chain: seq<nat>)
    requires AllIn(tables, chain)
    requires forall id | id in tables :: id in tables2 && tables2[id].intervals == tables[id].intervals
    ensures AllIn(tables2, chain) && Listed(tables2, chain) == Listed(tables, chain)
  {
    ListedFrame(tables, tables2, chain);
  }

  lemma LinkSum(c: multiset<nat>, l: multiset<nat>, g: multiset<nat>, lg: multiset<nat>, f: multiset<nat>)
    ensures (c + g) + (l + lg) + f == c + l + (g + lg + f)
  {
  }

  lemma {:induction false} LinkChains(tables: Tables, tables2: Tables, chain: seq<nat>, g: seq<nat>,
                                      others: multiset<nat>, c: multiset<nat>, pages: set<nat>)
    requires chain != [] && g != [] && Chained(tables, chain) && AllIn(tables, chain) && AllIn(tables, g)
    requires Chained(tables, g)
    requires c == multiset(chain) && multiset(g) <= others && c + others <= multiset(pages)
    requires chain[|chain| - 1] in tables
    requires tables2 == tables[chain[|chain| - 1] := tables[chain[|chain| - 1]].(next := g[0])]
    ensures AllIn(tables2, chain + g) && Chained(tables2, chain + g)
  {
    var last := chain[|chain| - 1];
    OnceParts(c, others, pages);
    OnceSeq(chain, others, pages);
    forall i | 0 <= i < |g| ensures g[i] != last {
      assert g[i] in multiset(g) && last in multiset(chain);
    }
    Linked(tables, tables2, chain, g);
  }

  /** The last table of a chain is told where the other chain begins. */
  lemma Linked(tables: Tables, tables2: Tables, chain: seq<nat>, g: seq<nat>)
    requires chain != [] && g != [] && Chained(tables, chain) && Chained(tables, g) && Distinct(chain)
    requires chain[|chain| - 1] in tables && forall i | 0 <= i < |g| :: g[i] != chain[|chain| - 1]
    requires tables2 == tables[chain[|chain| - 1] := tables[chain[|chain| - 1]].(next := g[0])]
    ensures AllIn(tables2, chain + g) && Chained(tables2, chain + g)
  {
    var last, now := chain[|chain| - 1], chain + g;
    forall i | 0 <= i < |now|
      ensures now[i] in tables2 && tables2[now[i]].next == (if i + 1 < |now| then now[i + 1] else INVALID)
    {
      if i < |chain| {
        assert now[i] == chain[i];
        assert i + 1 < |chain| ==> now[i + 1] == chain[i + 1] && chain[i] != last;
      } else {
        assert now[i] == g[i - |chain|] && (i + 1 < |now| ==> now[i + 1] == g[i - |chain| + 1]);
      }
    }
    ChainedIs(tables2, now);
  }

  /** The list is done; every page in it occurs once. */
  lemma ChainDone(tables: Tables, chain: seq<nat>, last: nat, files: seq<FileDescriptor>, chains: seq<seq<nat>>,
                  total: multiset<nat>, pages: set<nat>, size: nat, fd: FileDescriptor)
    requires Chaining(tables, chain, last, files, chains, total, pages, size) && files == []
    requires fd == FileDescriptor(chain[0], last, size)
    ensures FileOk(tables, fd, chain) && SizeOk(tables, fd, chain) && AllIn(tables, chain[1..])
    ensures multiset(chain) + Bag(Listed(tables, chain)) == total <= multiset(pages) && INVALID !in tables
    ensures tables.Keys <= pages
  {
    hide PagesOf, Listed, Bag;
    FilesNone(tables);
    OnceSeq(chain, Bag(Listed(tables, chain)), pages);
  }

  /** All intervals have their place. */
  lemma PushDone(tables: Tables, done: seq<nat>, rest: seq<nat>, files: seq<FileDescriptor>, chains: seq<seq<nat>>,
                 total: multiset<nat>, pages: set<nat>, limit: nat, others: nat, f: multiset<nat>, last: nat, size: nat)
    requires Pushing(tables, done, rest, [], files, chains, total, pages, limit, others, f)
    requires last == (if rest == [] then done[|done| - 1] else rest[|rest| - 1])
    requires PAGE * (limit + others) <= size
    ensures FilesIn(tables, chains) && FilesBag(tables, chains) == f
    ensures Chaining(tables, done + rest, last, files, chains, total, pages, size)
  {
    hide PagesOf, Listed, Bag, FilesBag, FilesCount;
    FilesNone(tables);
    ListedAppend(tables, done, rest);
    BagAppend(Listed(tables, done), Listed(tables, rest));
    assert multiset(done + rest) == multiset(done) + multiset(rest);
    LinkSum(multiset(done), Bag(Listed(tables, done)), multiset(rest), Bag(Listed(tables, rest)),
            FilesBag(tables, chains));
  }

  // ------------------------------------------------------------------ files of one table

  /** A file whose table is its only one: what it lists joins the pool, and its table is free. */
  lemma SplitStep(tables: Tables, files: seq<FileDescriptor>, chains: seq<seq<nat>>, i: nat, pool: seq<Run>,
                  meta: set<nat>,
                  keep: seq<FileDescriptor>, keepChains: seq<seq<nat>>, others: multiset<nat>, pages: set<nat>)
    requires FilesOk(tables, files, chains) && i < |files| && FilesOk(tables, keep, keepChains)
    requires FilesIn(tables, chains[..i]) && FilesIn(tables, chains[i..])
    requires Bag(pool) + multiset(meta) + FilesBag(tables, keepChains) + FilesBag(tables, chains[i..]) + others
             <= multiset(pages)
    ensures FilesIn(tables, chains[i + 1..]) && files[i].first in tables
    ensures files[i].first == files[i].last ==>
      && files[i].first !in meta
      && Bag(PushAll(pool, tables[files[i].first].intervals)) + multiset(meta + {files[i].first})
         + FilesBag(tables, keepChains)
         + FilesBag(tables, chains[i + 1..])
         == Bag(pool) + multiset(meta) + FilesBag(tables, keepChains) + FilesBag(tables, chains[i..])
      && |Bag(PushAll(pool, tables[files[i].first].intervals))| + FilesCount(tables, chains[i + 1..])
         == |Bag(pool)| + FilesCount(tables, chains[i..])
    ensures files[i].first != files[i].last ==>
      && FilesOk(tables, keep + [files[i]], keepChains + [chains[i]])
      && Bag(pool) + multiset(meta) + FilesBag(tables, keepChains + [chains[i]]) + FilesBag(tables, chains[i + 1..])
         == Bag(pool) + multiset(meta) + FilesBag(tables, keepChains) + FilesBag(tables, chains[i..])
      && FilesCount(tables, keepChains + [chains[i]]) + FilesCount(tables, chains[i + 1..])
         == FilesCount(tables, keepChains) + FilesCount(tables, chains[i..])
  {
    hide PagesOf, Listed, Bag, FilesBag, FilesCount, Chained;
    var c := chains[i];
    assert chains[i..][0] == c && chains[i..][1..] == chains[i + 1..];
    FilesFirst(tables, chains[i..]);
    assert FileOk(tables, files[i], c) && SizeOk(tables, files[i], c);
    if files[i].first == files[i].last {
      assert c == [files[i].first];
      ListedOne(tables, files[i].first);
      BagPushAll(pool, tables[files[i].first].intervals);
      OneTable(files[i].first, meta, Bag(pool), Bag(tables[files[i].first].intervals), FilesBag(tables, keepChains),
               FilesBag(tables, chains[i + 1..]), others, pages);
    } else {
      KeepMore(tables, keep, keepChains, files[i], c);
    }
  }

  lemma KeepMore(tables: Tables, keep: seq<FileDescriptor>, keepChains: seq<seq<nat>>, file: FileDescriptor,
                 c: seq<nat>)
    requires FilesOk(tables, keep, keepChains) && FileOk(tables, file, c) && SizeOk(tables, file, c)
    ensures FilesOk(tables, keep + [file], keepChains + [c])
    ensures FilesBag(tables, keepChains + [c]) == FilesBag(tables, keepChains) + multiset(c) + Bag(Listed(tables, c))
    ensures FilesCount(tables, keepChains + [c]) == FilesCount(tables, keepChains) + |Bag(Listed(tables, c))|
  {
    hide PagesOf, Listed, Bag, Chained, FilesBag, FilesCount;
    FilesInMore(tables, keepChains, c);
    FilesLast(tables, keepChains + [c]);
    CountLast(tables, keepChains + [c]);
    assert (keepChains + [c])[..|keepChains|] == keepChains;
  }

  lemma OneTable(t: nat, meta: set<nat>, pool: multiset<nat>, part: multiset<nat>, keep: multiset<nat>,
                 later: multiset<nat>,
                 others: multiset<nat>, pages: set<nat>)
    requires pool + multiset(meta) + keep + (multiset{t} + part + later) + others <= multiset(pages)
    ensures t !in meta
    ensures (pool + part) + multiset(meta + {t}) + keep + later
            == pool + multiset(meta) + keep + (multiset{t} + part + later)
  {
    var all := pool + multiset(meta) + keep + (multiset{t} + part + later) + others;
    assert all[t] <= multiset(pages)[t] <= 1;
    assert multiset(meta + {t}) == multiset(meta) + multiset{t};
  }

  lemma SplitStart(tables: Tables, chains: seq<seq<nat>>, meta: multiset<nat>, others: multiset<nat>,
                   cur: multiset<nat>,
                   still: multiset<nat>, list: multiset<nat>)
    requires FilesIn(tables, chains) && others == list + cur + still
    ensures chains[0..] == chains && FilesOk(tables, [], []) && FilesCount(tables, []) == 0
    ensures FilesBag(tables, []) == multiset{}
    ensures Bag([]) == multiset{} && FilesIn(tables, chains[|chains|..]) && chains[|chains|..] == []
    ensures list + (cur + meta + still + FilesBag(tables, chains)) == meta + FilesBag(tables, chains) + others
  {
    hide PagesOf, Listed, FilesBag, FilesCount;
    FilesNone(tables);
  }

  /** Nothing to write: the list stays as it is. */
  lemma ListAsIs(tables: Tables, chain: seq<nat>, loaded: bool, files: seq<FileDescriptor>, chains: seq<seq<nat>>,
                 total: multiset<nat>, pages: set<nat>, size: nat, last: nat)
    requires chain != [] && AllIn(tables, chain) && AllIn(tables, chain[1..]) && Chained(tables, chain)
    requires last == chain[|chain| - 1]
    requires INVALID !in tables && tables.Keys <= pages && FilesOk(tables, files, chains)
    requires ListBag(tables, chain, loaded) + FilesBag(tables, chains) + Bag([]) == total <= multiset(pages)
    requires loaded ==> tables[chain[0]].intervals == []
    requires PAGE * (|Bag(Listed(tables, if loaded then chain[1..] else chain))| + FilesCount(tables, chains)) <= size
    ensures Chaining(tables, chain, last, files, chains, total, pages, size)
  {
    hide PagesOf, Listed, Bag, FilesBag, FilesCount;
    FilesNone(tables);
    assert chain == [chain[0]] + chain[1..] && AllIn(tables, [chain[0]]);
    ListedAppend(tables, [chain[0]], chain[1..]);
    ListedOne(tables, chain[0]);
    assert [] + Listed(tables, chain[1..]) == Listed(tables, chain[1..]);
  }

  /** The first page of the pool is a page of the file; with it or a new page the sum is as it should be. */
  lemma NextPage(tables: Tables, done: seq<nat>, rest: seq<nat>, pool: seq<Run>, files: seq<FileDescriptor>,
                 chains: seq<seq<nat>>,
                 total: multiset<nat>, pages: set<nat>, limit: nat, others: nat, f: multiset<nat>, t: nat)
    requires Pushing(tables, done, rest, pool, files, chains, total, pages, limit, others, f) && pool != []
    ensures pool[0].begin in pages
    ensures t !in pages ==> total + multiset{t} <= multiset(pages + {t})
  {
    hide Listed, FilesBag, FilesOk, Chained;
    PagesFirst(pool);
    assert PagesOf(pool)[0] == pool[0].begin && PagesOf(pool)[0] in multiset(PagesOf(pool));
    assert Bag(pool) <= total;
    assert pool[0].begin in Bag(pool);
    assert multiset(pages + {t}) == if t in pages then multiset(pages) else multiset(pages) + multiset{t};
  }

  /** Filling a table uses pages of the pool up. */
  lemma PoolShrinks(pool: seq<Run>)
    requires pool != []
    ensures 0 < Room(pool, 0) <= |pool| && |PagesOf(pool[Room(pool, 0)..])| < |PagesOf(pool)|
  {
    hide PagesOf;
    RoomForOne(pool);
    var n := Room(pool, 0);
    assert pool == pool[..n] + pool[n..];
    PagesAppend(pool[..n], pool[n..]);
    PagesFirst(pool[..n]);
  }

  lemma NothingToFill(pool: seq<Run>)
    requires pool == []
    ensures Room(pool, 0) == 0 && pool[..0] == [] && pool[0..] == pool
  {
  }
}
