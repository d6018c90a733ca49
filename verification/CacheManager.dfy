/** The page cache of one write operation: pages read, changed and new pages, and the changed pages
    that were moved out of memory to a place of their own ("diverted"). */
module CacheManagement {
  import opened Basics
  import opened Disk
  import opened Recovery

  datatype PageClass = Read | New | Dirty

  /** `pins` counts the references clients hold. Only pages without any can be evicted. `usage` counts how often the
      page was asked for again. */
  datatype CachedPage = CachedPage(content: nat, cls: PageClass, pins: nat, usage: nat)

  type PageCache = map<nat, CachedPage>

  /** The counter has 24 bits. */
  function Used(page: CachedPage): CachedPage {
    page.(usage := (page.usage + 1) % 0x100_0000)
  }

  function Class(cls: PageClass): nat {
    match cls
    case Read => 1
    case New => 2
    case Dirty => 3
  }

  /** Page `a` is kept rather than page `b`: changed pages before those only read, then those used more often. */
  predicate Rather(a: CachedPage, b: CachedPage) {
    Class(a.cls) > Class(b.cls) || (a.cls == b.cls && a.usage > b.usage)
  }

  function Unpinned(cache: PageCache): set<nat> {
    set k | k in cache && cache[k].pins == 0
  }

  /** Pages have left the cache: none that a client holds, only as many as had to, and none that would rather have
      been kept than one that stays. */
  ghost predicate Trimmed(was: PageCache, now: PageCache, maxPages: nat) {
    && now.Keys <= was.Keys && (forall k | k in now :: now[k] == was[k])
    && (forall k | k in was && was[k].pins > 0 :: k in now)
    && |Unpinned(now)| == Least(maxPages, |Unpinned(was)|)
    && (forall k, v | k in Unpinned(now) && v in was && v !in now :: !Rather(was[v], was[k]))
  }

  /** The cache after a page came in: only if it is too large now, it loses pages, and then a quarter stays empty. */
  ghost predicate Checked(was: PageCache, now: PageCache, maxPages: nat) {
    if |was| > maxPages then Trimmed(was, now, maxPages / 4 * 3) else now == was
  }

  /** Of the pages that were there only these were written; the file may have grown, and nothing was flushed. */
  ghost predicate WritesOnly(was: State, now: State, ids: set<nat>) {
    && |was.pages| <= |now.pages| && |was.flushed| <= |now.flushed| && now.flushed[..|was.flushed|] == was.flushed
    && (forall i | 0 <= i < |was.pages| && i !in ids :: now.pages[i] == was.pages[i])
    && (forall w | w in now.unflushed && w !in was.unflushed :: w.0 in ids || w.0 >= |was.pages|)
  }

  lemma WritesNone(d: State)
    ensures WritesOnly(d, d, {})
  {
  }

  lemma WritesMore(was: State, now: State, ids: set<nat>, more: set<nat>)
    requires WritesOnly(was, now, ids) && ids <= more
    ensures WritesOnly(was, now, more)
  {
  }

  lemma WritesOne(was: State, now: State, ids: set<nat>, id: nat, page: Page)
    requires WritesOnly(was, now, ids) && Sound(now) && id < |now.pages| && (id in ids || id >= |was.pages|)
    ensures WritesOnly(was, Apply(now, Write(id, page)), ids)
  {
  }

  lemma GrowsOne(was: State, now: State, ids: set<nat>)
    requires WritesOnly(was, now, ids) && Sound(now)
    ensures WritesOnly(was, Apply(now, Grow(1)), ids)
  {
  }

  lemma WritesThrough(was: State, mid: State, now: State, ids: set<nat>, more: set<nat>)
    requires WritesOnly(was, mid, ids) && WritesOnly(mid, now, more)
    ensures WritesOnly(was, now, ids + more)
  {
  }

  /** The pages of a class that have left. */
  ghost function Gone(was: PageCache, now: PageCache, cls: PageClass): set<nat> {
    set k | k in was && k !in now && was[k].cls == cls
  }

  lemma UnpinnedParts(cache: PageCache)
    ensures Unpinned(cache) <= cache.Keys && |cache| == |cache.Keys - Unpinned(cache)| + |Unpinned(cache)|
  {
    assert cache.Keys == (cache.Keys - Unpinned(cache)) + Unpinned(cache);
  }

  /** What is left are the pages that clients hold, and of the others at most the number asked for. */
  lemma TrimmedSize(was: PageCache, now: PageCache, maxPages: nat)
    requires Trimmed(was, now, maxPages)
    ensures |now| == |was| - |Unpinned(was)| + Least(maxPages, |Unpinned(was)|)
  {
    UnpinnedParts(was);
    UnpinnedParts(now);
    assert was.Keys - Unpinned(was) == now.Keys - Unpinned(now);
  }

  function Leaving(cache: PageCache, victims: set<nat>, cls: PageClass): set<nat>
    requires victims <= cache.Keys
  {
    set k | k in victims && cache[k].cls == cls
  }

  lemma VictimsIn(cache: PageCache, victims: set<nat>)
    requires victims <= Unpinned(cache)
    ensures victims <= cache.Keys && forall k | k in victims :: k in cache && cache[k].pins == 0
  {
  }

  lemma GoneIs(was: PageCache, now: PageCache, victims: set<nat>, cls: PageClass)
    requires victims <= was.Keys && now == map k | k in was && k !in victims :: was[k]
    ensures Gone(was, now, cls) == Leaving(was, victims, cls)
  {
  }

  lemma VictimsLeave(was: PageCache, now: PageCache, victims: set<nat>, maxPages: nat)
    requires victims <= Unpinned(was) && |Unpinned(was) - victims| == Least(maxPages, |Unpinned(was)|)
    requires forall v, k | v in victims && k in Unpinned(was) - victims :: !Rather(was[v], was[k])
    requires now == map k | k in was && k !in victims :: was[k]
    ensures Trimmed(was, now, maxPages)
  {
    assert Unpinned(now) == Unpinned(was) - victims;
  }

  /** The whole state of a write operation. `free` is what the page allocator can hand out before the
      file has to grow. `base` is the committed file the operation started from and `loose` those of
      its pages whose contents no flush has made permanent yet. */
  datatype Snapshot = Snapshot(d: State, cache: PageCache, diverted: map<nat, nat>, newIds: set<nat>, free: set<nat>,
                               base: seq<Page>, loose: set<nat>)
  {
    function At(id: nat): nat {
      Divert(diverted, id)
    }

    /** What a client that asks for page `id` sees: the cached page, or else the page in the file, in
        both cases at the place the page was diverted to. */
    function View(id: nat): Page {
      if At(id) in cache then Meta(cache[At(id)].content) else if At(id) < |d.pages| then d.pages[At(id)] else BLANK
    }

    /** The cache's own bookkeeping. */
    ghost predicate Ordered() {
      && (forall i | i in cache :: i < |d.pages| && i !in diverted && i !in free)
      && (forall i | i in newIds :: i < |d.pages| && i !in diverted && i !in free)
      && (forall i | i in diverted :: i < |d.pages| && i !in free)
      && (forall i {:trigger diverted[i]} | i in diverted :: diverted[i] in newIds)
      && (forall i | i in free :: i < |d.pages|)
      && (forall i, j {:trigger diverted[i], diverted[j]} | i in diverted && j in diverted && i != j ::
          diverted[i] != diverted[j])
      && (forall i | i in cache :: (cache[i].cls == New ==> i in newIds) && (cache[i].cls == Dirty ==> i !in newIds))
    }

    /** How the cache and the file agree. */
    ghost predicate Backed() {
      && (forall i | i in cache && i < |d.pages| ::
            && (cache[i].cls == Read ==> d.pages[i] == Meta(cache[i].content))
            && (cache[i].cls == Dirty ==> d.pages[i].Meta?))
      && (forall i | i in diverted && i < |d.pages| :: d.pages[i].Meta?)
      && (forall i {:trigger diverted[i]} | i in diverted && diverted[i] !in cache && diverted[i] < |d.pages| ::
          d.pages[diverted[i]].Meta?)
    }

    /** No committed page outside `newIds` was touched, nor will a crash touch it outside `loose`. */
    ghost predicate Isolated() {
      && |base| <= |d.pages|
      && (forall i | 0 <= i < |base| && i !in newIds && i < |d.pages| :: d.pages[i] == base[i])
      && (forall i | 0 <= i < |base| && i !in newIds && i !in loose && i < |d.flushed| :: d.flushed[i] == base[i])
      && (forall w | w in d.unflushed && w.0 < |base| :: w.0 in newIds || w.0 in loose)
    }

    ghost predicate Valid() {
      Sound(d) && Ordered() && Backed() && Isolated() && NoLogs(d)
    }

    /** Only the cache itself knows the places pages were diverted to. */
    ghost predicate Secret(id: nat) {
      exists i :: i in diverted && diverted[i] == id
    }

    /** Page `id` exists and nobody uses it. */
    ghost predicate Unused(id: nat) {
      id < |d.pages| && id !in cache && id !in diverted && id !in newIds && id !in free
    }
  }

  ghost predicate NoLogs(d: State) {
    && (forall p | p in d.pages :: !p.Log?)
    && (forall p | p in d.flushed :: !p.Log?)
    && (forall w | w in d.unflushed :: !w.1.Log?)
  }

  /** Every page in use still shows what it showed, pinned pages are still in memory, and only
      pages nobody used before were taken. */
  ghost predicate Keeps(s: Snapshot, t: Snapshot, except: set<nat>) {
    && |s.d.pages| <= |t.d.pages| && s.newIds <= t.newIds && t.base == s.base && t.loose == s.loose
    && t.free <= s.free && (forall i | i in s.diverted :: i in t.diverted && t.diverted[i] == s.diverted[i])
    && (forall i: nat {:trigger s.View(i)} {:trigger t.View(i)} | i < |s.d.pages| && i !in except
        && (i in t.newIds ==> i in s.newIds) :: t.View(i) == s.View(i))
    && (forall i | i in t.newIds && i !in s.newIds :: i in except || i in s.free || i >= |s.d.pages|)
    && (forall i | i in s.cache && s.cache[i].pins > 0 && i !in except :: i in t.cache && Same(s.cache[i], t.cache[i]))
    && NoNewSecrets(s, t)
  }

  /** A page that a client may know does not become a place of the cache's own. */
  ghost predicate NoNewSecrets(s: Snapshot, t: Snapshot) {
    forall i: nat | i < |s.d.pages| && i !in s.free && !s.Secret(i) :: !t.Secret(i)
  }

  /** A page that nobody uses stays so, unless it is asked for. */
  ghost predicate StaysUnused(s: Snapshot, t: Snapshot, except: set<nat>) {
    forall i: nat | s.Unused(i) && i !in except :: t.Unused(i)
  }

  lemma UnusedStill(s: Snapshot, t: Snapshot, id: nat)
    requires t.cache.Keys <= s.cache.Keys + {id} && |s.d.pages| <= |t.d.pages|
    requires t.diverted == s.diverted && t.newIds == s.newIds && t.free == s.free
    ensures StaysUnused(s, t, {id}) && (t.cache.Keys <= s.cache.Keys ==> StaysUnused(s, t, {}))
  {
  }

  lemma UnusedThrough(s: Snapshot, t: Snapshot, u: Snapshot, except: set<nat>)
    requires StaysUnused(s, t, except) && StaysUnused(t, u, {})
    ensures StaysUnused(s, u, except)
  {
    hide Snapshot.Unused;
  }

  /** The page loaded or written may have been unused, but not the place it was diverted to. */
  lemma UnusedPlace(s: Snapshot, t: Snapshot, id: nat)
    requires s.Ordered() && StaysUnused(s, t, {s.At(id)})
    ensures StaysUnused(s, t, {id})
  {
    if id in s.diverted {
      assert s.diverted[id] in s.newIds;
    }
  }

  predicate Same(a: CachedPage, b: CachedPage) {
    b.content == a.content && b.cls == a.cls && b.pins >= a.pins
  }

  /** Two runs make one that may write what either of them may write. */
  lemma KeepsBoth(s: Snapshot, t: Snapshot, u: Snapshot, except: set<nat>, more: set<nat>)
    requires Keeps(s, t, except) && Keeps(t, u, more)
    ensures Keeps(s, u, except + more)
  {
    hide Snapshot.View, Snapshot.Secret;
  }

  lemma KeepsTrans(s: Snapshot, t: Snapshot, u: Snapshot, except: set<nat>)
    requires Keeps(s, t, except) && Keeps(t, u, {})
    ensures Keeps(s, u, except)
  {
    hide Keeps;
    KeepsBoth(s, t, u, except, {});
    assert except + {} == except;
  }

  lemma KeepsSize(s: Snapshot, t: Snapshot, except: set<nat>)
    requires Keeps(s, t, except)
    ensures |s.d.pages| <= |t.d.pages| && t.free <= s.free
  {
  }

  lemma KeepsMore(s: Snapshot, t: Snapshot, except: set<nat>, more: set<nat>)
    requires Keeps(s, t, except) && except <= more
    ensures Keeps(s, t, more)
  {
    hide Snapshot.View, Snapshot.Secret;
  }

  /** New pages come from the allocator or from growing the file. */
  lemma NewComeFrom(s: Snapshot, t: Snapshot)
    requires Keeps(s, t, {})
    ensures forall i | i in t.newIds && i !in s.newIds :: i in s.free || i >= |s.d.pages|
  {
  }

  /** A page with contents is in memory or in the file. */
  lemma Viewed(s: Snapshot, id: nat)
    requires s.Valid() && s.View(id).Meta?
    ensures id < |s.d.pages| && s.At(id) < |s.d.pages| && (s.At(id) in s.cache || s.d.pages[s.At(id)].Meta?)
  {
  }

  lemma KeepsRefl(s: Snapshot)
    ensures Keeps(s, s, {})
  {
  }

  lemma InFile(s: Snapshot, k: nat)
    requires s.Valid() && k in s.cache
    ensures k < |s.d.pages| && Sound(s.d)
  {
  }

  lemma TakenKeeps(s: Snapshot, id: nat)
    requires s.Valid() && id in s.free
    ensures s.(free := s.free - {id}).Valid() && s.(free := s.free - {id}).Unused(id)
    ensures Keeps(s, s.(free := s.free - {id}), {})
  {
    var t := s.(free := s.free - {id});
    assert t.Ordered();
    assert t.Backed();
    assert t.Isolated();
  }

  lemma UnusedInFile(s: Snapshot, id: nat)
    requires s.Unused(id)
    ensures id < |s.d.pages|
  {
  }

  ghost function Grown(s: Snapshot): Snapshot
    requires Sound(s.d)
  {
    s.(d := Apply(s.d, Grow(1)))
  }

  lemma GrownKeeps(s: Snapshot)
    requires s.Valid()
    ensures Grown(s).Valid() && Grown(s).Unused(|s.d.pages|) && Keeps(s, Grown(s), {})
  {
    hide Snapshot.View, Snapshot.Ordered, Snapshot.Backed, Snapshot.Isolated, NoLogs;
    ApplyValid(s.d, Grow(1));
    GrownOrdered(s);
    GrownBacked(s);
    GrownPages(s);
    GrownViews(s);
  }

  lemma GrownOrdered(s: Snapshot)
    requires Sound(s.d) && s.Ordered()
    ensures Grown(s).Ordered() && Grown(s).Unused(|s.d.pages|)
  {
    hide Sound;
  }

  lemma GrownBacked(s: Snapshot)
    requires Sound(s.d) && s.Ordered() && s.Backed()
    ensures Grown(s).Backed()
  {
    hide Sound;
    var t := Grown(s);
    forall i {:trigger t.diverted[i]} | i in t.diverted && t.diverted[i] !in t.cache && t.diverted[i] < |t.d.pages|
      ensures t.d.pages[t.diverted[i]].Meta?
    {
      assert s.diverted[i] in s.newIds;
    }
  }

  lemma GrownPages(s: Snapshot)
    requires Sound(s.d) && s.Isolated() && NoLogs(s.d)
    ensures Grown(s).Isolated() && NoLogs(Grown(s).d)
  {
    var t := Grown(s);
    forall p | p in t.d.pages + t.d.flushed ensures !p.Log? {
      assert p in s.d.pages || p in s.d.flushed || p == BLANK;
    }
  }

  lemma GrownViews(s: Snapshot)
    requires Sound(s.d)
    ensures forall i: nat {:trigger s.View(i)} {:trigger Grown(s).View(i)} | i < |s.d.pages| ::
              Grown(s).View(i) == s.View(i)
  {
    hide Sound;
  }

  function Without(cache: PageCache, k: nat): PageCache {
    map i | i in cache && i != k :: cache[i]
  }

  function Beside(cache: PageCache, gone: set<nat>): PageCache {
    map i | i in cache && i !in gone :: cache[i]
  }

  lemma BesideNone(cache: PageCache)
    ensures Beside(cache, {}) == cache
  {
  }

  lemma BesideIs(cache: PageCache, gone: set<nat>)
    ensures Beside(cache, gone) == map i | i in cache && i !in gone :: cache[i]
  {
  }

  lemma BesideMore(cache: PageCache, gone: set<nat>, k: nat)
    requires k in cache && k !in gone
    ensures k in Beside(cache, gone) && Beside(cache, gone)[k] == cache[k]
    ensures Without(Beside(cache, gone), k) == Beside(cache, gone + {k})
  {
  }

  /** Evicting a dirty page: its contents go to an unused page, where it will be found from now on. */
  ghost function Diverted(s: Snapshot, k: nat, id: nat): Snapshot
    requires Sound(s.d) && k in s.cache && id < |s.d.pages|
  {
    s.(d := Apply(s.d, Write(id, Meta(s.cache[k].content))), cache := Without(s.cache, k),
       diverted := s.diverted[k := id],
       newIds := s.newIds + {id})
  }

  lemma WriteMetaKeeps(d: State, id: nat, content: nat)
    requires Sound(d) && NoLogs(d) && id < |d.pages|
    ensures var e := Apply(d, Write(id, Meta(content))); Sound(e) && NoLogs(e)
  {
    ApplyValid(d, Write(id, Meta(content)));
    var e := Apply(d, Write(id, Meta(content)));
    forall p | p in e.pages ensures !p.Log? {
      assert p in d.pages || p == Meta(content);
    }
  }

  lemma DivertedOrdered(s: Snapshot, k: nat, id: nat)
    requires s.Ordered() && Sound(s.d) && k in s.cache && s.cache[k].cls == Dirty && s.Unused(id)
    ensures Diverted(s, k, id).Ordered()
  {
    forall i | i in s.diverted ensures s.diverted[i] != id && s.diverted[i] != k {
      assert s.diverted[i] in s.newIds;
    }
  }

  lemma DivertedBacked(s: Snapshot, k: nat, id: nat)
    requires s.Ordered() && s.Backed() && Sound(s.d) && k in s.cache && s.cache[k].cls == Dirty && s.Unused(id)
    ensures Diverted(s, k, id).Backed()
  {
    hide Sound;
    var t := Diverted(s, k, id);
    forall i | i in t.diverted && t.diverted[i] !in t.cache && t.diverted[i] < |t.d.pages|
      ensures t.d.pages[t.diverted[i]].Meta?
    {
      assert i == k || (s.diverted[i] in s.newIds && s.diverted[i] != k);
    }
  }

  lemma DivertedIsolated(s: Snapshot, k: nat, id: nat)
    requires s.Isolated() && Sound(s.d) && k in s.cache && id < |s.d.pages|
    ensures Diverted(s, k, id).Isolated()
  {
  }

  lemma DivertedValid(s: Snapshot, k: nat, id: nat)
    requires s.Valid() && k in s.cache && s.cache[k].cls == Dirty && s.Unused(id)
    ensures Diverted(s, k, id).Valid()
  {
    hide Snapshot.Ordered, Snapshot.Backed, Snapshot.Isolated, NoLogs;
    WriteMetaKeeps(s.d, id, s.cache[k].content);
    DivertedOrdered(s, k, id);
    DivertedBacked(s, k, id);
    DivertedIsolated(s, k, id);
  }

  lemma DivertedSecrets(r: Snapshot, s: Snapshot, k: nat, id: nat)
    requires Sound(s.d) && k in s.cache && id < |s.d.pages| && r.diverted == s.diverted
    requires (id in r.free || id >= |r.d.pages|)
    ensures NoNewSecrets(r, Diverted(s, k, id))
  {
    forall i: nat | i < |r.d.pages| && i !in r.free && !r.Secret(i) ensures !Diverted(s, k, id).Secret(i) {
      assert forall j | j in r.diverted :: r.diverted[j] != i;
    }
  }

  lemma SecretsThrough(r: Snapshot, s: Snapshot, t: Snapshot)
    requires NoNewSecrets(r, s) && t.diverted == s.diverted
    ensures NoNewSecrets(r, t)
  {
  }

  lemma DivertedView(s: Snapshot, k: nat, id: nat, i: nat)
    requires Sound(s.d) && s.Ordered() && k in s.cache && s.cache[k].cls == Dirty && s.Unused(id) && i < |s.d.pages|
    requires i != id
    ensures Diverted(s, k, id).View(i) == s.View(i)
  {
    hide Sound;
    if i in s.diverted {
      assert s.diverted[i] in s.newIds;
    }
  }

  lemma CachedHere(s: Snapshot, k: nat)
    requires s.Ordered() && k in s.cache
    ensures k !in s.diverted
  {
  }

  /** `s` is `r` after a page was allocated. */
  lemma DivertedKeeps(r: Snapshot, s: Snapshot, k: nat, id: nat)
    requires r.Valid() && s.Valid() && Keeps(r, s, {}) && r.cache == s.cache && r.diverted == s.diverted
    requires r.newIds == s.newIds && (id in r.free || id >= |r.d.pages|)
    requires k in s.cache && s.cache[k].cls == Dirty && s.cache[k].pins == 0 && s.Unused(id)
    ensures Keeps(r, Diverted(s, k, id), {})
  {
    hide Snapshot.Isolated, Snapshot.Backed, Snapshot.Ordered, Snapshot.View, NoLogs, Sound, NoNewSecrets;
    DivertedSecrets(r, s, k, id);
    CachedHere(s, k);
    var t := Diverted(s, k, id);
    forall i: nat | i < |r.d.pages| && (i in t.newIds ==> i in r.newIds) ensures t.View(i) == r.View(i) {
      assert s.View(i) == r.View(i);
      DivertedView(s, k, id, i);
    }
  }

  /** Evicting a new page: its contents go to its own place in the file. */
  ghost function WrittenOut(s: Snapshot, k: nat): Snapshot
    requires Sound(s.d) && k in s.cache && k < |s.d.pages|
  {
    s.(d := Apply(s.d, Write(k, Meta(s.cache[k].content))), cache := Without(s.cache, k))
  }

  lemma WrittenOutKeeps(s: Snapshot, k: nat)
    requires s.Valid() && k in s.cache && s.cache[k].cls == New && s.cache[k].pins == 0
    ensures WrittenOut(s, k).Valid() && Keeps(s, WrittenOut(s, k), {})
  {
    hide Snapshot.Backed, NoLogs, Snapshot.Isolated, Snapshot.Ordered, Sound, Keeps;
    KeptInFile(s, k);
    WriteMetaKeeps(s.d, k, s.cache[k].content);
    WrittenOutOrdered(s, k);
    WrittenOutBacked(s, k);
    WrittenOutIsolated(s, k);
    WrittenOutShows(s, k);
  }

  lemma KeptInFile(s: Snapshot, k: nat)
    requires s.Ordered() && k in s.cache
    ensures k < |s.d.pages|
  {
  }

  lemma WrittenOutOrdered(s: Snapshot, k: nat)
    requires s.Ordered() && Sound(s.d) && k in s.cache
    ensures WrittenOut(s, k).Ordered()
  {
    hide Sound;
  }

  lemma WrittenOutShows(s: Snapshot, k: nat)
    requires s.Ordered() && Sound(s.d) && k in s.cache && s.cache[k].pins == 0
    ensures Keeps(s, WrittenOut(s, k), {})
  {
    hide Sound, Snapshot.Secret;
    var t := WrittenOut(s, k);
    forall i: nat | i < |s.d.pages| ensures t.View(i) == s.View(i) {
    }
    forall i: nat | i < |s.d.pages| && !s.Secret(i) ensures !t.Secret(i) {
      SecretSame(s, t, i);
    }
  }

  lemma SecretSame(s: Snapshot, t: Snapshot, id: nat)
    requires t.diverted == s.diverted
    ensures t.Secret(id) <==> s.Secret(id)
  {
  }

  lemma WrittenOutIsolated(s: Snapshot, k: nat)
    requires s.Isolated() && s.Ordered() && Sound(s.d) && k in s.cache && s.cache[k].cls == New
    ensures WrittenOut(s, k).Isolated()
  {
  }

  lemma WrittenOutBacked(s: Snapshot, k: nat)
    requires Sound(s.d) && s.Backed() && s.Ordered() && k in s.cache && s.cache[k].cls == New
    ensures WrittenOut(s, k).Backed()
  {
    hide Sound;
    var t := WrittenOut(s, k);
    forall i | i in t.diverted && t.diverted[i] !in t.cache && t.diverted[i] < |t.d.pages|
      ensures t.d.pages[t.diverted[i]].Meta?
    {
      assert t.diverted[i] != k ==> s.diverted[i] !in s.cache;
    }
  }

  ghost function Dropped(s: Snapshot, k: nat): Snapshot {
    s.(cache := Without(s.cache, k))
  }

  lemma DroppedKeeps(s: Snapshot, k: nat)
    requires s.Valid() && k in s.cache && s.cache[k].cls == Read && s.cache[k].pins == 0
    ensures Dropped(s, k).Valid() && Keeps(s, Dropped(s, k), {})
  {
    hide Snapshot.Backed, Snapshot.Isolated, NoLogs, Sound;
    DroppedBacked(s, k);
    DroppedIsolated(s, k);
  }

  lemma DroppedIsolated(s: Snapshot, k: nat)
    requires s.Isolated()
    ensures Dropped(s, k).Isolated()
  {
  }

  lemma DroppedBacked(s: Snapshot, k: nat)
    requires s.Ordered() && s.Backed() && k in s.cache && s.cache[k].cls == Read
    ensures Dropped(s, k).Backed() && k < |s.d.pages| && s.d.pages[k] == Meta(s.cache[k].content)
  {
    var t := Dropped(s, k);
    forall i | i in t.diverted && t.diverted[i] !in t.cache && t.diverted[i] < |t.d.pages|
      ensures t.d.pages[t.diverted[i]].Meta?
    {
      assert t.diverted[i] !in s.cache || t.diverted[i] == k;
    }
  }

  lemma DivertedUnused(r: Snapshot, s: Snapshot, k: nat, id: nat)
    requires Sound(s.d) && k in s.cache && s.Unused(id) && s.cache == r.cache && s.diverted == r.diverted
    requires s.newIds == r.newIds && s.free <= r.free && |r.d.pages| <= |s.d.pages|
    requires id in r.free || id >= |r.d.pages|
    ensures StaysUnused(r, Diverted(s, k, id), {})
  {
    hide Sound;
  }

  /** All that one diverted page needs. */
  /** A page from the allocator or a new one is written. */
  lemma AllocatedWrites(was: State, r: Snapshot, s: Snapshot, free: set<nat>, id: nat, page: Page)
    requires WritesOnly(was, r.d, free) && Sound(r.d) && Sound(s.d) && r.free <= free && id < |s.d.pages|
    requires if r.free != {} then id in r.free else id == |r.d.pages|
    requires s == if r.free != {} then r.(free := r.free - {id}) else Grown(r)
    ensures WritesOnly(was, Apply(s.d, Write(id, page)), free)
  {
    hide WritesOnly, Sound;
    if r.free == {} {
      GrowsOne(was, r.d, free);
      WritesSize(was, r.d, free);
    }
    WritesOne(was, s.d, free, id, page);
  }

  lemma WritesSize(was: State, now: State, ids: set<nat>)
    requires WritesOnly(was, now, ids)
    ensures |was.pages| <= |now.pages|
  {
  }

  lemma DivertedAll(r: Snapshot, s: Snapshot, k: nat, id: nat)
    requires r.Valid() && s.Valid() && Keeps(r, s, {}) && r.cache == s.cache && r.diverted == s.diverted
    requires r.newIds == s.newIds && (id in r.free || id >= |r.d.pages|)
    requires k in s.cache && s.cache[k].cls == Dirty && s.cache[k].pins == 0 && s.Unused(id) && id < |s.d.pages|
    ensures Sound(s.d) && Diverted(s, k, id).Valid()
    ensures Keeps(r, Diverted(s, k, id), {}) && StaysUnused(r, Diverted(s, k, id), {})
  {
    hide Keeps, StaysUnused, Snapshot.Unused, Sound, Snapshot.Ordered, Snapshot.Backed, Snapshot.Isolated, NoLogs;
    DivertedValid(s, k, id);
    DivertedKeeps(r, s, k, id);
    KeepsSize(r, s, {});
    DivertedUnused(r, s, k, id);
  }

  function Usual(s: Snapshot, at: nat): PageClass {
    if at in s.newIds then New else Dirty
  }

  function Put(s: Snapshot, at: nat, page: CachedPage): Snapshot {
    s.(cache := s.cache[at := page])
  }

  function AsNew(s: Snapshot, id: nat, raw: nat): Snapshot {
    Put(s, id, CachedPage(raw, New, 1, 0)).(newIds := s.newIds + {id})
  }

  lemma AsNewValid(s: Snapshot, id: nat, raw: nat)
    requires s.Valid() && s.Unused(id)
    ensures AsNew(s, id, raw).Valid() && AsNew(s, id, raw).View(id) == Meta(raw) && !AsNew(s, id, raw).Secret(id)
  {
    var t := AsNew(s, id, raw);
    forall i | i in s.diverted ensures s.diverted[i] != id {
      assert s.diverted[i] in s.newIds;
    }
    assert t.Ordered();
    assert t.Backed();
    assert t.Isolated();
  }

  /** A page from the allocator, or a new one, was not one that nobody used. */
  lemma NewUnused(s: Snapshot, mid: Snapshot, t: Snapshot, id: nat)
    requires s.Valid() && (if s.free != {} then id in s.free && mid == s.(free := s.free - {id})
                           else id == |s.d.pages| && mid == Grown(s))
    requires StaysUnused(mid, t, {id})
    ensures StaysUnused(s, t, {})
  {
    hide Snapshot.Ordered, Snapshot.Backed, Snapshot.Isolated, NoLogs, Sound;
  }

  lemma AsNewUnused(s: Snapshot, id: nat, raw: nat)
    ensures StaysUnused(s, AsNew(s, id, raw), {id})
  {
  }

  lemma AsNewKeeps(r: Snapshot, s: Snapshot, id: nat, raw: nat)
    requires s.Valid() && Keeps(r, s, {}) && s.Unused(id)
    ensures Keeps(r, AsNew(s, id, raw), {id})
  {
    hide NoNewSecrets, Snapshot.Backed, Snapshot.Isolated, NoLogs, Sound;
    SecretsThrough(r, s, AsNew(s, id, raw));
    var t := AsNew(s, id, raw);
    forall i: nat | i < |r.d.pages| && i != id && (i in t.newIds ==> i in r.newIds) ensures t.View(i) == r.View(i) {
      assert s.View(i) == r.View(i);
      if i in s.diverted {
        assert s.diverted[i] in s.newIds;
      }
    }
  }

  /** Where an id leads is neither free nor diverted itself. */
  lemma AtIsPlace(s: Snapshot, id: nat)
    requires s.Valid() && id !in s.free
    ensures s.At(id) !in s.diverted && s.At(id) !in s.free
    ensures s.At(id) < |s.d.pages| || (s.At(id) == id && id >= |s.d.pages|)
  {
    if id in s.diverted {
      assert s.diverted[id] in s.newIds;
    }
  }

  lemma PutOrdered(s: Snapshot, at: nat, page: CachedPage)
    requires s.Ordered() && at < |s.d.pages| && at !in s.diverted && at !in s.free
    requires (page.cls == New ==> at in s.newIds) && (page.cls == Dirty ==> at !in s.newIds)
    ensures Put(s, at, page).Ordered()
  {
  }

  lemma PutBacked(s: Snapshot, at: nat, page: CachedPage)
    requires s.Backed() && at < |s.d.pages|
    requires page.cls == Read ==> s.d.pages[at] == Meta(page.content)
    requires page.cls == Dirty ==> s.d.pages[at].Meta?
    ensures Put(s, at, page).Backed()
  {
  }

  lemma PutIsolated(s: Snapshot, at: nat, page: CachedPage)
    requires s.Isolated()
    ensures Put(s, at, page).Isolated()
  {
  }

  lemma PutViews(s: Snapshot, at: nat, page: CachedPage)
    requires at < |s.d.pages|
    requires if at in s.cache then s.cache[at].content == page.content else s.d.pages[at] == Meta(page.content)
    ensures forall i: nat {:trigger s.View(i)} | i < |s.d.pages| :: Put(s, at, page).View(i) == s.View(i)
  {
  }

  /** Reading a page in, pinning it, or changing its class shows the same to everyone. */
  lemma PutKeeps(s: Snapshot, id: nat, page: CachedPage)
    requires s.Valid() && id !in s.free && s.At(id) < |s.d.pages| && page.pins > 0
    requires s.At(id) !in s.cache ==> page.cls == Read && s.d.pages[s.At(id)] == Meta(page.content)
    requires s.At(id) in s.cache ==> s.cache[s.At(id)].content == page.content
    requires s.At(id) in s.cache ==> page.cls == s.cache[s.At(id)].cls || page.cls == Usual(s, s.At(id))
    ensures Put(s, s.At(id), page).Valid() && Keeps(s, Put(s, s.At(id), page), {s.At(id)})
    ensures forall i: nat {:trigger s.View(i)} | i < |s.d.pages| :: Put(s, s.At(id), page).View(i) == s.View(i)
  {
    hide Snapshot.Backed, Snapshot.Isolated, NoLogs, Sound;
    var at := s.At(id);
    AtIsPlace(s, id);
    PutClass(s, at, page);
    PutOrdered(s, at, page);
    PutBacked(s, at, page);
    PutIsolated(s, at, page);
    PutViews(s, at, page);
  }

  lemma PutClass(s: Snapshot, at: nat, page: CachedPage)
    requires s.Ordered() && s.Backed() && at < |s.d.pages|
    requires if at in s.cache then page.content == s.cache[at].content
             && (page.cls == s.cache[at].cls || page.cls == Usual(s, at))
             else page.cls == Read && s.d.pages[at] == Meta(page.content)
    ensures (page.cls == New ==> at in s.newIds) && (page.cls == Dirty ==> at !in s.newIds && s.d.pages[at].Meta?)
    ensures page.cls == Read ==> s.d.pages[at] == Meta(page.content)
  {
  }

  lemma PutUnused(s: Snapshot, id: nat, page: CachedPage)
    requires s.Valid()
    ensures StaysUnused(s, Put(s, s.At(id), page), {id})
  {
    hide StaysUnused, Snapshot.Unused, Snapshot.Backed, Snapshot.Isolated, NoLogs, Sound;
    UnusedStill(s, Put(s, s.At(id), page), s.At(id));
    UnusedPlace(s, Put(s, s.At(id), page), id);
  }

  /** One page leaves the cache `was`; what was written out before is not in the snapshot any more. */
  lemma DropOne(victims: set<nat>, r: Snapshot, s: Snapshot, was: PageCache, k: nat) returns (t: Snapshot)
    requires s.Valid() && Keeps(r, s, {}) && k in victims && k in was && was[k].pins == 0
    requires s.cache == map i | i in was && !(i in victims && was[i].cls != Read) :: was[i]
    ensures t == s.(cache := t.cache) && t.Valid() && Keeps(r, t, {})
    ensures t.cache == map i | i in Without(was, k) && !(i in victims && was[i].cls != Read) :: was[i]
  {
    hide Keeps, Snapshot.Valid;
    t := s;
    if was[k].cls == Read {
      DroppedKeeps(s, k);
      KeepsTrans(r, s, Dropped(s, k), {});
      t := Dropped(s, k);
    }
  }

  lemma LoadKeeps(s: Snapshot, id: nat, page: CachedPage)
    requires s.Valid() && id !in s.free && s.At(id) < |s.d.pages| && page.pins > 0
    requires s.At(id) !in s.cache ==> page.cls == Read && s.d.pages[s.At(id)] == Meta(page.content)
    requires s.At(id) in s.cache ==> Same(s.cache[s.At(id)], page)
    ensures Put(s, s.At(id), page).Valid() && Keeps(s, Put(s, s.At(id), page), {})
    ensures Put(s, s.At(id), page).View(id) == s.View(id) == Meta(page.content)
  {
    PutKeeps(s, id, page);
    assert Put(s, s.At(id), page).View(id) == s.View(id);
  }

  /** A page that is pinned stays where it is, whatever is evicted. */
  lemma PinnedStays(s: Snapshot, t: Snapshot, id: nat)
    requires s.Valid() && t.Valid() && Keeps(s, t, {}) && id !in s.free
    requires s.At(id) in s.cache && s.cache[s.At(id)].pins > 0
    ensures t.At(id) == s.At(id) && s.At(id) in t.cache && Same(s.cache[s.At(id)], t.cache[s.At(id)])
    ensures t.View(id) == s.View(id)
  {
    AtIsPlace(s, id);
    assert s.At(id) in t.cache;
    if id !in s.diverted {
      assert id !in t.diverted;
    }
  }

  lemma NewStays(s: Snapshot, t: Snapshot, id: nat)
    requires s.Valid() && Keeps(s, t, {}) && id in s.cache && s.cache[id].pins > 0 && id in s.newIds && !s.Secret(id)
    ensures t.View(id) == s.View(id) && id in t.newIds && !t.Secret(id) && id in t.cache
    ensures Same(s.cache[id], t.cache[id])
  {
    hide Snapshot.View, Snapshot.Secret;
  }

  /** A page gets other contents: a client writes to it, or its old contents are given up. */
  lemma OverwriteKeeps(s: Snapshot, id: nat, page: CachedPage)
    requires s.Valid() && id !in s.free && s.At(id) < |s.d.pages| && page.pins > 0
    requires !s.Secret(id)
    requires page.cls == Usual(s, s.At(id)) && (s.At(id) in s.cache || s.d.pages[s.At(id)].Meta?)
    ensures Put(s, s.At(id), page).Valid() && Keeps(s, Put(s, s.At(id), page), {id, s.At(id)})
    ensures Put(s, s.At(id), page).View(id) == Meta(page.content)
  {
    hide Snapshot.Backed, Snapshot.Isolated, Snapshot.Ordered, NoLogs, Sound, Keeps, Snapshot.Secret;
    var at := s.At(id);
    AtIsPlace(s, id);
    CachedBacked(s, at);
    PutIsolated(s, at, page);
    PutOrdered(s, at, page);
    PutBacked(s, at, page);
    OverwriteShows(s, id, page);
  }

  lemma OverwriteShows(s: Snapshot, id: nat, page: CachedPage)
    requires s.Ordered() && id !in s.free && page.pins > 0 && !s.Secret(id)
    ensures Keeps(s, Put(s, s.At(id), page), {id, s.At(id)})
  {
    var at := s.At(id);
    var t := Put(s, at, page);
    forall i: nat | i < |s.d.pages| && i != id && i != at ensures t.View(i) == s.View(i) {
      if i in s.diverted {
        assert s.diverted[i] in s.newIds;
      }
    }
    forall i: nat | i < |s.d.pages| && !s.Secret(i) ensures !t.Secret(i) {
      SecretSame(s, t, i);
    }
  }

  lemma ClassIs(s: Snapshot, k: nat)
    requires s.Valid() && k in s.cache && s.cache[k].cls != Read
    ensures s.cache[k].cls == Usual(s, k)
  {
  }

  lemma CachedBacked(s: Snapshot, at: nat)
    requires s.Ordered() && s.Backed() && at < |s.d.pages| && (at in s.cache || s.d.pages[at].Meta?)
    ensures at !in s.newIds ==> s.d.pages[at].Meta?
  {
  }

  class CacheManager {
    const file: PageFile
    var cache: PageCache
    var diverted: map<nat, nat>
    var newIds: set<nat>
    var free: set<nat>
    const maxCachedPages: nat
    ghost var base: seq<Page>
    ghost var loose: set<nat>

    ghost function Now(): Snapshot
      reads this, file
    {
      Snapshot(file.disk, cache, diverted, newIds, free, base, loose)
    }

    ghost predicate Valid()
      reads this, file
    {
      file.Valid() && Now().Valid()
    }

    constructor (file: PageFile, maxPages: nat)
      requires file.Valid() && NoLogs(file.disk) && file.disk.unflushed == {}
      ensures Valid() && this.file == file && maxCachedPages == maxPages
      ensures cache == map[] && diverted == map[] && newIds == free == loose == {} && base == file.pages
    {
      this.file, maxCachedPages := file, maxPages;
      cache, diverted, newIds, free := map[], map[], {}, {};
      base, loose := file.pages, {};
    }

    /** Installs a page allocator that owns the pages `pages`. */
    method SetPageAllocator(pages: set<nat>)
      requires Valid() && (forall i | i in pages :: i < |file.pages|)
      requires forall i | i in pages :: i !in cache && i !in diverted && i !in newIds
      modifies this`free
      ensures Valid() && Now() == old(Now()).(free := pages)
    {
      free := pages;
    }

    /** A page from the allocator, or from growing the file once the allocator has none left. While
        pages are being evicted, `s` is the state in which those already written have left the cache. */
    method AllocateFor(ghost s: Snapshot) returns (id: nat, ghost t: Snapshot)
      requires file.Valid() && s == Now().(cache := s.cache) && s.Valid()
      modifies this`free, file
      ensures file.Valid() && t == Now().(cache := s.cache) && t.Valid() && t.Unused(id) && Keeps(s, t, {})
      ensures id < |t.d.pages|
      ensures if s.free != {} then id in s.free else id == |s.d.pages|
      ensures t == if s.free != {} then s.(free := s.free - {id}) else Grown(s)
    {
      hide Keeps, Snapshot.Valid, Snapshot.Unused, Apply, ApplyAll, LegalAll, Sound;
      if free != {} {
        id :| id in free;
        TakenKeeps(s, id);
        UnusedInFile(s.(free := s.free - {id}), id);
        free := free - {id};
        t := s.(free := free);
      } else {
        GrownKeeps(s);
        UnusedInFile(Grown(s), |s.d.pages|);
        id := file.NewInterval(1);
        t := Grown(s);
      }
    }

    method AllocatePageFromFile() returns (id: nat)
      requires Valid()
      modifies this`free, file
      ensures Valid() && Now().Unused(id) && Keeps(old(Now()), Now(), {})
      ensures if old(free) != {} then id in old(free) else id == old(|file.pages|)
      ensures Now() == if old(free) != {} then old(Now()).(free := old(free) - {id}) else Grown(old(Now()))
    {
      ghost var t;
      id, t := AllocateFor(Now());
    }

    /** `raw` is whatever the memory of the page buffer held. */
    method NewPage(raw: nat) returns (id: nat)
      requires Valid()
      modifies this, file
      ensures Valid() && Keeps(old(Now()), Now(), {id}) && (id in old(free) || id == old(|file.pages|))
      ensures id in newIds && id !in old(newIds) && Now().View(id) == Meta(raw) && !Now().Secret(id)
      ensures id in cache && Same(CachedPage(raw, New, 1, 0), cache[id]) && StaysUnused(old(Now()), Now(), {})
      ensures Checked(old(cache)[id := CachedPage(raw, New, 1, 0)], cache, maxCachedPages)
    {
      hide Keeps, Snapshot.Valid, Snapshot.View, Snapshot.Secret, PageFile.Valid;
      SameFile(this);
      id := AllocatePageFromFile();
      ghost var mid := Now();
      AsNewPage(id, raw);
      KeepsBoth(old(Now()), mid, Now(), {}, {id});
      NewUnused(old(Now()), mid, Now(), id);
      assert {} + {id} == {id};
    }

    /** The caller vouches that nobody uses page `id`. */
    method AsNewPage(id: nat, raw: nat)
      requires Valid() && Now().Unused(id)
      modifies this, file
      ensures Valid() && Keeps(old(Now()), Now(), {id}) && id in newIds && Now().View(id) == Meta(raw)
      ensures !Now().Secret(id)
      ensures id in cache && Same(CachedPage(raw, New, 1, 0), cache[id]) && StaysUnused(old(Now()), Now(), {id})
      ensures Checked(old(cache)[id := CachedPage(raw, New, 1, 0)], cache, maxCachedPages)
    {
      hide Keeps, Snapshot.Valid, Snapshot.View, Snapshot.Secret, Snapshot.Unused, PageFile.Valid, StaysUnused;
      KeepsRefl(Now());
      AsNewKeeps(Now(), Now(), id, raw);
      AsNewValid(Now(), id, raw);
      cache, newIds := cache[id := CachedPage(raw, New, 1, 0)], newIds + {id};
      ghost var mid := Now();
      assert mid == AsNew(old(Now()), id, raw);
      TrimCheck();
      KeepsTrans(old(Now()), mid, Now(), {id});
      AsNewUnused(old(Now()), id, raw);
      UnusedThrough(old(Now()), mid, Now(), {id});
      NewStays(mid, Now(), id);
    }

    /** `None` is the exception for a page that does not exist or fails its checksum. */
    method LoadPage(origId: nat) returns (r: Option<nat>)
      requires Valid() && origId !in free
      modifies this, file
      ensures Valid() && Keeps(old(Now()), Now(), {})
      ensures r.Some? <==> old(Now().View(origId)).Meta?
      ensures r.None? ==> Now() == old(Now())
      ensures StaysUnused(old(Now()), Now(), {origId})
      ensures r.Some? ==> Now().View(origId) == old(Now().View(origId)) == Meta(r.value)
      ensures r.Some? ==> Now().At(origId) in cache && cache[Now().At(origId)].pins > 0
      ensures var at, was := old(Now().At(origId)), old(cache);
        r.Some? ==>
          if at in was then Now() == old(Now()).(cache := was[at := Used(was[at]).(pins := was[at].pins + 1)])
          else Checked(was[at := CachedPage(r.value, Read, 1, 0)], cache, maxCachedPages)
    {
      hide Checked, Keeps, Snapshot.Valid, Snapshot.Unused, Apply, ApplyAll, LegalAll, Sound, StaysUnused;
      var id := Divert(diverted, origId);
      AtIsPlace(Now(), origId);
      KeepsRefl(Now());
      UnusedStill(Now(), Now(), origId);
      if id !in cache {
        if id >= |file.pages| || !file.pages[id].Meta? {
          return None;
        }
        LoadKeeps(Now(), origId, CachedPage(file.pages[id].content, Read, 1, 0));
        cache := cache[id := CachedPage(file.pages[id].content, Read, 1, 0)];
        r := Some(cache[id].content);
      } else {
        InFile(Now(), id);
        LoadKeeps(Now(), origId, Used(cache[id]).(pins := cache[id].pins + 1));
        cache := cache[id := Used(cache[id]).(pins := cache[id].pins + 1)];
        UnusedStill(old(Now()), Now(), origId);
        return Some(cache[id].content);
      }
      ghost var mid := Now();
      assert mid == Put(old(Now()), id, cache[id]);
      PutUnused(old(Now()), origId, cache[id]);
      TrimCheck();
      KeepsTrans(old(Now()), mid, Now(), {});
      UnusedThrough(old(Now()), mid, Now(), {origId});
      PinnedStays(mid, Now(), origId);
    }

    /** Marks a page that is in memory as changed. Pages of earlier transactions become subject to the
        dirty-page protocol. */
    method SetPageDirty(origId: nat)
      requires Valid() && origId !in free
      requires Now().At(origId) in cache && cache[Now().At(origId)].pins > 0
      modifies this`cache
      ensures Valid() && Keeps(old(Now()), Now(), {Now().At(origId)}) && cache.Keys == old(cache).Keys
      ensures forall i: nat {:trigger Now().View(i)} | i < |file.pages| :: Now().View(i) == old(Now()).View(i)
      ensures var at, was := Now().At(origId), old(cache);
        cache == was[at := was[at].(cls := if at in newIds then New else Dirty)]
    {
      hide Keeps, Snapshot.Valid;
      var id := Divert(diverted, origId);
      AtIsPlace(Now(), origId);
      InFile(Now(), id);
      var page := cache[id].(cls := if id in newIds then New else Dirty);
      PutKeeps(Now(), origId, page);
      cache := cache[id := page];
    }

    /** What a client does through a writable page it holds. */
    method WriteToPage(origId: nat, content: nat)
      requires Valid() && origId !in free && !Now().Secret(origId)
      requires Now().At(origId) in cache && cache[Now().At(origId)].pins > 0 && cache[Now().At(origId)].cls != Read
      modifies this`cache
      ensures Valid() && Keeps(old(Now()), Now(), {origId, Now().At(origId)}) && Now().View(origId) == Meta(content)
      ensures var at, was := Now().At(origId), old(cache); cache == was[at := was[at].(content := content)]
    {
      hide Keeps, Snapshot.Valid, Snapshot.Secret;
      var id := Divert(diverted, origId);
      AtIsPlace(Now(), origId);
      InFile(Now(), id);
      ClassIs(Now(), id);
      var page := cache[id].(content := content);
      OverwriteKeeps(Now(), origId, page);
      cache := cache[id := page];
    }

    /** Like loading a page and marking it as changed, but nothing is read. Meant for pages that were
        written through the cache before, so the file holds a signed page there. */
    method Repurpose(origId: nat, raw: nat)
      requires Valid() && origId !in free && !Now().Secret(origId) && Now().View(origId).Meta?
      modifies this, file
      ensures Valid() && Keeps(old(Now()), Now(), {origId, old(Now().At(origId))})
      ensures Now().View(origId) == if old(Now().At(origId) in cache) then old(Now().View(origId)) else Meta(raw)
      ensures StaysUnused(old(Now()), Now(), {origId})
      ensures forall i | i in newIds && i !in old(newIds) :: i in old(free) || i >= old(|file.pages|)
      ensures var at, was, cls := old(Now().At(origId)), old(cache), old(Usual(Now(), Now().At(origId)));
        if at in was then Now() == old(Now()).(cache := was[at := Used(was[at]).(cls := cls, pins := was[at].pins + 1)])
        else Checked(was[at := CachedPage(raw, cls, 1, 0)], cache, maxCachedPages)
    {
      hide Checked, Keeps, StaysUnused, Snapshot.Valid, Snapshot.View, Snapshot.Secret, PageFile.Valid;
      var id := Divert(diverted, origId);
      AtIsPlace(Now(), origId);
      Viewed(Now(), origId);
      SameFile(this);
      var cls := if id in newIds then New else Dirty;
      if id !in cache {
        var page := CachedPage(raw, cls, 1, 0);
        PutUnused(Now(), origId, page);
        OverwriteKeeps(Now(), origId, page);
        cache := cache[id := page];
        ghost var mid := Now();
        assert mid == Put(old(Now()), id, page);
        TrimCheck();
        KeepsTrans(old(Now()), mid, Now(), {origId, id});
        UnusedThrough(old(Now()), mid, Now(), {origId});
        PinnedStays(mid, Now(), origId);
        NewComeFrom(mid, Now());
      } else {
        var page := Used(cache[id]).(cls := cls, pins := cache[id].pins + 1);
        PutKeeps(Now(), origId, page);
        PutUnused(Now(), origId, page);
        KeepsMore(Now(), Put(Now(), id, page), {id}, {origId, id});
        cache := cache[id := page];
        assert Now() == Put(old(Now()), id, page);
      }
    }

    /** A client lets go of one reference to a page in memory. */
    method Unpin(at: nat)
      requires Valid() && at in cache && cache[at].pins > 0
      modifies this`cache
      ensures Valid() && Now() == old(Put(Now(), at, cache[at].(pins := cache[at].pins - 1)))
      ensures forall i: nat :: Now().View(i) == old(Now()).View(i)
    {
      cache := cache[at := cache[at].(pins := cache[at].pins - 1)];
      assert Now().Ordered();
      assert Now().Backed();
    }

    method TrimCheck()
      requires Valid()
      modifies this, file
      ensures Valid() && Keeps(old(Now()), Now(), {}) && StaysUnused(old(Now()), Now(), {})
      ensures Checked(old(cache), cache, maxCachedPages)
      ensures old(|cache|) <= maxCachedPages ==> Now() == old(Now())
    {
      if |cache| > maxCachedPages {
        var _ := Trim(maxCachedPages / 4 * 3);
      } else {
        KeepsRefl(Now());
        UnusedStill(Now(), Now(), 0);
      }
    }

    /** The page that comes last in the order in which pages are kept. */
    method LastOf(ids: set<nat>) returns (last: nat)
      requires ids != {} && ids <= cache.Keys
      ensures last in ids && forall k | k in ids :: !Rather(cache[last], cache[k])
    {
      last :| last in ids;
      var rest := ids - {last};
      while rest != {}
        invariant last in ids && rest <= ids
        invariant forall k | k in ids && k !in rest :: !Rather(cache[last], cache[k])
        decreases rest
      {
        var k :| k in rest;
        rest := rest - {k};
        if Rather(cache[last], cache[k]) {
          last := k;
        }
      }
    }

    /** The unpinned pages that have to go, so that `maxPages` of them are left. */
    method PickVictims(maxPages: nat) returns (victims: set<nat>)
      ensures victims <= Unpinned(cache) && |Unpinned(cache) - victims| == Least(maxPages, |Unpinned(cache)|)
      ensures forall v, k | v in victims && k in Unpinned(cache) - victims :: !Rather(cache[v], cache[k])
    {
      var unpinned := Unpinned(cache);
      victims := {};
      assert unpinned - victims == unpinned;
      while |unpinned - victims| > maxPages
        invariant victims <= unpinned && |unpinned - victims| >= Least(maxPages, |unpinned|)
        invariant forall v, k | v in victims && k in unpinned - victims :: !Rather(cache[v], cache[k])
        decreases |unpinned - victims|
      {
        var k := LastOf(unpinned - victims);
        assert unpinned - (victims + {k}) == (unpinned - victims) - {k};
        victims := victims + {k};
      }
    }

    /** Evicts unpinned pages so that at most `maxPages` of them are left: those that are written are written to their
        place, and to no other page. */
    method Trim(maxPages: nat) returns (left: nat)
      requires Valid()
      modifies this, file
      ensures Valid() && Keeps(old(Now()), Now(), {}) && left == |cache|
      ensures Trimmed(old(cache), cache, maxPages)
      ensures left == |old(cache)| - |Unpinned(old(cache))| + Least(maxPages, |Unpinned(old(cache))|)
      ensures diverted.Keys == old(diverted).Keys + Gone(old(cache), cache, Dirty)
      ensures WritesOnly(old(file.disk), file.disk, old(free) + Gone(old(cache), cache, New))
      ensures StaysUnused(old(Now()), Now(), {})
    {
      hide Keeps, CacheManager.Valid, StaysUnused, Trimmed, Rather, WritesOnly, Unpinned, Gone;
      var victims := PickVictims(maxPages);
      VictimsIn(cache, victims);
      Evict(victims);
      left := |cache|;
      GoneIs(old(cache), cache, victims, New);
      GoneIs(old(cache), cache, victims, Dirty);
      VictimsLeave(old(cache), cache, victims, maxPages);
      TrimmedSize(old(cache), cache, maxPages);
    }

    /** Changed pages are written, and all of these pages leave the cache. */
    method Evict(victims: set<nat>)
      requires Valid() && forall k | k in victims :: k in cache && cache[k].pins == 0
      modifies this, file
      ensures Valid() && Keeps(old(Now()), Now(), {}) && StaysUnused(old(Now()), Now(), {})
      ensures cache == map k | k in old(cache) && k !in victims :: old(cache)[k]
      ensures diverted.Keys == old(diverted).Keys + Leaving(old(cache), victims, Dirty)
      ensures WritesOnly(old(file.disk), file.disk, old(free) + Leaving(old(cache), victims, New))
    {
      hide Keeps, Snapshot.Valid, PageFile.Valid, StaysUnused, WritesOnly, Leaving;
      ghost var s := EvictDirtyPages(victims);
      ghost var t := EvictNewPages(victims, s);
      KeepsTrans(old(Now()), s, t, {});
      RemoveFromCache(victims, t);
      KeepsTrans(old(Now()), t, Now(), {});
      KeepsSize(s, t, {});
      KeepsSize(t, Now(), {});
      UnusedStill(s, Now(), 0);
      UnusedThrough(old(Now()), s, Now(), {});
      WritesThrough(old(file.disk), s.d, file.disk, old(free), Leaving(old(cache), victims, New));
    }

    /** `s` is the state in which the pages written so far have already left the cache. */
    method EvictDirtyPages(victims: set<nat>) returns (ghost s: Snapshot)
      requires Valid() && forall k | k in victims :: k in cache && cache[k].pins == 0
      modifies this`diverted, this`newIds, this`free, file
      ensures file.Valid() && s == Now().(cache := s.cache) && s.Valid() && Keeps(old(Now()), s, {})
      ensures s.cache == map k | k in cache && !(k in victims && cache[k].cls == Dirty) :: cache[k]
      ensures StaysUnused(old(Now()), s, {})
      ensures diverted.Keys == old(diverted).Keys + Leaving(cache, victims, Dirty)
      ensures WritesOnly(old(file.disk), file.disk, old(free))
    {
      hide WritesOnly, Keeps, Snapshot.Valid, Snapshot.Unused, Apply, ApplyAll, LegalAll, Sound, StaysUnused, Beside;
      var rest := Leaving(cache, victims, Dirty);
      ghost var gone, all: set<nat> := {}, rest;
      s := Now();
      KeepsRefl(s);
      UnusedStill(s, s, 0);
      BesideNone(cache);
      WritesNone(file.disk);
      WritesMore(file.disk, file.disk, {}, free);
      while rest != {}
        invariant file.Valid() && s == Now().(cache := s.cache) && s.Valid() && Keeps(old(Now()), s, {})
        invariant StaysUnused(old(Now()), s, {}) && gone !! rest && gone + rest == all
        invariant diverted.Keys == old(diverted).Keys + gone && free <= old(free)
        invariant WritesOnly(old(file.disk), file.disk, old(free))
        invariant s.cache == Beside(cache, gone)
        decreases rest
      {
        var k :| k in rest;
        rest := rest - {k};
        ghost var r := s;
        var id;
        id, s := AllocateFor(s);
        AllocatedWrites(old(file.disk), r, s, old(free), id, Meta(cache[k].content));
        BesideMore(cache, gone, k);
        gone := gone + {k};
        DivertedAll(r, s, k, id);
        file.WritePage(id, Meta(cache[k].content));
        diverted := diverted[k := id];
        newIds := newIds + {id};
        s := Diverted(s, k, id);
        KeepsTrans(old(Now()), r, s, {});
        UnusedThrough(old(Now()), r, s, {});
      }
      BesideIs(cache, all);
    }

    method EvictNewPages(victims: set<nat>, ghost r: Snapshot) returns (ghost s: Snapshot)
      requires file.Valid() && r == Now().(cache := r.cache) && r.Valid()
      requires forall k | k in victims :: k in cache && cache[k].pins == 0
      requires r.cache == map k | k in cache && !(k in victims && cache[k].cls == Dirty) :: cache[k]
      modifies file
      ensures file.Valid() && s == Now().(cache := s.cache) && s.Valid() && Keeps(r, s, {})
      ensures s.cache == map k | k in cache && !(k in victims && cache[k].cls != Read) :: cache[k]
      ensures WritesOnly(old(file.disk), file.disk, Leaving(cache, victims, New))
    {
      hide WritesOnly, Keeps, Snapshot.Valid, Snapshot.Unused, Apply, ApplyAll, LegalAll, Sound;
      var rest := Leaving(cache, victims, New);
      ghost var all := rest;
      s := r;
      KeepsRefl(s);
      WritesNone(file.disk);
      WritesMore(file.disk, file.disk, {}, all);
      while rest != {}
        invariant file.Valid() && s == Now().(cache := s.cache) && s.Valid() && Keeps(r, s, {})
        invariant forall k | k in rest :: k in victims && cache[k].cls == New
        invariant WritesOnly(old(file.disk), file.disk, all) && rest <= all
        invariant s.cache == map k | k in cache && !(k in victims && cache[k].cls != Read && k !in rest) :: cache[k]
        decreases rest
      {
        var k :| k in rest;
        rest := rest - {k};
        InFile(s, k);
        ghost var t := WrittenOut(s, k);
        WrittenOutKeeps(s, k);
        WritesOne(old(file.disk), file.disk, all, k, Meta(cache[k].content));
        file.WritePage(k, Meta(cache[k].content));
        KeepsTrans(r, s, t, {});
        s := t;
      }
    }

    method RemoveFromCache(victims: set<nat>, ghost r: Snapshot)
      requires file.Valid() && r == Now().(cache := r.cache) && r.Valid()
      requires forall k | k in victims :: k in cache && cache[k].pins == 0
      requires r.cache == map k | k in cache && !(k in victims && cache[k].cls != Read) :: cache[k]
      modifies this`cache
      ensures Valid() && Keeps(r, Now(), {}) && cache == map k | k in old(cache) && k !in victims :: old(cache)[k]
    {
      hide Keeps, Snapshot.Valid, Snapshot.Unused, Apply, ApplyAll, LegalAll, Sound;
      var rest := victims;
      ghost var s := r;
      KeepsRefl(s);
      while rest != {}
        invariant rest <= victims && cache == map k | k in old(cache) && (k in victims ==> k in rest) :: old(cache)[k]
        invariant s == Now().(cache := s.cache) && s.Valid() && Keeps(r, s, {})
        invariant s.cache == map k | k in cache && !(k in victims && cache[k].cls != Read) :: cache[k]
        decreases rest
      {
        var k :| k in rest;
        s := DropOne(victims, r, s, cache, k);
        rest := rest - {k};
        cache := Without(cache, k);
      }
      assert s.cache == cache;
    }
  }

  lemma SameFile(cm: CacheManager)
    requires cm.Valid()
    ensures cm.file.pages == cm.Now().d.pages
  {
  }
}
