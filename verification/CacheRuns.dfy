/** Whole runs of the page cache: any sequence of client operations, commits and rollbacks, with pages evicted,
    moved and read back in between. */
module CacheRuns {
  import opened Basics
  import opened Disk
  import opened Recovery
  import opened CacheManagement
  import opened CommitProtocol
  import opened CommitHandling
  import opened RollbackHandling

  datatype Op =
    | Add(raw: nat)
    | TakeAsNew(id: nat, raw: nat)
    | Load(id: nat)
    | Overwrite(id: nat, content: nat)
    | Reuse(id: nat, raw: nat)
    | Release(id: nat)
    | Evict(maxPages: nat)
    | Publish
    | GiveUp

  /** What comes of an operation. A rollback gives the pages `taken` away that the transaction had taken over. */
  datatype Event =
    | Created(id: nat, content: nat)
    | Wrote(id: nat, content: nat)
    | Loaded(id: nat, r: Option<nat>)
    | Committed(size: nat)
    | GaveUp(taken: set<nat>)
    | Nothing

  /** The pages the client knows, with the contents given to each of them last and those at the last commit, and
      the size of the file then. Since then it has asked for the pages `used`, and made the pages `mine` its own. */
  datatype Known = Known(now: map<nat, Page>, committed: map<nat, Page>, size: nat, used: set<nat>, mine: set<nat>)

  function Start(pages: map<nat, Page>, size: nat): Known {
    Known(pages, pages, size, {}, {})
  }

  function After(k: Known, e: Event): Known {
    match e
    case Created(id, content) => k.(now := k.now[id := Meta(content)], used := k.used + {id}, mine := k.mine + {id})
    case Wrote(id, content) => k.(now := k.now[id := Meta(content)], used := k.used + {id})
    case Loaded(id, _) => k.(used := k.used + {id})
    case Committed(size) => Start(k.now, size)
    case GaveUp(taken) => Start(map id | id in k.committed && id !in taken :: k.committed[id], k.size)
    case Nothing => k
  }

  function AfterAll(k: Known, events: seq<Event>): Known {
    if events == [] then k else After(AfterAll(k, events[..|events| - 1]), events[|events| - 1])
  }

  function Content(page: Page): Option<nat> {
    if page.Meta? then Some(page.content) else None
  }

  /** `e` is what `op` has to lead to. Loading and writing need a page with a checksum; nothing else can make them
      fail. A committed page can be taken over before it is used, but not a second time. A rollback takes away the
      pages taken over, and no other committed page. */
  ghost predicate Answers(k: Known, op: Op, e: Event) {
    match op
    case Add(raw) => e.Created? && e.id !in k.now && e.id !in k.committed && e.content == raw
    case TakeAsNew(id, raw) =>
      && (e == Created(id, raw) || e == Nothing)
      && (id in k.committed && id !in k.used ==> e.Created?) && (id in k.mine ==> e == Nothing)
    case Load(id) => e == if id in k.now then Loaded(id, Content(k.now[id])) else Nothing
    case Overwrite(id, content) => e == if id in k.now && k.now[id].Meta? then Wrote(id, content) else Nothing
    case Reuse(id, raw) =>
      if id in k.now && k.now[id].Meta? then (
        && (e == Wrote(id, raw) || e == Wrote(id, k.now[id].content))
        && (id in k.committed && id !in k.used ==> e == Wrote(id, raw))
      ) else e == Nothing
    case Release(_) => e == Nothing
    case Evict(_) => e == Nothing
    case Publish => e.Committed?
    case GiveUp => e.GaveUp? && forall id | id in k.committed :: id in e.taken <==> id in k.mine
  }

  /** Every page the client knows shows what it was given last. */
  ghost predicate Shows(s: Snapshot, m: map<nat, Page>) {
    forall id | id in m :: id < |s.d.pages| && id !in s.free && !s.Secret(id) && s.View(id) == m[id]
  }

  /** What is committed stands in the file. */
  ghost predicate Holds(s: Snapshot, m: map<nat, Page>) {
    forall id | id in m :: id < |s.base| && s.base[id] == m[id]
  }

  /** Of the committed pages the transaction has those for its own that the client took over, and nobody uses a
      page that the client has not asked for. */
  ghost predicate Owned(s: Snapshot, k: Known) {
    && (forall id | id in k.committed ::
          && id < |s.d.pages| && id !in s.free && (id in s.newIds <==> id in k.mine)
          && (id !in k.used ==> s.Unused(id)))
    && (forall id | id in k.mine :: id in s.newIds)
  }

  ghost predicate Agrees(s: Snapshot, k: Known) {
    Shows(s, k.now) && Holds(s, k.committed) && |s.base| == k.size && Owned(s, k)
  }

  lemma ShowsStill(s: Snapshot, t: Snapshot, m: map<nat, Page>)
    requires Shows(s, m) && Keeps(s, t, {})
    ensures Shows(t, m)
  {
    hide Snapshot.View, Snapshot.Secret;
  }

  /** One page got new contents, and with it perhaps the place it was diverted to. */
  lemma ShowsWritten(s: Snapshot, t: Snapshot, m: map<nat, Page>, id: nat, at: nat, content: nat)
    requires Shows(s, m) && Keeps(s, t, {id, at}) && (at == id || s.Secret(at))
    requires id < |t.d.pages| && id !in t.free && !t.Secret(id) && t.View(id) == Meta(content)
    ensures Shows(t, m[id := Meta(content)])
  {
    hide Snapshot.View, Snapshot.Secret;
  }

  lemma ShowsUnpinned(s: Snapshot, t: Snapshot, m: map<nat, Page>)
    requires Shows(s, m) && t == s.(cache := t.cache) && forall i: nat :: t.View(i) == s.View(i)
    ensures Shows(t, m)
  {
    hide Snapshot.View;
  }

  lemma ShowsMarked(s: Snapshot, t: Snapshot, m: map<nat, Page>)
    requires Shows(s, m) && t == s.(cache := t.cache)
    requires forall i: nat {:trigger t.View(i)} | i < |s.d.pages| :: t.View(i) == s.View(i)
    ensures Shows(t, m)
  {
    hide Snapshot.View;
  }

  /** After a commit the file shows what the client saw before. */
  lemma ShowsPublished(s: Snapshot, t: Snapshot, m: map<nat, Page>)
    requires s.Valid() && Shows(s, m) && t.d.pages == t.base == Published(s) && t.free == s.free
    requires t.cache == map[] && t.diverted == map[]
    ensures Shows(t, m) && Holds(t, m)
  {
    hide Snapshot.Valid, Published;
    PublishedSize(s);
    forall id | id in m ensures id < |t.d.pages| && t.d.pages[id] == m[id] {
      PublishedIsView(s, id);
    }
  }

  lemma PublishedSize(s: Snapshot)
    ensures |Published(s)| == |s.d.pages|
  {
  }

  /** After a rollback the file shows what was committed, except on pages the transaction had taken. */
  lemma ShowsBack(s: Snapshot, t: Snapshot, m: map<nat, Page>, taken: set<nat>)
    requires Holds(s, m) && t.d.pages == t.base && |t.d.pages| == |s.base| && t.free == {} && t.cache == map[]
    requires t.diverted == map[]
    requires forall p | 0 <= p < |s.base| && p !in taken :: t.d.pages[p] == s.base[p]
    ensures var back := map id | id in m && id !in taken :: m[id]; Shows(t, back) && Holds(t, back)
  {
  }

  // ------------------------------------------------------------------ what belongs to the transaction

  /** New pages of the transaction are those from the allocator and those at the end of the file. */
  ghost predicate NewOnly(s: Snapshot, t: Snapshot, except: set<nat>) {
    && s.newIds <= t.newIds && t.free <= s.free && |s.d.pages| <= |t.d.pages|
    && forall i | i in t.newIds && i !in s.newIds :: i in except || i in s.free || i >= |s.d.pages|
  }

  lemma KeepsNew(s: Snapshot, t: Snapshot, except: set<nat>)
    requires Keeps(s, t, except)
    ensures NewOnly(s, t, except) && t.base == s.base
  {
  }

  lemma OwnedStill(s: Snapshot, t: Snapshot, k: Known)
    requires Owned(s, k) && NewOnly(s, t, {}) && StaysUnused(s, t, {})
    ensures Owned(t, k)
  {
    hide Snapshot.Unused;
  }

  lemma OwnedUsed(s: Snapshot, t: Snapshot, k: Known, id: nat, now: map<nat, Page>)
    requires Owned(s, k) && NewOnly(s, t, {}) && StaysUnused(s, t, {id})
    ensures Owned(t, k.(now := now, used := k.used + {id}))
  {
    hide Snapshot.Unused;
  }

  lemma OwnedCreated(s: Snapshot, t: Snapshot, k: Known, id: nat, now: map<nat, Page>)
    requires Owned(s, k) && NewOnly(s, t, {id}) && StaysUnused(s, t, {id}) && id in t.newIds
    ensures Owned(t, k.(now := now, used := k.used + {id}, mine := k.mine + {id}))
  {
    hide Snapshot.Unused;
  }

  /** A transaction begins without any pages of its own. */
  lemma OwnedNone(t: Snapshot, m: map<nat, Page>, size: nat)
    requires t.cache == map[] && t.diverted == map[] && t.newIds == {}
    requires forall id | id in m :: id < |t.d.pages| && id !in t.free
    ensures Owned(t, Start(m, size))
  {
  }

  lemma ShowsFree(s: Snapshot, m: map<nat, Page>)
    requires Shows(s, m)
    ensures forall id | id in m :: id < |s.d.pages| && id !in s.free
  {
    hide Snapshot.View, Snapshot.Secret;
  }

  lemma AtSecret(s: Snapshot, id: nat)
    ensures s.At(id) == id || s.Secret(s.At(id))
  {
  }

  lemma Cached(s: Snapshot, id: nat)
    requires s.Valid() && id in s.cache
    ensures id < |s.d.pages| && id !in s.free
  {
  }

  lemma NotKnown(s: Snapshot, k: Known, id: nat)
    requires Agrees(s, k) && (id in s.free || id >= |s.d.pages|)
    ensures id !in k.now && id !in k.committed
  {
  }

  lemma KnownIs(s: Snapshot, m: map<nat, Page>, id: nat)
    requires Shows(s, m) && id in m
    ensures id < |s.d.pages| && id !in s.free && !s.Secret(id) && s.View(id) == m[id]
  {
  }

  lemma OwnedIs(s: Snapshot, k: Known, id: nat)
    requires Owned(s, k)
    ensures id in k.committed && id !in k.used ==> s.Unused(id)
    ensures id in k.mine ==> !s.Unused(id)
  {
  }

  // ------------------------------------------------------------------ one operation

  /** One operation of a client; asked for what it cannot do, it does nothing. */
  method Step(cm: CacheManager, k: Known, op: Op) returns (e: Event)
    requires cm.Valid() && Agrees(cm.Now(), k)
    modifies cm, cm.file
    ensures cm.Valid() && Agrees(cm.Now(), After(k, e)) && Answers(k, op, e)
    ensures op.TakeAsNew? ==> (e.Created? <==> old(cm.Now().Unused(op.id)))
    ensures op.GiveUp? ==> e.taken == old(cm.newIds)
  {
    hide Keeps, Snapshot.Valid, Snapshot.View, Snapshot.Secret, Snapshot.Unused, PageFile.Valid, Shows, Holds, Owned;
    hide NewOnly, StaysUnused;
    ghost var s := cm.Now();
    match op
    case Add(raw) =>
      e := StepAdd(cm, k, raw);
    case TakeAsNew(id, raw) =>
      OwnedIs(s, k, id);
      e := StepTake(cm, k, id, raw);
    case Load(id) =>
      e := StepLoad(cm, k, id);
    case Overwrite(id, content) =>
      e := StepOverwrite(cm, k, id, content);
    case Reuse(id, raw) =>
      e := StepReuse(cm, k, id, raw);
    case Release(id) =>
      StepRelease(cm, k, id);
      return Nothing;
    case Evict(maxPages) =>
      var _ := cm.Trim(maxPages);
      ShowsStill(s, cm.Now(), k.now);
      KeepsNew(s, cm.Now(), {});
      OwnedStill(s, cm.Now(), k);
      HoldsStill(s, cm.Now(), k.committed);
      return Nothing;
    case Publish =>
      e := StepPublish(cm, k);
    case GiveUp =>
      e := StepGiveUp(cm, k);
  }

  lemma HoldsStill(s: Snapshot, t: Snapshot, m: map<nat, Page>)
    requires Holds(s, m) && t.base == s.base
    ensures Holds(t, m)
  {
  }

  method StepAdd(cm: CacheManager, k: Known, raw: nat) returns (e: Event)
    requires cm.Valid() && Agrees(cm.Now(), k)
    modifies cm, cm.file
    ensures cm.Valid() && Agrees(cm.Now(), After(k, e)) && Answers(k, Add(raw), e)
  {
    hide Keeps, Snapshot.Valid, Snapshot.View, Snapshot.Secret, PageFile.Valid, Shows, Holds, Owned, NewOnly;
    hide Snapshot.Unused;
    ghost var s := cm.Now();
    SameFile(cm);
    var id := cm.NewPage(raw);
    NotKnown(s, k, id);
    Cached(cm.Now(), id);
    assert {id} == {id, id};
    ShowsWritten(s, cm.Now(), k.now, id, id, raw);
    KeepsNew(s, cm.Now(), {id});
    OwnedCreated(s, cm.Now(), k, id, k.now[id := Meta(raw)]);
    HoldsStill(s, cm.Now(), k.committed);
    return Created(id, raw);
  }

  method StepTake(cm: CacheManager, k: Known, id: nat, raw: nat) returns (e: Event)
    requires cm.Valid() && Agrees(cm.Now(), k)
    modifies cm, cm.file
    ensures cm.Valid() && Agrees(cm.Now(), After(k, e))
    ensures e == if old(cm.Now().Unused(id)) then Created(id, raw) else Nothing
  {
    hide Keeps, Snapshot.Valid, Snapshot.View, Snapshot.Secret, PageFile.Valid, Shows, Holds, Owned, NewOnly;
    hide StaysUnused;
    ghost var s := cm.Now();
    SameFile(cm);
    if id < |cm.file.pages| && id !in cm.cache && id !in cm.diverted && id !in cm.newIds && id !in cm.free {
      cm.AsNewPage(id, raw);
      Cached(cm.Now(), id);
      assert {id} == {id, id};
      ShowsWritten(s, cm.Now(), k.now, id, id, raw);
      KeepsNew(s, cm.Now(), {id});
      OwnedCreated(s, cm.Now(), k, id, k.now[id := Meta(raw)]);
      HoldsStill(s, cm.Now(), k.committed);
      return Created(id, raw);
    }
    return Nothing;
  }

  method StepLoad(cm: CacheManager, k: Known, id: nat) returns (e: Event)
    requires cm.Valid() && Agrees(cm.Now(), k)
    modifies cm, cm.file
    ensures cm.Valid() && Agrees(cm.Now(), After(k, e)) && Answers(k, Load(id), e)
  {
    hide Keeps, Snapshot.Valid, Snapshot.View, Snapshot.Secret, PageFile.Valid, Shows, Holds, Owned, NewOnly;
    hide StaysUnused, Snapshot.Unused;
    if id !in k.now {
      return Nothing;
    }
    ghost var s := cm.Now();
    KnownIs(s, k.now, id);
    var r := cm.LoadPage(id);
    ShowsStill(s, cm.Now(), k.now);
    KeepsNew(s, cm.Now(), {});
    OwnedUsed(s, cm.Now(), k, id, k.now);
    HoldsStill(s, cm.Now(), k.committed);
    return Loaded(id, r);
  }

  /** A page is made writable by loading it and marking it as changed. */
  method StepOverwrite(cm: CacheManager, k: Known, id: nat, content: nat) returns (e: Event)
    requires cm.Valid() && Agrees(cm.Now(), k)
    modifies cm, cm.file
    ensures cm.Valid() && Agrees(cm.Now(), After(k, e)) && Answers(k, Overwrite(id, content), e)
  {
    hide Keeps, Snapshot.Valid, Snapshot.View, Snapshot.Secret, PageFile.Valid, Shows, Holds, Owned, NewOnly;
    hide StaysUnused, Snapshot.Unused, Checked, Used;
    if id !in k.now {
      return Nothing;
    }
    ghost var s := cm.Now();
    KnownIs(s, k.now, id);
    var r := cm.LoadPage(id);
    ghost var t := cm.Now();
    if r == None {
      return Nothing;
    }
    KeepsNew(s, t, {});
    ShowsStill(s, t, k.now);
    KnownIs(t, k.now, id);
    cm.SetPageDirty(id);
    ghost var u := cm.Now();
    SameFile(cm);
    ShowsMarked(t, u, k.now);
    KnownIs(u, k.now, id);
    cm.WriteToPage(id, content);
    AtSecret(u, id);
    StillThere(u, cm.Now(), id);
    ShowsWritten(u, cm.Now(), k.now, id, u.At(id), content);
    OnlyCached(s, t, cm.Now(), id);
    OwnedUsed(s, cm.Now(), k, id, k.now[id := Meta(content)]);
    HoldsStill(s, cm.Now(), k.committed);
    return Wrote(id, content);
  }

  lemma StillThere(s: Snapshot, t: Snapshot, id: nat)
    requires t == s.(cache := t.cache) && id < |s.d.pages| && id !in s.free && !s.Secret(id)
    ensures id < |t.d.pages| && id !in t.free && !t.Secret(id)
  {
  }

  /** Between `t` and `u` pages in memory were changed, but none came or left. */
  lemma OnlyCached(s: Snapshot, t: Snapshot, u: Snapshot, id: nat)
    requires NewOnly(s, t, {}) && StaysUnused(s, t, {id}) && u == t.(cache := u.cache) && u.cache.Keys == t.cache.Keys
    ensures NewOnly(s, u, {}) && StaysUnused(s, u, {id})
  {
  }

  method StepReuse(cm: CacheManager, k: Known, id: nat, raw: nat) returns (e: Event)
    requires cm.Valid() && Agrees(cm.Now(), k)
    modifies cm, cm.file
    ensures cm.Valid() && Agrees(cm.Now(), After(k, e)) && Answers(k, Reuse(id, raw), e)
  {
    hide Keeps, Snapshot.Valid, Snapshot.View, Snapshot.Secret, PageFile.Valid, Shows, Holds, Owned, NewOnly;
    hide StaysUnused;
    if id !in k.now || !k.now[id].Meta? {
      return Nothing;
    }
    ghost var s := cm.Now();
    KnownIs(s, k.now, id);
    OwnedIs(s, k, id);
    SameFile(cm);
    var content := if Divert(cm.diverted, id) in cm.cache then k.now[id].content else raw;
    cm.Repurpose(id, raw);
    AtSecret(s, id);
    KeptOut(s, cm.Now(), id, s.At(id));
    ShowsWritten(s, cm.Now(), k.now, id, s.At(id), content);
    OwnedUsed(s, cm.Now(), k, id, k.now[id := Meta(content)]);
    HoldsStill(s, cm.Now(), k.committed);
    return Wrote(id, content);
  }

  lemma KeptOut(s: Snapshot, t: Snapshot, id: nat, at: nat)
    requires Keeps(s, t, {id, at}) && id < |s.d.pages| && id !in s.free && !s.Secret(id)
    requires forall i | i in t.newIds && i !in s.newIds :: i in s.free || i >= |s.d.pages|
    ensures id < |t.d.pages| && id !in t.free && !t.Secret(id) && t.base == s.base && NewOnly(s, t, {})
  {
  }

  method StepRelease(cm: CacheManager, k: Known, id: nat)
    requires cm.Valid() && Agrees(cm.Now(), k)
    modifies cm, cm.file
    ensures cm.Valid() && Agrees(cm.Now(), k)
  {
    hide Snapshot.Valid, Snapshot.View, Snapshot.Secret, PageFile.Valid, Shows, Holds, Owned;
    ghost var s := cm.Now();
    var at := Divert(cm.diverted, id);
    if at in cm.cache && cm.cache[at].pins > 0 {
      cm.Unpin(at);
      ShowsUnpinned(s, cm.Now(), k.now);
      UnusedStill(s, cm.Now(), at);
      OwnedStill(s, cm.Now(), k);
      HoldsStill(s, cm.Now(), k.committed);
    }
  }

  method StepPublish(cm: CacheManager, k: Known) returns (e: Event)
    requires cm.Valid() && Agrees(cm.Now(), k)
    modifies cm, cm.file
    ensures cm.Valid() && e.Committed? && Agrees(cm.Now(), After(k, e))
  {
    hide Snapshot.Valid, Snapshot.View, Snapshot.Secret, PageFile.Valid, Shows, Holds, Owned;
    ghost var s := cm.Now();
    var handler := new CommitHandler(cm);
    ghost var dirty, late := handler.Commit();
    SameFile(cm);
    ShowsPublished(s, cm.Now(), k.now);
    ShowsFree(cm.Now(), k.now);
    OwnedNone(cm.Now(), k.now, |cm.file.pages|);
    return Committed(|cm.file.pages|);
  }

  method StepGiveUp(cm: CacheManager, k: Known) returns (e: Event)
    requires cm.Valid() && Agrees(cm.Now(), k)
    modifies cm, cm.file
    ensures cm.Valid() && Agrees(cm.Now(), After(k, e)) && Answers(k, GiveUp, e) && e.taken == old(cm.newIds)
  {
    hide Snapshot.Valid, Snapshot.View, Snapshot.Secret, Snapshot.Unused, PageFile.Valid, Shows, Holds;
    ghost var s := cm.Now();
    var handler := new RollbackHandler(cm);
    BaseFits(s);
    SameFile(cm);
    e := GaveUp(cm.newIds);
    handler.Rollback(k.size);
    SameFile(cm);
    ShowsBack(s, cm.Now(), k.committed, e.taken);
    ghost var back := map id | id in k.committed && id !in e.taken :: k.committed[id];
    ShowsFree(cm.Now(), back);
    OwnedNone(cm.Now(), back, k.size);
  }

  // ------------------------------------------------------------------ whole runs

  lemma AfterMore(k: Known, events: seq<Event>, e: Event)
    ensures AfterAll(k, events + [e]) == After(AfterAll(k, events), e) && AfterAll(k, []) == k
  {
    assert (events + [e])[..|events|] == events;
  }

  /** Whatever a client does and whatever is evicted in between, over any number of commits and rollbacks: each load
      yields the contents given to the page last, or those committed last where a rollback was in between, and an
      operation fails only where these have no checksum. A rollback gives away the pages the client had taken over
      and no others. */
  method Run(cm: CacheManager, k: Known, ops: seq<Op>) returns (events: seq<Event>)
    requires cm.Valid() && Agrees(cm.Now(), k)
    modifies cm, cm.file
    ensures cm.Valid() && |events| == |ops| && Agrees(cm.Now(), AfterAll(k, events))
    ensures forall i | 0 <= i < |ops| :: Answers(AfterAll(k, events[..i]), ops[i], events[i])
  {
    hide Agrees, Answers, After, AfterAll;
    events := [];
    var known := k;
    AfterMore(k, [], Nothing);
    for i := 0 to |ops|
      invariant |events| == i && cm.Valid() && known == AfterAll(k, events) && Agrees(cm.Now(), known)
      invariant forall j | 0 <= j < i :: Answers(AfterAll(k, events[..j]), ops[j], events[j])
    {
      var e := Step(cm, known, ops[i]);
      AfterMore(k, events, e);
      ghost var before := events;
      events := events + [e];
      known := After(known, e);
      assert forall j | 0 <= j <= i :: events[..j] == before[..j];
    }
  }

  /** A run that starts from a committed file, whose pages the client knows as they are. */
  method RunFrom(file: PageFile, maxPages: nat, ops: seq<Op>) returns (events: seq<Event>, cm: CacheManager)
    requires file.Valid() && NoLogs(file.disk) && file.disk.unflushed == {}
    modifies file
    ensures cm.Valid() && |events| == |ops|
    ensures var k := Start(map id: nat | id < |old(file.pages)| :: old(file.pages)[id], |old(file.pages)|);
      && Agrees(cm.Now(), AfterAll(k, events))
      && forall i | 0 <= i < |ops| :: Answers(AfterAll(k, events[..i]), ops[i], events[i])
  {
    hide Answers, AfterAll;
    cm := new CacheManager(file, maxPages);
    events := Run(cm, Start(map id: nat | id < |file.pages| :: file.pages[id], |file.pages|), ops);
  }
}
