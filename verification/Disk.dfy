/** The one OS file that holds everything, page by page, and what a crash can leave of it.

    A page write is atomic. After a crash each page holds either what it held at the last flush or
    any one of the contents written to it since. Growing and cutting the file take effect in order. */
module Disk {

  /** One entry of a log page: where a page lives and where its old contents were copied to. */
  datatype Copy = Copy(orig: nat, copy: nat)

  /** The 4096 bytes of a page, as far as the protocol looks at them. `Unsigned` pages fail the
      checksum. The other two pass it; a `Log` page carries the signature made for page `at`. */
  datatype Page =
    | Unsigned(raw: nat)
    | Meta(content: nat)
    | Log(at: nat, copies: seq<Copy>)

  /** Capacity of a log page. */
  const MAX_ENTRIES: nat := 509

  /** What the file holds when it has just grown. */
  const BLANK := Unsigned(0)

  datatype Op = Grow(count: nat) | Write(id: nat, page: Page) | Flush | Cut(size: nat)

  /** `pages` is what every process sees now, `flushed` what the last flush made permanent, and
      `unflushed` every write since. */
  datatype State = State(pages: seq<Page>, flushed: seq<Page>, unflushed: set<(nat, Page)>)

  ghost predicate Sound(d: State) {
    && |d.pages| == |d.flushed|
    && (forall w | w in d.unflushed :: w.0 < |d.pages|)
    && CrashImage(d, d.pages)
  }

  /** `img` is a file that a crash in state `d` can leave behind. */
  ghost predicate CrashImage(d: State, img: seq<Page>) {
    && |img| == |d.flushed|
    && forall i | 0 <= i < |img| :: img[i] == d.flushed[i] || (i, img[i]) in d.unflushed
  }

  /** The state right after booting into a file: everything in it is permanent. */
  function Boot(img: seq<Page>): State {
    State(img, img, {})
  }

  predicate Legal(d: State, op: Op) {
    match op
    case Grow(_) => true
    case Write(id, _) => id < |d.pages|
    case Flush => true
    case Cut(size) => size <= |d.pages|
  }

  ghost function Apply(d: State, op: Op): State
    requires Sound(d) && Legal(d, op)
  {
    match op
    case Grow(count) =>
      var blank := seq(count, _ => BLANK);
      State(d.pages + blank, d.flushed + blank, d.unflushed)
    case Write(id, page) =>
      State(d.pages[id := page], d.flushed, d.unflushed + {(id, page)})
    case Flush =>
      State(d.pages, d.pages, {})
    case Cut(size) =>
      State(d.pages[..size], d.flushed[..size], set w | w in d.unflushed && w.0 < size)
  }

  lemma ApplyValid(d: State, op: Op)
    requires Sound(d) && Legal(d, op)
    ensures Sound(Apply(d, op))
  {
  }

  /** Every operation of `ops` is possible when its turn comes. */
  ghost predicate LegalAll(d: State, ops: seq<Op>)
    requires Sound(d)
    decreases |ops|, 0
  {
    ops == [] ||
    (LegalAll(d, ops[..|ops| - 1]) && Legal(ApplyAll(d, ops[..|ops| - 1]), ops[|ops| - 1]))
  }

  ghost function ApplyAll(d: State, ops: seq<Op>): (r: State)
    requires Sound(d) && LegalAll(d, ops)
    ensures Sound(r)
    decreases |ops|, 1
  {
    if ops == [] then d else
      var before := ApplyAll(d, ops[..|ops| - 1]);
      ApplyValid(before, ops[|ops| - 1]);
      Apply(before, ops[|ops| - 1])
  }

  /** Running one list of operations after another is running both. */
  lemma {:induction false} ApplyAppend(d: State, a: seq<Op>, b: seq<Op>)
    requires Sound(d) && LegalAll(d, a)
    ensures LegalAll(d, a + b) <==> LegalAll(ApplyAll(d, a), b)
    ensures LegalAll(d, a + b) ==> ApplyAll(d, a + b) == ApplyAll(ApplyAll(d, a), b)
    decreases |b|
  {
    if b == [] {
      assert a + b == a;
    } else {
      var ops := a + b;
      assert ops[..|ops| - 1] == a + b[..|b| - 1];
      ApplyAppend(d, a, b[..|b| - 1]);
    }
  }

  lemma ApplyOne(d: State, op: Op)
    requires Sound(d)
    ensures LegalAll(d, [op]) <==> Legal(d, op)
    ensures Legal(d, op) ==> ApplyAll(d, [op]) == Apply(d, op)
  {
    assert [op][..0] == [];
    assert LegalAll(d, []);
  }

  lemma {:induction false} PrefixLegal(d: State, ops: seq<Op>, k: nat)
    requires Sound(d) && LegalAll(d, ops) && k <= |ops|
    ensures LegalAll(d, ops[..k])
  {
    assert ops == ops[..k] + ops[k..];
    if k < |ops| {
      PrefixLegal(d, ops[..|ops| - 1], k);
      assert ops[..|ops| - 1][..k] == ops[..k];
    } else {
      assert ops[..k] == ops;
    }
  }

  /** From state `d` with history `before` exactly the operations `done` led to `now`, `ops`. */
  ghost predicate Ran(d: State, before: seq<Op>, done: seq<Op>, now: State, ops: seq<Op>) {
    Sound(d) && LegalAll(d, done) && now == ApplyAll(d, done) && ops == before + done
  }

  lemma RanNothing(d: State, before: seq<Op>)
    requires Sound(d)
    ensures Ran(d, before, [], d, before)
  {
    assert before + [] == before;
  }

  lemma RanNext(d: State, before: seq<Op>, done: seq<Op>, now: State, ops: seq<Op>, op: Op)
    requires Ran(d, before, done, now, ops) && Sound(now) && Legal(now, op)
    ensures Ran(d, before, done + [op], Apply(now, op), ops + [op])
  {
    ApplyOne(now, op);
    ApplyAppend(d, done, [op]);
    assert before + done + [op] == before + (done + [op]);
  }

  /** The open file. The history `ops` is what the proofs about crashes look at. */
  class PageFile {
    var pages: seq<Page>
    ghost var disk: State
    ghost var boot: State
    ghost var ops: seq<Op>

    ghost predicate Valid()
      reads this
    {
      && Sound(boot)
      && LegalAll(boot, ops)
      && disk == ApplyAll(boot, ops)
      && pages == disk.pages
    }

    constructor (img: seq<Page>)
      ensures Valid() && pages == img && boot == disk == Boot(img) && ops == []
    {
      pages := img;
      disk, boot, ops := Boot(img), Boot(img), [];
    }

    ghost method Record(op: Op)
      requires Valid() && Legal(disk, op)
      modifies this`ops, this`disk
      ensures boot == old(boot) && ops == old(ops) + [op] && disk == Apply(old(disk), op)
      ensures LegalAll(boot, ops) && disk == ApplyAll(boot, ops)
    {
      ApplyOne(disk, op);
      ApplyAppend(boot, ops, [op]);
      ApplyValid(disk, op);
      ops, disk := ops + [op], Apply(disk, op);
    }

    method NewInterval(count: nat) returns (first: nat)
      requires Valid()
      modifies this
      ensures Valid() && first == old(|pages|) && ops == old(ops) + [Grow(count)]
      ensures disk == Apply(old(disk), Grow(count))
    {
      first := |pages|;
      Record(Grow(count));
      pages := pages + seq(count, _ => BLANK);
    }

    method WritePage(id: nat, page: Page)
      requires Valid() && id < |pages|
      modifies this
      ensures Valid() && ops == old(ops) + [Write(id, page)]
      ensures disk == Apply(old(disk), Write(id, page))
    {
      Record(Write(id, page));
      pages := pages[id := page];
    }

    method FlushFile()
      requires Valid()
      modifies this
      ensures Valid() && ops == old(ops) + [Flush]
      ensures disk == Apply(old(disk), Flush)
    {
      Record(Flush);
    }

    method Truncate(size: nat)
      requires Valid() && size <= |pages|
      modifies this
      ensures Valid() && ops == old(ops) + [Cut(size)]
      ensures disk == Apply(old(disk), Cut(size))
    {
      Record(Cut(size));
      pages := pages[..size];
    }
  }
}
