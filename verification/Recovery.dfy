/** Reading the log at the end of the file and putting the old pages back, and why that can be
    interrupted by another crash at any point and simply be started again. */
module Recovery {
  import opened Disk

  predicate IsLogAt(img: seq<Page>, i: nat)
    requires i < |img|
  {
    img[i].Log? && img[i].at == i && |img[i].copies| <= MAX_ENTRIES
  }

  /** The log entries found scanning downwards from page `k - 1` until a page is no log page. */
  function LogsBelow(img: seq<Page>, k: nat): seq<Copy>
    requires k <= |img|
  {
    if k == 0 || !IsLogAt(img, k - 1) then [] else img[k - 1].copies + LogsBelow(img, k - 1)
  }

  function Logs(img: seq<Page>): seq<Copy> {
    LogsBelow(img, |img|)
  }

  /** Copying a page back fails when either page does not exist or the copy fails its checksum. */
  predicate CanCopy(pages: seq<Page>, c: Copy) {
    c.copy < |pages| && c.orig < |pages| && !pages[c.copy].Unsigned?
  }

  /** The copies made, up to the first that fails. Each reads what the ones before it left. */
  function RevertOps(pages: seq<Page>, logs: seq<Copy>): seq<Op>
    decreases |logs|
  {
    if logs == [] || !CanCopy(pages, logs[0]) then [] else
      var page := pages[logs[0].copy];
      [Write(logs[0].orig, page)] + RevertOps(pages[logs[0].orig := page], logs[1..])
  }

  predicate Reverts(pages: seq<Page>, logs: seq<Copy>)
    decreases |logs|
  {
    logs == [] ||
    (CanCopy(pages, logs[0]) && Reverts(pages[logs[0].orig := pages[logs[0].copy]], logs[1..]))
  }

  /** Opening a file for writing: put the old pages back, flush, cut to the committed size. */
  function RecoverOps(img: seq<Page>, size: nat): seq<Op> {
    RevertOps(img, Logs(img)) + [Flush] + (if size < |img| then [Cut(size)] else [])
  }

  /** `img` still determines the committed file `pre[..size]` outside the pages of `loose`. Nothing
      below page `n` is a log page; logged pages lie below `n` and their copies above. */
  ghost predicate Recoverable(img: seq<Page>, n: nat, size: nat, loose: set<nat>, pre: seq<Page>) {
    && size <= n && size <= |pre| && size <= |img|
    && (forall i | 0 <= i < |img| && i < n :: !img[i].Log?)
    && (forall c | c in Logs(img) :: c.orig < n <= c.copy < |img| && img[c.copy].Meta?)
    && (forall c | c in Logs(img) && c.orig < size && c.orig !in loose :: img[c.copy] == pre[c.orig])
    && (forall p | 0 <= p < size && p !in loose ::
          img[p] == pre[p] || exists c :: c in Logs(img) && c.orig == p)
  }

  /** Every content a page has or may have after a crash is one that `allowed` accepts. */
  ghost predicate Within(d: State, allowed: (nat, Page) -> bool) {
    && (forall i | 0 <= i < |d.flushed| :: allowed(i, d.flushed[i]))
    && (forall w | w in d.unflushed :: allowed(w.0, w.1))
  }

  ghost predicate Fits(op: Op, size: nat, allowed: (nat, Page) -> bool) {
    match op
    case Grow(_) => forall i | i >= size :: allowed(i, BLANK)
    case Write(id, page) => allowed(id, page)
    case Flush => true
    case Cut(_) => false
  }

  lemma {:induction false} WithinAll(d: State, ops: seq<Op>, allowed: (nat, Page) -> bool)
    requires Sound(d) && LegalAll(d, ops) && Within(d, allowed)
    requires forall op | op in ops :: Fits(op, |d.pages|, allowed)
    ensures Within(ApplyAll(d, ops), allowed) && |ApplyAll(d, ops).pages| >= |d.pages|
    decreases |ops|
  {
    if ops != [] {
      var before := ops[..|ops| - 1];
      WithinAll(d, before, allowed);
      var op := ops[|ops| - 1];
      assert Fits(op, |d.pages|, allowed);
      var b := ApplyAll(d, before);
      var a := Apply(b, op);
      forall i | 0 <= i < |a.flushed| ensures allowed(i, a.flushed[i]) {
        if op == Flush && b.pages[i] != b.flushed[i] {
          assert (i, b.pages[i]) in b.unflushed;
        }
      }
    }
  }

  /** Log scanning looks at nothing but the log pages, which all lie at or above `n`. */
  lemma {:induction false} SameLogs(a: seq<Page>, b: seq<Page>, n: nat, k: nat)
    requires |a| == |b| && k <= |a|
    requires forall i | 0 <= i < |a| && i < n :: !a[i].Log? && !b[i].Log?
    requires forall i | n <= i < |a| :: a[i] == b[i]
    ensures LogsBelow(a, k) == LogsBelow(b, k)
  {
    if k > 0 {
      SameLogs(a, b, n, k - 1);
    }
  }

  /** When logged pages and copies do not overlap, every copy succeeds and writes the contents the
      copy had at the start. */
  lemma {:induction false} RevertOpsAre(img: seq<Page>, pages: seq<Page>, logs: seq<Copy>, n: nat)
    requires |pages| == |img|
    requires forall i | n <= i < |img| :: pages[i] == img[i]
    requires forall c | c in logs :: c.orig < n <= c.copy < |img| && img[c.copy].Meta?
    ensures Reverts(pages, logs)
    ensures RevertOps(pages, logs) == seq(|logs|, i requires 0 <= i < |logs| && logs[i].copy < |img| =>
              Write(logs[i].orig, img[logs[i].copy]))
    decreases |logs|
  {
    if logs != [] {
      assert logs[0] in logs;
      RevertOpsAre(img, pages[logs[0].orig := pages[logs[0].copy]], logs[1..], n);
    }
  }

  lemma {:induction false} WritesLegal(d: State, ops: seq<Op>)
    requires Sound(d)
    requires forall op | op in ops :: op.Write? && op.id < |d.pages|
    ensures LegalAll(d, ops) && |ApplyAll(d, ops).pages| == |d.pages|
    decreases |ops|
  {
    if ops != [] {
      WritesLegal(d, ops[..|ops| - 1]);
      assert ops[|ops| - 1] in ops;
    }
  }

  /** A page holds the last content written to it. */
  lemma {:induction false} WritesEffect(d: State, ops: seq<Op>, p: nat)
    requires Sound(d) && p < |d.pages|
    requires forall op | op in ops :: op.Write? && op.id < |d.pages|
    ensures LegalAll(d, ops) && |ApplyAll(d, ops).pages| == |d.pages|
    ensures (exists op :: op in ops && op == Write(p, ApplyAll(d, ops).pages[p])) ||
            (ApplyAll(d, ops).pages[p] == d.pages[p] && forall op | op in ops :: op.id != p)
    decreases |ops|
  {
    WritesLegal(d, ops);
    if ops != [] {
      var before := ops[..|ops| - 1];
      WritesEffect(d, before, p);
      var last := ops[|ops| - 1];
      assert last in ops;
      var now := ApplyAll(d, ops).pages[p];
      if last.id == p {
        assert last == Write(p, now);
      } else if exists op :: op in before && op == Write(p, now) {
        var op :| op in before && op == Write(p, now);
        assert op in ops;
      }
    }
  }

  /** What recovery may leave on a page while it runs. */
  ghost predicate Halfway(img: seq<Page>, i: nat, page: Page) {
    i < |img| &&
    (page == img[i] ||
     exists c :: c in Logs(img) && c.orig == i && c.copy < |img| && page == img[c.copy])
  }

  lemma HalfwayRecoverable(img: seq<Page>, img2: seq<Page>, n: nat, size: nat, loose: set<nat>, pre: seq<Page>)
    requires Recoverable(img, n, size, loose, pre)
    requires |img2| == |img| && forall i | 0 <= i < |img2| :: Halfway(img, i, img2[i])
    ensures Recoverable(img2, n, size, loose, pre)
  {
    forall i | 0 <= i < |img| ensures if i < n then !img2[i].Log? else img2[i] == img[i] {
      assert Halfway(img, i, img2[i]);
    }
    SameLogs(img, img2, n, |img|);
    forall p | 0 <= p < size && p !in loose
      ensures img2[p] == pre[p] || exists c :: c in Logs(img2) && c.orig == p
    {
      assert Halfway(img, p, img2[p]);
    }
  }

  lemma RecoverOpsFit(img: seq<Page>, n: nat, size: nat, loose: set<nat>, pre: seq<Page>) returns (writes: seq<Op>)
    requires Recoverable(img, n, size, loose, pre)
    ensures writes == RevertOps(img, Logs(img)) && Reverts(img, Logs(img))
    ensures forall op | op in writes :: op.Write? && op.id < |img| && op.id < n && Halfway(img, op.id, op.page)
    ensures forall op | op in writes && op.id < size && op.id !in loose :: op.page == pre[op.id]
    ensures forall c | c in Logs(img) :: Write(c.orig, img[c.copy]) in writes
    ensures LegalAll(Boot(img), RecoverOps(img, size))
  {
    var logs := Logs(img);
    RevertOpsAre(img, img, logs, n);
    writes := RevertOps(img, logs);
    if |img| < n {
      assert forall c | c in logs :: false;
    }
    forall c | c in logs ensures c.orig < |img| && Write(c.orig, img[c.copy]) in writes {
      var i :| 0 <= i < |logs| && logs[i] == c;
      assert writes[i] == Write(c.orig, img[c.copy]);
    }
    forall op | op in writes
      ensures op.Write? && op.id < |img| && op.id < n && Halfway(img, op.id, op.page)
      ensures op.id < size && op.id !in loose ==> op.page == pre[op.id]
    {
      var i :| 0 <= i < |writes| && writes[i] == op;
      assert logs[i] in logs;
    }
    WritesLegal(Boot(img), writes);
    ApplyOne(ApplyAll(Boot(img), writes), Flush);
    ApplyAppend(Boot(img), writes, [Flush]);
    if size < |img| {
      ApplyOne(ApplyAll(Boot(img), writes + [Flush]), Cut(size));
      ApplyAppend(Boot(img), writes + [Flush], [Cut(size)]);
    } else {
      assert writes + [Flush] + [] == writes + [Flush];
    }
  }

  /** Recovery that runs to its end restores the committed file: every page it claims, and the
      committed size. */
  lemma RecoverRestores(img: seq<Page>, n: nat, size: nat, loose: set<nat>, pre: seq<Page>)
    requires Recoverable(img, n, size, loose, pre)
    ensures LegalAll(Boot(img), RecoverOps(img, size))
    ensures var d := ApplyAll(Boot(img), RecoverOps(img, size));
      && d == Boot(d.pages) && |d.pages| == size
      && (forall p | 0 <= p < size && p !in loose :: d.pages[p] == pre[p])
      && (forall p | 0 <= p < size :: !d.pages[p].Log?)
  {
    var writes := RecoverOpsFit(img, n, size, loose, pre);
    var w := ApplyAll(Boot(img), writes);
    WritesLegal(Boot(img), writes);
    forall p | 0 <= p < size
      ensures p !in loose ==> w.pages[p] == pre[p]
      ensures !w.pages[p].Log?
    {
      WritesEffect(Boot(img), writes, p);
      if exists op :: op in writes && op == Write(p, w.pages[p]) {
        var op :| op in writes && op == Write(p, w.pages[p]);
        assert Halfway(img, p, op.page);
      }
    }
    ApplyOne(w, Flush);
    ApplyAppend(Boot(img), writes, [Flush]);
    var f := ApplyAll(Boot(img), writes + [Flush]);
    assert f == State(w.pages, w.pages, {});
    if size < |img| {
      ApplyOne(f, Cut(size));
      ApplyAppend(Boot(img), writes + [Flush], [Cut(size)]);
    } else {
      assert writes + [Flush] + [] == writes + [Flush];
      assert |img| == size;
    }
  }

  lemma RecoverCrashEarly(img: seq<Page>, n: nat, size: nat, loose: set<nat>, pre: seq<Page>, ops: seq<Op>,
                          img2: seq<Page>)
    requires Recoverable(img, n, size, loose, pre)
    requires forall op | op in ops :: op == Flush || (op.Write? && Halfway(img, op.id, op.page))
    requires LegalAll(Boot(img), ops) && CrashImage(ApplyAll(Boot(img), ops), img2)
    ensures Recoverable(img2, n, size, loose, pre)
  {
    var allowed := (i: nat, page: Page) => Halfway(img, i, page);
    WithinAll(Boot(img), ops, allowed);
    NoResize(Boot(img), ops);
    forall i | 0 <= i < |img2| ensures Halfway(img, i, img2[i]) {
      assert allowed(i, img2[i]);
    }
    HalfwayRecoverable(img, img2, n, size, loose, pre);
  }

  /** A crash at any step of recovery, whatever writes it loses, leaves a file that still determines
      the committed one. */
  lemma RecoverCrash(img: seq<Page>, n: nat, size: nat, loose: set<nat>, pre: seq<Page>, k: nat, img2: seq<Page>)
    requires Recoverable(img, n, size, loose, pre)
    requires k <= |RecoverOps(img, size)|
    requires LegalAll(Boot(img), RecoverOps(img, size)[..k])
    requires CrashImage(ApplyAll(Boot(img), RecoverOps(img, size)[..k]), img2)
    ensures Recoverable(img2, n, size, loose, pre)
  {
    var ops := RecoverOps(img, size);
    var writes := RecoverOpsFit(img, n, size, loose, pre);
    if k <= |writes| + 1 {
      forall op | op in ops[..k] ensures op == Flush || (op.Write? && Halfway(img, op.id, op.page)) {
        assert op in writes || op == Flush;
      }
      RecoverCrashEarly(img, n, size, loose, pre, ops[..k], img2);
    } else {
      assert ops[..k] == ops;
      RecoverRestores(img, n, size, loose, pre);
      assert img2 == ApplyAll(Boot(img), ops).pages;
      assert Logs(img2) == [];
    }
  }

  lemma {:induction false} NoResize(d: State, ops: seq<Op>)
    requires Sound(d) && LegalAll(d, ops)
    requires forall op | op in ops :: op.Write? || op.Flush?
    ensures |ApplyAll(d, ops).pages| == |d.pages|
    decreases |ops|
  {
    if ops != [] {
      NoResize(d, ops[..|ops| - 1]);
      assert ops[|ops| - 1] in ops;
    }
  }

  /** One attempt to recover that crashed after `steps` steps and left the file `img`. */
  datatype Attempt = Attempt(steps: nat, img: seq<Page>)

  /** Each attempt starts from what the one before left behind. */
  ghost predicate Attempts(img: seq<Page>, size: nat, tries: seq<Attempt>)
    decreases |tries|
  {
    tries == [] ||
    (var ops := RecoverOps(img, size);
     && tries[0].steps <= |ops|
     && LegalAll(Boot(img), ops[..tries[0].steps])
     && CrashImage(ApplyAll(Boot(img), ops[..tries[0].steps]), tries[0].img)
     && Attempts(tries[0].img, size, tries[1..]))
  }

  /** However often recovery is interrupted, at whatever steps, the attempt that finally runs through
      restores the committed file. */
  lemma {:induction false} RecoverEventually(img: seq<Page>, n: nat, size: nat, loose: set<nat>, pre: seq<Page>,
                                             tries: seq<Attempt>)
    requires Recoverable(img, n, size, loose, pre) && Attempts(img, size, tries)
    ensures var last := if tries == [] then img else tries[|tries| - 1].img;
      && LegalAll(Boot(last), RecoverOps(last, size))
      && var file := ApplyAll(Boot(last), RecoverOps(last, size)).pages;
      && |file| == size
      && forall p | 0 <= p < size && p !in loose :: file[p] == pre[p]
    decreases |tries|
  {
    hide Recoverable, RecoverOps, LegalAll, ApplyAll, CrashImage, Boot;
    if tries == [] {
      RecoverRestores(img, n, size, loose, pre);
    } else {
      RecoverCrash(img, n, size, loose, pre, tries[0].steps, tries[0].img);
      RecoverEventually(tries[0].img, n, size, loose, pre, tries[1..]);
    }
  }

  /** What the read-only open does instead of copying: later entries replace earlier ones. */
  function Redirect(diverted: map<nat, nat>, logs: seq<Copy>): map<nat, nat>
    decreases |logs|
  {
    if logs == [] then diverted else Redirect(diverted[logs[0].orig := logs[0].copy], logs[1..])
  }

  function Divert(diverted: map<nat, nat>, id: nat): nat {
    if id in diverted then diverted[id] else id
  }

  /** The file after the copies of `logs` were put back one by one. */
  ghost function Reverted(pages: seq<Page>, logs: seq<Copy>): seq<Page>
    decreases |logs|
  {
    if logs == [] || !CanCopy(pages, logs[0]) then pages else
      Reverted(pages[logs[0].orig := pages[logs[0].copy]], logs[1..])
  }

  lemma {:induction false} RevertedAre(d: State, logs: seq<Copy>)
    requires Sound(d)
    ensures LegalAll(d, RevertOps(d.pages, logs))
    ensures ApplyAll(d, RevertOps(d.pages, logs)).pages == Reverted(d.pages, logs)
    decreases |logs|
  {
    if logs == [] || !CanCopy(d.pages, logs[0]) {
      assert RevertOps(d.pages, logs) == [];
    } else {
      var first := Write(logs[0].orig, d.pages[logs[0].copy]);
      ApplyOne(d, first);
      RevertedAre(ApplyAll(d, [first]), logs[1..]);
      ApplyAppend(d, [first], RevertOps(ApplyAll(d, [first]).pages, logs[1..]));
    }
  }

  lemma {:induction false} RedirectAgrees(img: seq<Page>, pages: seq<Page>, diverted: map<nat, nat>, logs: seq<Copy>,
                                          n: nat)
    requires |pages| == |img|
    requires forall i | n <= i < |img| :: pages[i] == img[i]
    requires forall c | c in logs :: c.orig < n <= c.copy < |img| && img[c.copy].Meta?
    requires forall p | 0 <= p < |img| :: Divert(diverted, p) < |img| && img[Divert(diverted, p)] == pages[p]
    ensures var m := Redirect(diverted, logs);
      var file := Reverted(pages, logs);
      && |file| == |img|
      && forall p | 0 <= p < |img| :: Divert(m, p) < |img| && img[Divert(m, p)] == file[p]
    decreases |logs|
  {
    if logs != [] {
      var c := logs[0];
      assert c in logs;
      var pages2, diverted2 := pages[c.orig := pages[c.copy]], diverted[c.orig := c.copy];
      forall p | 0 <= p < |img| ensures Divert(diverted2, p) < |img| && img[Divert(diverted2, p)] == pages2[p] {
        if p == c.orig {
          assert Divert(diverted2, p) == c.copy && pages2[p] == pages[c.copy] == img[c.copy];
        } else {
          assert Divert(diverted2, p) == Divert(diverted, p) && pages2[p] == pages[p];
        }
      }
      RedirectAgrees(img, pages2, diverted2, logs[1..], n);
      RedirectNext(diverted, pages, logs);
    }
  }

  lemma RedirectNext(diverted: map<nat, nat>, pages: seq<Page>, logs: seq<Copy>)
    requires logs != [] && logs[0].orig < |pages| && logs[0].copy < |pages| && pages[logs[0].copy].Meta?
    ensures var c := logs[0];
      && Redirect(diverted, logs) == Redirect(diverted[c.orig := c.copy], logs[1..])
      && Reverted(pages, logs) == Reverted(pages[c.orig := pages[c.copy]], logs[1..])
  {
  }

  /** For every page, reading through the redirections of the read-only open gives what the file
      holds after the copies are physically put back. */
  lemma VirtualRevertAgrees(img: seq<Page>, n: nat)
    requires forall c | c in Logs(img) :: c.orig < n <= c.copy < |img| && img[c.copy].Meta?
    ensures LegalAll(Boot(img), RevertOps(img, Logs(img)))
    ensures var m := Redirect(map[], Logs(img));
      var file := ApplyAll(Boot(img), RevertOps(img, Logs(img))).pages;
      && |file| == |img|
      && forall p | 0 <= p < |img| :: Divert(m, p) < |img| && img[Divert(m, p)] == file[p]
  {
    RedirectAgrees(img, img, map[], Logs(img), n);
    RevertedAre(Boot(img), Logs(img));
  }
}
