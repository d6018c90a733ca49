/** A lock that one thread holds alone or several threads share, made of a mutex and a condition variable. */
module SharedLocks {

  /** The two fields of a lock. */
  datatype Held = Held(exclusive: bool, shared: int)

  predicate CanLock(h: Held) {
    !h.exclusive && h.shared <= 0
  }

  predicate CanShare(h: Held) {
    !h.exclusive
  }

  class SharedLock {
    var exclusive: bool
    var shared: int

    function Now(): Held
      reads this
    {
      Held(exclusive, shared)
    }

    constructor ()
      ensures Now() == Held(false, 0)
    {
      exclusive, shared := false, 0;
    }

    method TryLock() returns (ok: bool)
      modifies this
      ensures ok <==> CanLock(old(Now()))
      ensures Now() == if ok then Held(true, old(shared)) else old(Now())
    {
      if exclusive || shared > 0 {
        return false;
      }
      exclusive := true;
      return true;
    }

    method Unlock()
      requires exclusive && shared == 0
      modifies this
      ensures Now() == Held(false, 0)
    {
      exclusive := false;
    }

    method TryLockShared() returns (ok: bool)
      requires !exclusive ==> shared >= 0
      modifies this
      ensures ok <==> CanShare(old(Now()))
      ensures Now() == if ok then Held(false, old(shared) + 1) else old(Now())
    {
      if exclusive {
        return false;
      }
      assert !exclusive && shared >= 0;
      shared := shared + 1;
      return true;
    }

    /** Whether the threads that wait have to be woken. */
    method UnlockShared() returns (notify: bool)
      requires !exclusive && shared > 0
      modifies this
      ensures Now() == Held(false, old(shared) - 1) && (notify <==> shared == 0)
    {
      shared := shared - 1;
      assert !exclusive && shared >= 0;
      notify := shared == 0;
    }
  }

  // ------------------------------------------------------------------ threads

  /** Where a thread is. `Asleep` threads are in the condition variable, `Woken` ones were in it and look
      again. A thread that gave up the lock has yet to notify the others: unconditionally when it held the lock
      alone (`Notifying`), or only if it then sees no other sharing it (`Checking`). */
  datatype Phase =
    | Away
    | AsleepExclusive
    | AsleepShared
    | WokenExclusive
    | WokenShared
    | Exclusive
    | Sharing
    | Notifying
    | Checking

  datatype Threads = Threads(held: Held, at: seq<Phase>)

  /** What a thread does while it owns the mutex, or between. `Wake` is a spurious wake-up. */
  datatype Action = Lock | TryLock | LockShared | TryLockShared | Unlock | UnlockShared | Notify | Wake

  predicate Enabled(p: Phase, a: Action) {
    match a
    case Lock => p.Away? || p.WokenExclusive?
    case TryLock => p.Away?
    case LockShared => p.Away? || p.WokenShared?
    case TryLockShared => p.Away?
    case Unlock => p.Exclusive?
    case UnlockShared => p.Sharing?
    case Notify => p.Notifying? || p.Checking?
    case Wake => p.AsleepExclusive? || p.AsleepShared?
  }

  function Woken(p: Phase): Phase {
    if p.AsleepExclusive? then WokenExclusive else if p.AsleepShared? then WokenShared else p
  }

  function NotifyAll(at: seq<Phase>): seq<Phase> {
    seq(|at|, i requires 0 <= i < |at| => Woken(at[i]))
  }

  /** Thread `t` makes its next move. */
  function Act(s: Threads, t: nat, a: Action): Threads
    requires t < |s.at| && Enabled(s.at[t], a)
  {
    match a
    case Lock =>
      if CanLock(s.held) then Threads(s.held.(exclusive := true), s.at[t := Exclusive])
      else s.(at := s.at[t := AsleepExclusive])
    case TryLock =>
      if CanLock(s.held) then Threads(s.held.(exclusive := true), s.at[t := Exclusive]) else s
    case LockShared =>
      if CanShare(s.held) then Threads(s.held.(shared := s.held.shared + 1), s.at[t := Sharing])
      else s.(at := s.at[t := AsleepShared])
    case TryLockShared =>
      if CanShare(s.held) then Threads(s.held.(shared := s.held.shared + 1), s.at[t := Sharing]) else s
    case Unlock => Threads(s.held.(exclusive := false), s.at[t := Notifying])
    case UnlockShared => Threads(s.held.(shared := s.held.shared - 1), s.at[t := Checking])
    case Notify =>
      if s.at[t].Notifying? || s.held.shared == 0 then s.(at := NotifyAll(s.at[t := Away]))
      else s.(at := s.at[t := Away])
    case Wake => s.(at := s.at[t := Woken(s.at[t])])
  }

  function Count(at: seq<Phase>, p: Phase): nat {
    if at == [] then 0 else Count(at[..|at| - 1], p) + if at[|at| - 1] == p then 1 else 0
  }

  lemma {:induction false} CountUpdate(at: seq<Phase>, t: nat, q: Phase, p: Phase)
    requires t < |at|
    ensures Count(at[t := q], p) == Count(at, p) - (if at[t] == p then 1 else 0) + (if q == p then 1 else 0)
  {
    var n := |at| - 1;
    if t < n {
      CountUpdate(at[..n], t, q, p);
      assert at[t := q][..n] == at[..n][t := q];
    } else {
      assert at[t := q][..n] == at[..n];
    }
  }

  lemma {:induction false} CountHas(at: seq<Phase>, t: nat)
    requires t < |at|
    ensures Count(at, at[t]) > 0
  {
    if t < |at| - 1 {
      CountHas(at[..|at| - 1], t);
    }
  }

  lemma {:induction false} CountTwo(at: seq<Phase>, t: nat, u: nat)
    requires t < u < |at| && at[t] == at[u]
    ensures Count(at, at[t]) > 1
  {
    if u < |at| - 1 {
      CountTwo(at[..|at| - 1], t, u);
    } else {
      CountHas(at[..|at| - 1], t);
    }
  }

  lemma {:induction false} CountNotified(at: seq<Phase>, p: Phase)
    requires p == Exclusive || p == Sharing
    ensures Count(NotifyAll(at), p) == Count(at, p)
  {
    if at != [] {
      assert NotifyAll(at)[..|at| - 1] == NotifyAll(at[..|at| - 1]);
      CountNotified(at[..|at| - 1], p);
    }
  }

  /** Someone will call `notify_all`. */
  ghost predicate NotifyPending(s: Threads) {
    exists u :: 0 <= u < |s.at| && (s.at[u].Notifying? || (s.at[u].Checking? && s.held.shared == 0))
  }

  /** The fields count the holders, and one exclusive holder excludes all others. */
  ghost predicate Counted(s: Threads) {
    && Count(s.at, Exclusive) == (if s.held.exclusive then 1 else 0) && Count(s.at, Sharing) == s.held.shared
    && (s.held.exclusive ==> s.held.shared == 0)
  }

  /** No thread sleeps while it could have the lock, unless it is about to be woken. */
  ghost predicate NoneForgotten(s: Threads) {
    && (forall t | 0 <= t < |s.at| && s.at[t].AsleepExclusive? && CanLock(s.held) :: NotifyPending(s))
    && (forall t | 0 <= t < |s.at| && s.at[t].AsleepShared? && CanShare(s.held) ::
          exists u :: 0 <= u < |s.at| && s.at[u].Notifying?)
  }

  ghost predicate Valid(s: Threads) {
    Counted(s) && NoneForgotten(s)
  }

  lemma {:induction false} CountAway(n: nat, p: Phase)
    requires p != Away
    ensures Count(seq(n, _ => Away), p) == 0
  {
    if n > 0 {
      assert seq(n, _ => Away)[..n - 1] == seq(n - 1, _ => Away);
      CountAway(n - 1, p);
    }
  }

  lemma StartsValid(n: nat)
    ensures Valid(Threads(Held(false, 0), seq(n, _ => Away)))
  {
    CountAway(n, Exclusive);
    CountAway(n, Sharing);
  }

  /** Every move of every thread keeps this, and the assertions of the code hold when it makes one. */
  lemma ActKeeps(s: Threads, t: nat, a: Action)
    requires Valid(s) && t < |s.at| && Enabled(s.at[t], a)
    ensures Valid(Act(s, t, a))
    ensures a.Unlock? ==> s.held == Held(true, 0)
    ensures a.UnlockShared? ==> !s.held.exclusive && s.held.shared > 0
  {
    CountHas(s.at, t);
    CountsKept(s, t, a);
    RestKept(s, t, a);
  }

  lemma CountsKept(s: Threads, t: nat, a: Action)
    requires Counted(s) && t < |s.at| && Enabled(s.at[t], a)
    ensures Counted(Act(s, t, a))
  {
    hide Count;
    CountHas(s.at, t);
    var p := s.at[t];
    var q := if a.Notify? then Away else Act(s, t, a).at[t];
    CountUpdate(s.at, t, q, Exclusive);
    CountUpdate(s.at, t, q, Sharing);
    CountNotified(s.at[t := Away], Exclusive);
    CountNotified(s.at[t := Away], Sharing);
  }

  lemma RestKept(s: Threads, t: nat, a: Action)
    requires Valid(s) && t < |s.at| && Enabled(s.at[t], a)
    ensures NoneForgotten(Act(s, t, a))
  {
    hide Count;
    CountHas(s.at, t);
    var s2 := Act(s, t, a);
    if a.Unlock? || a.UnlockShared? {
      assert s2.at[t] == if a.Unlock? then Notifying else Checking;
    }
    forall u | 0 <= u < |s2.at| && s2.at[u].AsleepExclusive? && CanLock(s2.held) ensures NotifyPending(s2) {
      if !a.Unlock? && !a.UnlockShared? {
        assert u == t || s.at[u].AsleepExclusive?;
        var v :| 0 <= v < |s.at| && (s.at[v].Notifying? || (s.at[v].Checking? && s.held.shared == 0));
        assert s2.at[v] == s.at[v];
      }
    }
    forall u | 0 <= u < |s2.at| && s2.at[u].AsleepShared? && CanShare(s2.held)
      ensures exists v :: 0 <= v < |s2.at| && s2.at[v].Notifying?
    {
      if !a.Unlock? {
        assert s.at[u].AsleepShared?;
        var v :| 0 <= v < |s.at| && s.at[v].Notifying?;
        assert s2.at[v] == s.at[v];
      }
    }
  }

  /** Some thread is there. */
  ghost predicate IsAt(at: seq<Phase>, p: Phase) {
    exists u :: 0 <= u < |at| && at[u] == p
  }

  /** Where the threads are after a move, told by where they were: whoever wants the lock alone gets it if and only
      if no thread has it, whoever wants to share it if and only if no thread has it alone. */
  ghost function Moves(at: seq<Phase>, t: nat, a: Action): seq<Phase>
    requires t < |at|
  {
    match a
    case Lock => at[t := if IsAt(at, Exclusive) || IsAt(at, Sharing) then AsleepExclusive else Exclusive]
    case TryLock => if IsAt(at, Exclusive) || IsAt(at, Sharing) then at else at[t := Exclusive]
    case LockShared => at[t := if IsAt(at, Exclusive) then AsleepShared else Sharing]
    case TryLockShared => if IsAt(at, Exclusive) then at else at[t := Sharing]
    case Unlock => at[t := Notifying]
    case UnlockShared => at[t := Checking]
    case Notify =>
      if at[t] == Notifying || !IsAt(at, Sharing) then NotifyAll(at[t := Away]) else at[t := Away]
    case Wake => at[t := Woken(at[t])]
  }

  lemma {:induction false} CountNone(at: seq<Phase>, p: Phase)
    requires forall u | 0 <= u < |at| :: at[u] != p
    ensures Count(at, p) == 0
  {
    if at != [] {
      CountNone(at[..|at| - 1], p);
    }
  }

  lemma CountSome(at: seq<Phase>, p: Phase)
    ensures Count(at, p) > 0 <==> IsAt(at, p)
  {
    hide Count;
    if IsAt(at, p) {
      var u :| 0 <= u < |at| && at[u] == p;
      CountHas(at, u);
    } else {
      CountNone(at, p);
    }
  }

  /** The two fields decide what the phases of the threads decide: nobody is turned away without need. */
  lemma ActMoves(s: Threads, t: nat, a: Action)
    requires Counted(s) && t < |s.at| && Enabled(s.at[t], a)
    ensures Act(s, t, a).at == Moves(s.at, t, a)
  {
    hide Count, IsAt;
    CountSome(s.at, Exclusive);
    CountSome(s.at, Sharing);
  }

  /** At any time at most one thread holds the lock alone, and then none shares it. */
  lemma Exclusion(s: Threads, t: nat, u: nat)
    requires Valid(s) && t < |s.at| && u < |s.at| && t != u && s.at[t].Exclusive?
    ensures !s.at[u].Exclusive? && !s.at[u].Sharing?
  {
    CountHas(s.at, t);
    if s.at[u].Exclusive? {
      CountTwo(s.at, if t < u then t else u, if t < u then u else t);
    } else if s.at[u].Sharing? {
      CountHas(s.at, u);
    }
  }

  datatype Move = Move(thread: nat, action: Action)

  /** The states of a run that starts with nobody at the lock. */
  ghost predicate Run(s: Threads, moves: seq<Move>, n: nat)
    decreases |moves|
  {
    if moves == [] then s == Threads(Held(false, 0), seq(n, _ => Away)) else
      var last := moves[|moves| - 1];
      exists before :: Run(before, moves[..|moves| - 1], n) && Moved(before, last, s)
  }

  ghost predicate Moved(s: Threads, m: Move, s2: Threads) {
    m.thread < |s.at| && Enabled(s.at[m.thread], m.action) && s2 == Act(s, m.thread, m.action)
  }

  /** Whatever the threads do in whatever order. */
  lemma {:induction false} RunValid(s: Threads, moves: seq<Move>, n: nat)
    requires Run(s, moves, n)
    ensures Valid(s)
    decreases |moves|
  {
    if moves == [] {
      StartsValid(n);
    } else {
      var last := moves[|moves| - 1];
      var before :| Run(before, moves[..|moves| - 1], n) && Moved(before, last, s);
      RunValid(before, moves[..|moves| - 1], n);
      ActKeeps(before, last.thread, last.action);
    }
  }
}
