/** The three locks of a file: any number of processes that read, write and commit. */
module LockProtocols {
  import opened Basics
  import opened SharedLocks
  import Locks

  /** Where a process is. The names tell what it waits for, or what it holds:

      reading: `WaitGate` for the gate, `WaitShared` with the gate for the shared lock, `Entered` with both,
      `Reader` with the shared lock alone. `TryShared` and `TurnedAway` are the same way without waiting.

      writing: `WaitWriter`, `Writer`; from there `WaitCommitGate`, `WaitCommitShared`, `CommitEntered` and
      `Committer`, and `TryCommit` and `CommitTurnedAway` without waiting. All of these but the first hold the
      writer lock. */
  datatype Phase =
    | Out
    | WaitGate | WaitShared | Entered | Reader | TryShared | TurnedAway
    | WaitWriter | Writer
    | WaitCommitGate | WaitCommitShared | CommitEntered | Committer | TryCommit | CommitTurnedAway

  datatype State = State(gate: Held, shared: Held, writer: bool, at: seq<Phase>)

  /** `Go` is the next step on the way a process is on; the others are what a client asks for. */
  datatype Action = Read | TryRead | Write | TryWrite | Commit | TryToCommit | Release | Go

  predicate SharesGate(p: Phase) {
    p.WaitShared? || p.Entered? || p.TryShared? || p.TurnedAway?
  }

  predicate OwnsGate(p: Phase) {
    p.WaitCommitShared? || p.CommitEntered? || p.TryCommit? || p.CommitTurnedAway?
  }

  /** A read lock. */
  predicate Reads(p: Phase) {
    p.Entered? || p.Reader?
  }

  /** A commit lock. */
  predicate Commits(p: Phase) {
    p.CommitEntered? || p.Committer?
  }

  predicate Writes(p: Phase) {
    p.Writer? || p.WaitCommitGate? || p.Committer? || OwnsGate(p)
  }

  predicate Enabled(s: State, t: nat, a: Action)
    requires t < |s.at|
  {
    match a
    case Read => s.at[t].Out?
    case TryRead => s.at[t].Out?
    case Write => s.at[t].Out?
    case TryWrite => s.at[t].Out?
    case Commit => s.at[t].Writer?
    case TryToCommit => s.at[t].Writer?
    case Release => s.at[t].Reader? || s.at[t].Writer? || s.at[t].Committer?
    case Go => CanGo(s, s.at[t])
  }

  /** A process that waits for a lock goes on only when it can have it. */
  predicate CanGo(s: State, p: Phase) {
    match p
    case WaitGate => CanShare(s.gate)
    case WaitShared => CanShare(s.shared)
    case Entered => true
    case TryShared => true
    case TurnedAway => true
    case WaitWriter => !s.writer
    case WaitCommitGate => CanLock(s.gate)
    case WaitCommitShared => CanLock(s.shared)
    case CommitEntered => true
    case TryCommit => true
    case CommitTurnedAway => true
    case _ => false
  }

  function Took(h: Held): Held {
    h.(exclusive := true)
  }

  function Joined(h: Held): Held {
    h.(shared := h.shared + 1)
  }

  function Freed(h: Held): Held {
    h.(exclusive := false)
  }

  function Left(h: Held): Held {
    h.(shared := h.shared - 1)
  }

  function Act(s: State, t: nat, a: Action): State
    requires t < |s.at| && Enabled(s, t, a)
  {
    match a
    case Read => s.(at := s.at[t := WaitGate])
    case TryRead => if CanShare(s.gate) then s.(gate := Joined(s.gate), at := s.at[t := TryShared]) else s
    case Write => s.(at := s.at[t := WaitWriter])
    case TryWrite => if !s.writer then s.(writer := true, at := s.at[t := Writer]) else s
    case Commit => s.(at := s.at[t := WaitCommitGate])
    case TryToCommit => if CanLock(s.gate) then s.(gate := Took(s.gate), at := s.at[t := TryCommit]) else s
    case Release =>
      if s.at[t].Reader? then s.(shared := Left(s.shared), at := s.at[t := Out])
      else if s.at[t].Committer? then s.(shared := Freed(s.shared), at := s.at[t := Writer])
      else s.(writer := false, at := s.at[t := Out])
    case Go => GoOn(s, t)
  }

  function GoOn(s: State, t: nat): State
    requires t < |s.at| && CanGo(s, s.at[t])
  {
    match s.at[t]
    case WaitGate => s.(gate := Joined(s.gate), at := s.at[t := WaitShared])
    case WaitShared => s.(shared := Joined(s.shared), at := s.at[t := Entered])
    case Entered => s.(gate := Left(s.gate), at := s.at[t := Reader])
    case TryShared =>
      if CanShare(s.shared) then s.(shared := Joined(s.shared), at := s.at[t := Entered])
      else s.(at := s.at[t := TurnedAway])
    case TurnedAway => s.(gate := Left(s.gate), at := s.at[t := Out])
    case WaitWriter => s.(writer := true, at := s.at[t := Writer])
    case WaitCommitGate => s.(gate := Took(s.gate), at := s.at[t := WaitCommitShared])
    case WaitCommitShared => s.(shared := Took(s.shared), at := s.at[t := CommitEntered])
    case CommitEntered => s.(gate := Freed(s.gate), at := s.at[t := Committer])
    case TryCommit =>
      if CanLock(s.shared) then s.(shared := Took(s.shared), at := s.at[t := CommitEntered])
      else s.(at := s.at[t := CommitTurnedAway])
    case CommitTurnedAway => s.(gate := Freed(s.gate), at := s.at[t := Writer])
  }

  function Count(at: seq<Phase>, f: Phase -> bool): nat {
    if at == [] then 0 else Count(at[..|at| - 1], f) + if f(at[|at| - 1]) then 1 else 0
  }

  lemma {:induction false} CountUpdate(at: seq<Phase>, t: nat, q: Phase, f: Phase -> bool)
    requires t < |at|
    ensures Count(at[t := q], f) == Count(at, f) - (if f(at[t]) then 1 else 0) + (if f(q) then 1 else 0)
  {
    var n := |at| - 1;
    if t < n {
      CountUpdate(at[..n], t, q, f);
      assert at[t := q][..n] == at[..n][t := q];
    } else {
      assert at[t := q][..n] == at[..n];
    }
  }

  lemma {:induction false} CountHas(at: seq<Phase>, t: nat, f: Phase -> bool)
    requires t < |at| && f(at[t])
    ensures Count(at, f) > 0
  {
    if t < |at| - 1 {
      CountHas(at[..|at| - 1], t, f);
    }
  }

  lemma {:induction false} CountTwo(at: seq<Phase>, t: nat, u: nat, f: Phase -> bool)
    requires t < |at| && u < |at| && t != u && f(at[t]) && f(at[u])
    ensures Count(at, f) > 1
  {
    var n := |at| - 1;
    if t == n {
      CountHas(at[..n], u, f);
    } else if u == n {
      CountHas(at[..n], t, f);
    } else {
      CountTwo(at[..n], t, u, f);
    }
  }

  lemma {:induction false} CountNone(at: seq<Phase>, f: Phase -> bool)
    requires forall t | 0 <= t < |at| :: !f(at[t])
    ensures Count(at, f) == 0
  {
    if at != [] {
      CountNone(at[..|at| - 1], f);
    }
  }

  function Number(b: bool): nat {
    if b then 1 else 0
  }

  /** The locks are held by as many processes as the phases tell. */
  ghost predicate Valid(s: State) {
    && s.gate.shared == Count(s.at, SharesGate) && Count(s.at, OwnsGate) == Number(s.gate.exclusive)
    && s.shared.shared == Count(s.at, Reads) && Count(s.at, Commits) == Number(s.shared.exclusive)
    && Count(s.at, Writes) == Number(s.writer)
    && (s.gate.exclusive ==> s.gate.shared == 0) && (s.shared.exclusive ==> s.shared.shared == 0)
  }

  ghost function Start(n: nat): State {
    State(Held(false, 0), Held(false, 0), false, seq(n, _ => Out))
  }

  lemma StartsValid(n: nat)
    ensures Valid(Start(n))
  {
    var at := Start(n).at;
    CountNone(at, SharesGate);
    CountNone(at, OwnsGate);
    CountNone(at, Reads);
    CountNone(at, Commits);
    CountNone(at, Writes);
  }

  lemma ActKeeps(s: State, t: nat, a: Action)
    requires Valid(s) && t < |s.at| && Enabled(s, t, a)
    ensures Valid(Act(s, t, a)) && |Act(s, t, a).at| == |s.at|
  {
    if a.Go? {
      GoKeeps(s, t);
    } else {
      AskKeeps(s, t, a);
    }
  }

  lemma GoKeeps(s: State, t: nat)
    requires Valid(s) && t < |s.at| && CanGo(s, s.at[t])
    ensures Valid(GoOn(s, t)) && |GoOn(s, t).at| == |s.at|
  {
    hide Count;
    CountsMove(s.at, t, GoOn(s, t).at[t]);
    assert GoOn(s, t).at == s.at[t := GoOn(s, t).at[t]];
  }

  lemma AskKeeps(s: State, t: nat, a: Action)
    requires Valid(s) && t < |s.at| && Enabled(s, t, a) && !a.Go?
    ensures Valid(Act(s, t, a)) && |Act(s, t, a).at| == |s.at|
  {
    hide Count, GoOn;
    CountsMove(s.at, t, Act(s, t, a).at[t]);
    assert Act(s, t, a).at == s.at[t := Act(s, t, a).at[t]];
  }

  lemma CountsMove(at: seq<Phase>, t: nat, q: Phase)
    requires t < |at|
    ensures Count(at[t := q], SharesGate) == Count(at, SharesGate) - Number(SharesGate(at[t])) + Number(SharesGate(q))
    ensures Count(at[t := q], OwnsGate) == Count(at, OwnsGate) - Number(OwnsGate(at[t])) + Number(OwnsGate(q))
    ensures Count(at[t := q], Reads) == Count(at, Reads) - Number(Reads(at[t])) + Number(Reads(q))
    ensures Count(at[t := q], Commits) == Count(at, Commits) - Number(Commits(at[t])) + Number(Commits(q))
    ensures Count(at[t := q], Writes) == Count(at, Writes) - Number(Writes(at[t])) + Number(Writes(q))
  {
    hide Count;
    CountUpdate(at, t, q, SharesGate);
    CountUpdate(at, t, q, OwnsGate);
    CountUpdate(at, t, q, Reads);
    CountUpdate(at, t, q, Commits);
    CountUpdate(at, t, q, Writes);
  }

  // ------------------------------------------------------------------ safety

  /** At most one process has the writer lock. A commit lock belongs to it and excludes all read locks. */
  lemma Safe(s: State, t: nat, u: nat)
    requires Valid(s) && t < |s.at| && u < |s.at| && t != u
    ensures Writes(s.at[t]) ==> !Writes(s.at[u])
    ensures Commits(s.at[t]) ==> Writes(s.at[t]) && !Reads(s.at[u]) && !Commits(s.at[u])
  {
    if Writes(s.at[t]) && Writes(s.at[u]) {
      CountTwo(s.at, t, u, Writes);
    }
    if Commits(s.at[t]) {
      CountHas(s.at, t, Commits);
      if Reads(s.at[u]) {
        CountHas(s.at, u, Reads);
      }
    }
  }

  datatype Step = Step(process: nat, action: Action)

  ghost predicate Moved(s: State, m: Step, s2: State) {
    m.process < |s.at| && Enabled(s, m.process, m.action) && s2 == Act(s, m.process, m.action)
  }

  /** Every way `states[0]` can go on, whoever acts when. */
  ghost predicate Run(states: seq<State>, steps: seq<Step>) {
    |states| == |steps| + 1 && forall i | 0 <= i < |steps| :: Moved(states[i], steps[i], states[i + 1])
  }

  lemma {:induction false} RunValid(states: seq<State>, steps: seq<Step>, i: nat)
    requires Run(states, steps) && i < |states| && Valid(states[0])
    ensures Valid(states[i]) && |states[i].at| == |states[0].at|
  {
    if i > 0 {
      RunValid(states, steps, i - 1);
      assert Moved(states[i - 1], steps[i - 1], states[i]);
      ActKeeps(states[i - 1], steps[i - 1].process, steps[i - 1].action);
    }
  }

  /** From the start, through any interleaving: one writer, and commits are alone. */
  lemma RunSafe(n: nat, states: seq<State>, steps: seq<Step>, i: nat, t: nat, u: nat)
    requires Run(states, steps) && states[0] == Start(n) && i < |states| && t < n && u < n && t != u
    ensures |states[i].at| == n
    ensures Writes(states[i].at[t]) ==> !Writes(states[i].at[u])
    ensures Commits(states[i].at[t]) ==> Writes(states[i].at[t]) && !Reads(states[i].at[u]) && !Commits(states[i].at[u])
  {
    StartsValid(n);
    RunValid(states, steps, i);
    Safe(states[i], t, u);
  }

  // ------------------------------------------------------------------ who gets in

  /** No process is in such a phase. */
  ghost predicate Nobody(at: seq<Phase>, f: Phase -> bool) {
    forall u | 0 <= u < |at| :: !f(at[u])
  }

  /** What a process that waits waits for, told by the phases of all: who reads waits for committers only, who writes
      for writers only, and who commits for readers, those on their way through the gate, and no one else. */
  ghost predicate MayGo(at: seq<Phase>, p: Phase) {
    match p
    case WaitGate => Nobody(at, OwnsGate)
    case WaitShared => Nobody(at, Commits)
    case WaitWriter => Nobody(at, Writes)
    case WaitCommitGate => Nobody(at, SharesGate) && Nobody(at, OwnsGate)
    case WaitCommitShared => Nobody(at, Reads) && Nobody(at, Commits)
    case _ => !(p.Out? || p.Reader? || p.Writer? || p.Committer?)
  }

  /** Where a process is after it went on. */
  ghost function Next(at: seq<Phase>, p: Phase): Phase {
    match p
    case WaitGate => WaitShared
    case WaitShared => Entered
    case Entered => Reader
    case TryShared => if Nobody(at, Commits) then Entered else TurnedAway
    case TurnedAway => Out
    case WaitWriter => Writer
    case WaitCommitGate => WaitCommitShared
    case WaitCommitShared => CommitEntered
    case CommitEntered => Committer
    case TryCommit => if Nobody(at, Reads) && Nobody(at, Commits) then CommitEntered else CommitTurnedAway
    case CommitTurnedAway => Writer
    case _ => p
  }

  /** What a client may ask for, and where it is then. */
  ghost predicate MayAsk(p: Phase, a: Action) {
    match a
    case Read => p.Out?
    case TryRead => p.Out?
    case Write => p.Out?
    case TryWrite => p.Out?
    case Commit => p.Writer?
    case TryToCommit => p.Writer?
    case Release => p.Reader? || p.Writer? || p.Committer?
    case Go => false
  }

  ghost function Asked(at: seq<Phase>, p: Phase, a: Action): Phase {
    match a
    case Read => WaitGate
    case TryRead => if Nobody(at, OwnsGate) then TryShared else p
    case Write => WaitWriter
    case TryWrite => if Nobody(at, Writes) then Writer else p
    case Commit => WaitCommitGate
    case TryToCommit => if Nobody(at, SharesGate) && Nobody(at, OwnsGate) then TryCommit else p
    case Release => if p.Committer? then Writer else Out
    case Go => p
  }

  lemma CountSome(at: seq<Phase>, f: Phase -> bool)
    ensures Count(at, f) == 0 <==> Nobody(at, f)
  {
    hide Count;
    if Nobody(at, f) {
      CountNone(at, f);
    } else {
      var u :| 0 <= u < |at| && f(at[u]);
      CountHas(at, u, f);
    }
  }

  /** The counters of the locks tell who has them. */
  lemma HeldIs(s: State)
    requires Valid(s)
    ensures CanShare(s.gate) <==> Nobody(s.at, OwnsGate)
    ensures CanLock(s.gate) <==> Nobody(s.at, SharesGate) && Nobody(s.at, OwnsGate)
    ensures CanShare(s.shared) <==> Nobody(s.at, Commits)
    ensures CanLock(s.shared) <==> Nobody(s.at, Reads) && Nobody(s.at, Commits)
    ensures !s.writer <==> Nobody(s.at, Writes)
  {
    hide Count, Nobody;
    CountSome(s.at, OwnsGate);
    CountSome(s.at, SharesGate);
    CountSome(s.at, Commits);
    CountSome(s.at, Reads);
    CountSome(s.at, Writes);
  }

  /** The machine with its locks does just what the phases allow: nobody is kept out without need, and nobody gets in
      who must not. */
  lemma ActByPhases(s: State, t: nat, a: Action)
    requires Valid(s) && t < |s.at|
    ensures Enabled(s, t, a) <==> if a.Go? then MayGo(s.at, s.at[t]) else MayAsk(s.at[t], a)
    ensures Enabled(s, t, a) ==>
              Act(s, t, a).at == s.at[t := if a.Go? then Next(s.at, s.at[t]) else Asked(s.at, s.at[t], a)]
  {
    hide Count, Nobody;
    HeldIs(s);
    if a.Go? && CanGo(s, s.at[t]) {
      GoByPhases(s, t);
    }
    assert s.at[t := s.at[t]] == s.at;
  }

  lemma GoByPhases(s: State, t: nat)
    requires Valid(s) && t < |s.at| && CanGo(s, s.at[t])
    ensures GoOn(s, t).at == s.at[t := Next(s.at, s.at[t])]
  {
    hide Count, Nobody;
    HeldIs(s);
  }

  /** Process `t` takes these steps, and no other process moves meanwhile. */
  ghost predicate Leads(s: State, t: nat, actions: seq<Action>, s2: State)
    requires t < |s.at|
    decreases |actions|
  {
    if actions == [] then s2 == s else
      Enabled(s, t, actions[0]) && |Act(s, t, actions[0]).at| == |s.at|
      && Leads(Act(s, t, actions[0]), t, actions[1..], s2)
  }

  lemma OneStep(s: State, t: nat, a: Action, rest: seq<Action>, s2: State)
    requires Valid(s) && t < |s.at| && Enabled(s, t, a)
    requires |Act(s, t, a).at| == |s.at| ==> Leads(Act(s, t, a), t, rest, s2)
    ensures Leads(s, t, [a] + rest, s2) && Valid(Act(s, t, a)) && |Act(s, t, a).at| == |s.at|
  {
    hide Valid;
    ActKeeps(s, t, a);
    assert ([a] + rest)[1..] == rest;
  }

  lemma NoStep(s: State, t: nat)
    requires t < |s.at|
    ensures Leads(s, t, [], s)
  {
  }

  /** Where nobody commits nor holds the gate to commit, whoever reads or writes, a process that asks to read has its
      read lock after its own steps, and the gate is as it was. */
  lemma ReadsAtOnce(s: State, t: nat)
    requires Valid(s) && t < |s.at| && s.at[t].Out? && Nobody(s.at, OwnsGate) && Nobody(s.at, Commits)
    ensures var s2 := s.(shared := Joined(s.shared), at := s.at[t := Reader]);
      Valid(s2) && Leads(s, t, [Read, Go, Go, Go], s2) && Leads(s, t, [TryRead, Go, Go], s2)
  {
    hide Count, Nobody, Valid, Leads;
    HeldIs(s);
    var s2 := s.(shared := Joined(s.shared), at := s.at[t := Reader]);
    var a := Act(s, t, Read);
    ActKeeps(s, t, Read);
    var b := Act(a, t, Go);
    ActKeeps(a, t, Go);
    var c := Act(b, t, Go);
    ActKeeps(b, t, Go);
    var b2 := Act(s, t, TryRead);
    ActKeeps(s, t, TryRead);
    ActKeeps(c, t, Go);
    assert Act(c, t, Go) == s2 && Act(b2, t, Go) == c;
    assert [Go] + [] == [Go] && [Go] + [Go] == [Go, Go] && [Go] + [Go, Go] == [Go, Go, Go];
    assert [Read] + [Go, Go, Go] == [Read, Go, Go, Go] && [TryRead] + [Go, Go] == [TryRead, Go, Go];
    NoStep(s2, t);
    OneStep(c, t, Go, [], s2);
    OneStep(b, t, Go, [Go], s2);
    OneStep(b2, t, Go, [Go], s2);
    OneStep(a, t, Go, [Go, Go], s2);
    OneStep(s, t, Read, [Go, Go, Go], s2);
    OneStep(s, t, TryRead, [Go, Go], s2);
  }

  lemma {:induction false} Extend(states: seq<State>, steps: seq<Step>, t: nat, actions: seq<Action>, s2: State)
      returns (states2: seq<State>, steps2: seq<Step>)
    requires Run(states, steps) && t < |states[|steps|].at| && Leads(states[|steps|], t, actions, s2)
    ensures Run(states2, steps2) && states2[0] == states[0] && states2[|steps2|] == s2
    decreases |actions|
  {
    if actions == [] {
      return states, steps;
    }
    var m := Step(t, actions[0]);
    var next := Act(states[|steps|], t, actions[0]);
    var all, ms := states + [next], steps + [m];
    forall i | 0 <= i < |ms| ensures Moved(all[i], ms[i], all[i + 1]) {
      if i < |steps| {
        assert Moved(states[i], steps[i], states[i + 1]);
      }
    }
    states2, steps2 := Extend(all, ms, t, actions[1..], s2);
  }

  /** One writes and `n` read, all at the same time, for every `n`. */
  lemma AllAtOnce(n: nat) returns (states: seq<State>, steps: seq<Step>)
    ensures Run(states, steps) && states[0] == Start(n + 1)
    ensures states[|steps|].at == seq(n, _ => Reader) + [Writer]
  {
    hide Count, Valid, Leads, Run, Nobody;
    StartsValid(n + 1);
    states, steps := [Start(n + 1)], [];
    assert Run(states, steps) by {
      NoSteps(Start(n + 1));
    }
    var s := WriterIn(Start(n + 1), n);
    states, steps := Extend(states, steps, n, [Write, Go], s);
    var k := 0;
    while k < n
      invariant k <= n && Run(states, steps) && |states| == |steps| + 1 && states[0] == Start(n + 1)
      invariant states[|steps|] == s && Valid(s)
      invariant s.at == seq(k, _ => Reader) + seq(n - k, _ => Out) + [Writer]
    {
      NoCommitter(s, k, n);
      ReadsAtOnce(s, k);
      var s2 := s.(shared := Joined(s.shared), at := s.at[k := Reader]);
      assert s2.at == seq(k + 1, _ => Reader) + seq(n - k - 1, _ => Out) + [Writer];
      states, steps := Extend(states, steps, k, [Read, Go, Go, Go], s2);
      RunLength(states, steps);
      s, k := s2, k + 1;
    }
    assert s.at == seq(n, _ => Reader) + [Writer];
  }

  lemma NoSteps(s: State)
    ensures Run([s], [])
  {
  }

  lemma RunLength(states: seq<State>, steps: seq<Step>)
    requires Run(states, steps)
    ensures |states| == |steps| + 1
  {
  }

  lemma NoCommitter(s: State, k: nat, n: nat)
    requires k <= n && s.at == seq(k, _ => Reader) + seq(n - k, _ => Out) + [Writer]
    ensures Nobody(s.at, OwnsGate) && Nobody(s.at, Commits)
  {
    forall u | 0 <= u < |s.at| ensures !OwnsGate(s.at[u]) && !Commits(s.at[u]) {
      assert s.at[u].Reader? || s.at[u].Out? || s.at[u].Writer?;
    }
  }

  lemma WriterIn(s: State, n: nat) returns (s2: State)
    requires s == Start(n + 1) && Valid(s)
    ensures Leads(s, n, [Write, Go], s2) && Valid(s2)
    ensures s2.at == seq(0, _ => Reader) + seq(n, _ => Out) + [Writer]
  {
    hide Count, Valid, Leads;
    var a := Act(s, n, Write);
    ActKeeps(s, n, Write);
    s2 := Act(a, n, Go);
    ActKeeps(a, n, Go);
    assert s2.at == seq(0, _ => Reader) + seq(n, _ => Out) + [Writer];
    assert [Go] + [] == [Go] && [Write] + [Go] == [Write, Go];
    NoStep(s2, n);
    OneStep(a, n, Go, [], s2);
    OneStep(s, n, Write, [Go], s2);
  }

  // ------------------------------------------------------------------ the forms that do not wait

  /** The locks are held as the machine says. */
  ghost predicate Same(l: Locks.LockProtocol, s: State)
    reads l, l.gate, l.shared, l.writer
  {
    l.Valid() && l.gate.Now() == s.gate && l.shared.Now() == s.shared && l.writer.Now() == Held(s.writer, 0)
  }

  /** A reader that does not wait: in the machine it takes its steps in one go. It is turned away if and only if some
      process commits or holds the gate to commit. */
  method ReadTried(l: Locks.LockProtocol, ghost s: State, ghost t: nat)
    returns (r: Option<Locks.Lock>, ghost s2: State)
    requires Same(l, s) && Valid(s) && t < |s.at| && s.at[t].Out?
    modifies l.gate, l.shared
    ensures Same(l, s2) && Valid(s2) && s2.at == s.at[t := if r.Some? then Reader else Out]
    ensures r.Some? <==> Nobody(s.at, OwnsGate) && Nobody(s.at, Commits)
    ensures Leads(s, t, if Nobody(s.at, OwnsGate) then [TryRead, Go, Go] else [TryRead], s2)
  {
    hide Count, Nobody, Valid, Leads;
    HeldIs(s);
    r := l.TryReadAccess();
    if r.Some? {
      s2 := s.(shared := Joined(s.shared), at := s.at[t := Reader]);
      ReadsAtOnce(s, t);
    } else {
      s2 := s;
      assert s.at[t := Out] == s.at;
      ReaderTurnedAway(s, t);
    }
  }

  lemma ReaderTurnedAway(s: State, t: nat)
    requires Valid(s) && t < |s.at| && s.at[t].Out? && !(Nobody(s.at, OwnsGate) && Nobody(s.at, Commits))
    ensures Leads(s, t, if Nobody(s.at, OwnsGate) then [TryRead, Go, Go] else [TryRead], s)
  {
    hide Count, Nobody, Valid, Leads;
    HeldIs(s);
    NoStep(s, t);
    assert [TryRead] + [] == [TryRead];
    ActKeeps(s, t, TryRead);
    if Nobody(s.at, OwnsGate) {
      var a := Act(s, t, TryRead);
      ActKeeps(a, t, Go);
      var b := Act(a, t, Go);
      ActKeeps(b, t, Go);
      assert Act(b, t, Go) == s by {
        assert Act(b, t, Go).at == s.at;
      }
      assert [Go] + [] == [Go] && [Go] + [Go] == [Go, Go] && [TryRead] + [Go, Go] == [TryRead, Go, Go];
      OneStep(b, t, Go, [], s);
      OneStep(a, t, Go, [Go], s);
      OneStep(s, t, TryRead, [Go, Go], s);
    } else {
      OneStep(s, t, TryRead, [], s);
    }
  }

  method WriteTried(l: Locks.LockProtocol, ghost s: State, ghost t: nat)
    returns (r: Option<Locks.Lock>, ghost s2: State)
    requires Same(l, s) && Valid(s) && t < |s.at| && s.at[t].Out?
    modifies l.writer
    ensures Same(l, s2) && Valid(s2) && s2.at == s.at[t := if r.Some? then Writer else Out]
    ensures (r.Some? <==> Nobody(s.at, Writes)) && Leads(s, t, [TryWrite], s2)
  {
    hide Count, Nobody, Valid, Leads;
    HeldIs(s);
    r := l.TryWriteAccess();
    s2 := Act(s, t, TryWrite);
    ActKeeps(s, t, TryWrite);
    NoStep(s2, t);
    assert [TryWrite] + [] == [TryWrite];
    OneStep(s, t, TryWrite, [], s2);
    assert s.at[t := Out] == s.at;
  }

  /** A writer that wants to commit without waiting does so if and only if nobody reads or is about to. */
  method CommitTried(l: Locks.LockProtocol, writeLock: Locks.Lock, ghost s: State, ghost t: nat)
    returns (r: Locks.CommitResult, ghost s2: State)
    requires Same(l, s) && Valid(s) && t < |s.at| && s.at[t].Writer?
    requires writeLock.Valid() && writeLock.mutex == l.writer && !writeLock.sharing
    modifies l.gate, l.shared, writeLock
    ensures Same(l, s2) && Valid(s2) && !r.Incompatible?
    ensures s2.at == s.at[t := if r.Granted? then Committer else Writer]
    ensures r.Granted? <==> Nobody(s.at, SharesGate) && Nobody(s.at, Reads)
    ensures Leads(s, t, if Nobody(s.at, SharesGate) then [TryToCommit, Go, Go] else [TryToCommit], s2)
  {
    hide Count, Nobody, Valid, Leads;
    HeldIs(s);
    OnlyWriter(s, t);
    r := l.TryCommitAccess(writeLock);
    s2 := TriedToCommit(s, t);
  }

  lemma OnlyWriter(s: State, t: nat)
    requires Valid(s) && t < |s.at| && s.at[t].Writer?
    ensures Nobody(s.at, OwnsGate) && Nobody(s.at, Commits)
  {
    forall u | 0 <= u < |s.at| ensures !OwnsGate(s.at[u]) && !Commits(s.at[u]) {
      if u != t {
        Safe(s, t, u);
        Safe(s, u, t);
      }
    }
  }

  lemma TriedToCommit(s: State, t: nat) returns (s2: State)
    requires Valid(s) && t < |s.at| && s.at[t].Writer?
    ensures var ok := Nobody(s.at, SharesGate) && Nobody(s.at, Reads);
      && Valid(s2) && s2 == s.(shared := if ok then Held(true, 0) else s.shared,
                               at := s.at[t := if ok then Committer else Writer])
      && Leads(s, t, if Nobody(s.at, SharesGate) then [TryToCommit, Go, Go] else [TryToCommit], s2)
  {
    hide Count, Nobody, Leads;
    HeldIs(s);
    OnlyWriter(s, t);
    ActKeeps(s, t, TryToCommit);
    assert s.at[t := Writer] == s.at && [TryToCommit] + [] == [TryToCommit];
    var a := Act(s, t, TryToCommit);
    if Nobody(s.at, SharesGate) {
      ActKeeps(a, t, Go);
      var b := Act(a, t, Go);
      ActKeeps(b, t, Go);
      s2 := Act(b, t, Go);
      NoStep(s2, t);
      assert [Go] + [] == [Go] && [Go] + [Go] == [Go, Go] && [TryToCommit] + [Go, Go] == [TryToCommit, Go, Go];
      OneStep(b, t, Go, [], s2);
      OneStep(a, t, Go, [Go], s2);
      OneStep(s, t, TryToCommit, [Go, Go], s2);
    } else {
      s2 := s;
      NoStep(s, t);
      OneStep(s, t, TryToCommit, [], s);
    }
  }

  // ------------------------------------------------------------------ the gate

  /** While a process that wants to commit holds the gate nobody new reads. */
  lemma GateHolds(s: State, t: nat, a: Action, c: nat)
    requires Valid(s) && t < |s.at| && Enabled(s, t, a) && c < |s.at| && OwnsGate(s.at[c])
    ensures Act(s, t, a).shared.shared <= s.shared.shared
    ensures forall u | 0 <= u < |s.at| && Reads(Act(s, t, a).at[u]) :: Reads(s.at[u])
  {
    hide Count;
    CountHas(s.at, c, OwnsGate);
    if SharesGate(s.at[t]) {
      CountHas(s.at, t, SharesGate);
    }
  }

  /** The writer is not overtaken: from the moment it holds the gate until it commits or gives up, no process
      gets a read lock that had none. */
  lemma {:induction false} NotOvertaken(states: seq<State>, steps: seq<Step>, c: nat, i: nat, u: nat)
    requires Run(states, steps) && Valid(states[0]) && c < |states[0].at| && i < |states| && u < |states[0].at|
    requires forall k | 0 <= k < i :: c < |states[k].at| && OwnsGate(states[k].at[c])
    ensures |states[i].at| == |states[0].at|
    ensures Reads(states[i].at[u]) ==> Reads(states[0].at[u])
    ensures states[i].shared.shared <= states[0].shared.shared
  {
    if i > 0 {
      NotOvertaken(states, steps, c, i - 1, u);
      RunValid(states, steps, i - 1);
      var before, m := states[i - 1], steps[i - 1];
      assert Moved(before, m, states[i]) && OwnsGate(before.at[c]);
      ActKeeps(before, m.process, m.action);
      GateHolds(before, m.process, m.action, c);
    }
  }

  // ------------------------------------------------------------------ nobody is stuck

  /** What a process does when no client asks for anything new: go on, and give back what it has. */
  predicate Finishing(a: Action) {
    a.Go? || a.Release?
  }

  function Distance(p: Phase): nat {
    match p
    case Out => 0
    case Reader => 1
    case Entered => 2
    case TurnedAway => 1
    case WaitShared => 3
    case TryShared => 3
    case WaitGate => 4
    case Writer => 1
    case WaitWriter => 2
    case Committer => 2
    case CommitEntered => 3
    case CommitTurnedAway => 2
    case WaitCommitShared => 4
    case TryCommit => 4
    case WaitCommitGate => 5
  }

  function Total(at: seq<Phase>): nat {
    if at == [] then 0 else Total(at[..|at| - 1]) + Distance(at[|at| - 1])
  }

  lemma {:induction false} TotalUpdate(at: seq<Phase>, t: nat, q: Phase)
    requires t < |at|
    ensures Total(at[t := q]) == Total(at) - Distance(at[t]) + Distance(q)
  {
    var n := |at| - 1;
    if t < n {
      TotalUpdate(at[..n], t, q);
      assert at[t := q][..n] == at[..n][t := q];
    } else {
      assert at[t := q][..n] == at[..n];
    }
  }

  /** Each step of that kind brings the end closer. */
  lemma Closer(s: State, t: nat, a: Action)
    requires t < |s.at| && Enabled(s, t, a) && Finishing(a)
    ensures Total(Act(s, t, a).at) < Total(s.at)
  {
    var q := Act(s, t, a).at[t];
    assert Act(s, t, a).at == s.at[t := q];
    TotalUpdate(s.at, t, q);
  }

  /** As long as some process wants or has anything there is such a step. */
  lemma SomeoneCan(s: State, w: nat) returns (t: nat, a: Action)
    requires Valid(s) && w < |s.at| && !s.at[w].Out?
    ensures t < |s.at| && Finishing(a) && Enabled(s, t, a)
  {
    hide Count;
    if v :| 0 <= v < |s.at| && CanGo(s, s.at[v]) {
      return v, Go;
    }
    if v :| 0 <= v < |s.at| && (s.at[v].Reader? || s.at[v].Writer? || s.at[v].Committer?) {
      return v, Release;
    }
    assert forall v | 0 <= v < |s.at| ::
           !CanGo(s, s.at[v]) && !(s.at[v].Reader? || s.at[v].Writer? || s.at[v].Committer?);
    CountNone(s.at, Reads);
    CountNone(s.at, Commits);
    assert forall v | 0 <= v < |s.at| :: !s.at[v].WaitShared? && !s.at[v].WaitCommitShared?;
    CountNone(s.at, SharesGate);
    CountNone(s.at, OwnsGate);
    assert forall v | 0 <= v < |s.at| :: !s.at[v].WaitCommitGate?;
    CountNone(s.at, Writes);
    assert false;
  }

  /** So every process that waits gets what it waits for and is done in the end, in whatever order the steps
      are taken: a run of such steps that cannot be continued ends with everyone out. */
  lemma NoneStuck(states: seq<State>, steps: seq<Step>)
    requires Run(states, steps) && Valid(states[0]) && forall i | 0 <= i < |steps| :: Finishing(steps[i].action)
    ensures |steps| <= Total(states[0].at)
    ensures var last := states[|steps|];
      (forall m: Step | m.process < |last.at| && Finishing(m.action) :: !Enabled(last, m.process, m.action))
      <==> (forall t | 0 <= t < |last.at| :: last.at[t].Out?)
  {
    RunShrinks(states, steps, |steps|);
    RunValid(states, steps, |steps|);
    var last := states[|steps|];
    if w :| 0 <= w < |last.at| && !last.at[w].Out? {
      var t, a := SomeoneCan(last, w);
      assert Enabled(last, Step(t, a).process, Step(t, a).action);
    }
  }

  lemma {:induction false} RunShrinks(states: seq<State>, steps: seq<Step>, i: nat)
    requires Run(states, steps) && i <= |steps| && forall k | 0 <= k < |steps| :: Finishing(steps[k].action)
    ensures Total(states[i].at) + i <= Total(states[0].at)
  {
    if i > 0 {
      RunShrinks(states, steps, i - 1);
      assert Moved(states[i - 1], steps[i - 1], states[i]) && Finishing(steps[i - 1].action);
      Closer(states[i - 1], steps[i - 1].process, steps[i - 1].action);
    }
  }
}
