/**
 * The durable trace-number allocator: several processes run `next` under the
 * lock file, and any of them may fail or crash between any two steps.
 */
module StanAllocator {
  import opened Prelude
  import L = FileLock

  const CYCLE := 999_999

  /** What the operation inside the lock has done so far. */
  datatype Local =
    | Fresh
    | HasRead(last: nat)
    | Prepared(next: nat)
    | Committed(next: nat, index: nat)
    | Failed

  datatype Return = Return(value: nat, index: nat)

  /**
   * The shared state file holds `last`; `commits` is every value ever renamed
   * into it and `returned` every value a call handed out, with its commit.
   */
  datatype World = World(
    locks: L.Locks,
    local: map<L.ProcessId, Local>,
    initial: nat,
    last: nat,
    commits: seq<nat>,
    returned: seq<Return>)

  datatype Action =
    | Lock(a: L.Action)
    | Read(p: L.ProcessId)
    | Prepare(p: L.ProcessId)
    | Rename(p: L.ProcessId)
    | Fail(p: L.ProcessId)

  function LocalOf(w: World, p: L.ProcessId): Local {
    if p in w.local then w.local[p] else Fresh
  }

  function Next(last: nat): nat { last % CYCLE + 1 }

  /** A step outside the lock protocol happens only inside the critical section. */
  function Step(w: World, a: Action): World {
    match a
    case Lock(WriteToken(p)) =>
      if L.PhaseOf(w.locks, p).Created? then
        w.(locks := L.Step(w.locks, a.a), local := w.local[p := Fresh])
      else w
    case Lock(CheckToken(p)) =>
      if LocalOf(w, p).Committed? || LocalOf(w, p).Failed? then w.(locks := L.Step(w.locks, a.a)) else w
    case Lock(Unlink(p)) =>
      var w' := w.(locks := L.Step(w.locks, a.a));
      if L.PhaseOf(w.locks, p).Checked? && LocalOf(w, p).Committed? then
        w'.(returned := w.returned + [Return(LocalOf(w, p).next, LocalOf(w, p).index)])
      else w'
    case Lock(other) => w.(locks := L.Step(w.locks, other))
    case Read(p) =>
      if L.PhaseOf(w.locks, p).Held? && LocalOf(w, p).Fresh? then w.(local := w.local[p := HasRead(w.last)]) else w
    case Prepare(p) =>
      if L.PhaseOf(w.locks, p).Held? && LocalOf(w, p).HasRead? then
        w.(local := w.local[p := Prepared(Next(LocalOf(w, p).last))])
      else w
    case Rename(p) =>
      if L.PhaseOf(w.locks, p).Held? && LocalOf(w, p).Prepared? then
        w.(last := LocalOf(w, p).next,
           commits := w.commits + [LocalOf(w, p).next],
           local := w.local[p := Committed(LocalOf(w, p).next, |w.commits|)])
      else w
    case Fail(p) =>
      if L.PhaseOf(w.locks, p).Held? then w.(local := w.local[p := Failed]) else w
  }

  /** The committed values run through the cycle in order. */
  ghost predicate CommitsInOrder(w: World) {
    && w.last == (if w.commits == [] then w.initial else w.commits[|w.commits| - 1])
    && forall i :: 0 <= i < |w.commits| ==> w.commits[i] == (w.initial + i) % CYCLE + 1
  }

  /** Every returned value is a distinct commit, in commit order. */
  ghost predicate ReturnsAreCommits(w: World) {
    && (forall i :: 0 <= i < |w.returned| ==>
          w.returned[i].index < |w.commits| && w.returned[i].value == w.commits[w.returned[i].index])
    && forall i, j :: 0 <= i < j < |w.returned| ==> w.returned[i].index < w.returned[j].index
  }

  /** What the process inside the lock knows is still true. */
  ghost predicate LocalTrue(w: World, p: L.ProcessId) {
    match LocalOf(w, p)
    case HasRead(last) => last == w.last
    case Prepared(next) => next == Next(w.last)
    case Committed(next, index) =>
      && index == |w.commits| - 1 && next == w.commits[index]
      && forall i :: 0 <= i < |w.returned| ==> w.returned[i].index < index
    case _ => true
  }

  ghost predicate Inv(w: World) {
    && L.Safe(w.locks)
    && CommitsInOrder(w)
    && ReturnsAreCommits(w)
    && forall p :: L.PhaseOf(w.locks, p).Held? || L.PhaseOf(w.locks, p).Checked? ==> LocalTrue(w, p)
  }

  lemma NextInCycle(initial: nat, k: nat)
    requires k > 0
    ensures Next((initial + k - 1) % CYCLE + 1) == (initial + k) % CYCLE + 1
  {
    var m := (initial + k - 1) % CYCLE;
    assert (initial + k) % CYCLE == (m + 1) % CYCLE;
  }

  lemma NextCommit(w: World)
    requires CommitsInOrder(w)
    ensures Next(w.last) == (w.initial + |w.commits|) % CYCLE + 1
  {
    if w.commits != [] { NextInCycle(w.initial, |w.commits|); }
  }

  /** Everyone but the mover knows what it knew. */
  lemma OthersKnow(w: World, a: L.Action, p: L.ProcessId)
    requires Inv(w) && (a.OperatorRemove? || a.p != p)
    requires var locks := L.Step(w.locks, a); L.PhaseOf(locks, p).Held? || L.PhaseOf(locks, p).Checked?
    ensures L.PhaseOf(L.Step(w.locks, a), p) == L.PhaseOf(w.locks, p) && LocalTrue(w, p)
    ensures a.OperatorRemove? || !L.Owns(w.locks, a.p)
  {
    assert L.PhaseOf(L.Step(w.locks, a), p) == L.PhaseOf(w.locks, p);
    if !a.OperatorRemove? { L.MutualExclusion(w.locks, p, a.p); }
  }

  /** Handing out the committed value keeps the returns in commit order. */
  lemma ReturnKeeps(w: World, p: L.ProcessId)
    requires Inv(w) && L.PhaseOf(w.locks, p).Checked? && LocalOf(w, p).Committed?
    ensures ReturnsAreCommits(w.(returned := w.returned + [Return(LocalOf(w, p).next, LocalOf(w, p).index)]))
  {
    assert LocalTrue(w, p);
  }

  lemma LockStepKeeps(w: World, a: L.Action)
    requires Inv(w)
    ensures Inv(Step(w, Lock(a)))
  {
    var w' := Step(w, Lock(a));
    L.StepSafe(w.locks, a);
    if a.Unlink? && L.PhaseOf(w.locks, a.p).Checked? && LocalOf(w, a.p).Committed? { ReturnKeeps(w, a.p); }
    forall p | L.PhaseOf(w'.locks, p).Held? || L.PhaseOf(w'.locks, p).Checked? ensures LocalTrue(w', p) {
      if w' != w && (a.OperatorRemove? || a.p != p) { OthersKnow(w, a, p); }
    }
  }

  lemma StepKeeps(w: World, a: Action)
    requires Inv(w)
    ensures Inv(Step(w, a))
  {
    if a.Lock? {
      LockStepKeeps(w, a.a);
    } else {
      NextCommit(w);
      var w' := Step(w, a);
      forall p | L.PhaseOf(w'.locks, p).Held? || L.PhaseOf(w'.locks, p).Checked? ensures LocalTrue(w', p) {
        if p != a.p {
          L.MutualExclusion(w.locks, p, a.p);
        }
      }
    }
  }

  function Run(w: World, actions: seq<Action>): World
    decreases |actions|
  {
    if actions == [] then w else Run(Step(w, actions[0]), actions[1..])
  }

  lemma {:induction false} RunKeeps(w: World, actions: seq<Action>)
    requires Inv(w)
    ensures Inv(Run(w, actions)) && Run(w, actions).initial == w.initial
    decreases |actions|
  {
    if actions != [] {
      StepKeeps(w, actions[0]);
      RunKeeps(Step(w, actions[0]), actions[1..]);
    }
  }

  /** The state file as some process finds it first; nobody is inside the lock yet. */
  function Start(last: nat): World {
    World(L.Locks(None, map[], 0), map[], last, last, [], [])
  }

  /**
   * After any interleaving, failures and crashes included: at most one process
   * is inside the lock, and two returned values fewer than 999999 commits apart
   * are different.
   */
  lemma TraceNumbersUnique(last: nat, actions: seq<Action>, i: nat, j: nat)
    ensures var w := Run(Start(last), actions);
      && (forall p, q :: L.Owns(w.locks, p) && L.Owns(w.locks, q) ==> p == q)
      && (i < j < |w.returned| ==> w.returned[i].index < w.returned[j].index)
      && (i < j < |w.returned| && w.returned[j].index - w.returned[i].index < CYCLE ==>
            w.returned[i].value != w.returned[j].value)
  {
    RunKeeps(Start(last), actions);
    var w := Run(Start(last), actions);
    forall p, q | L.Owns(w.locks, p) && p != q ensures !L.Owns(w.locks, q) {
      L.MutualExclusion(w.locks, p, q);
    }
    if i < j < |w.returned| && w.returned[j].index - w.returned[i].index < CYCLE {
      CycleDistinct(last, w.returned[i].index, w.returned[j].index);
    }
  }

  lemma CycleDistinct(initial: nat, i: nat, j: nat)
    requires i < j && j - i < CYCLE
    ensures (initial + i) % CYCLE != (initial + j) % CYCLE
  {
    var a, b := initial + i, initial + j;
    assert a == CYCLE * (a / CYCLE) + a % CYCLE && b == CYCLE * (b / CYCLE) + b % CYCLE;
  }

  /** Every committed value is the successor of the one before; a crash can only leave gaps in what was returned. */
  lemma CommitsCycle(last: nat, actions: seq<Action>, i: nat)
    ensures var w := Run(Start(last), actions);
      i < |w.commits| ==>
        && 1 <= w.commits[i] <= CYCLE
        && w.commits[i] == Next(if i == 0 then last else w.commits[i - 1])
  {
    RunKeeps(Start(last), actions);
    if i > 0 { NextInCycle(last, i); }
  }

  // ----- what each step does -----

  /** The step hands the call's committed value out: it unlinks after the check. */
  ghost predicate HandsOut(w: World, a: Action, r: Return) {
    && a.Lock? && a.a.Unlink? && (exists t :: L.PhaseOf(w.locks, a.a.p) == L.Checked(t))
    && LocalOf(w, a.a.p) == Committed(r.value, r.index)
  }

  /** The step renames a new state into place. */
  ghost predicate Puts(w: World, a: Action, next: nat) {
    a.Rename? && (exists t :: L.PhaseOf(w.locks, a.p) == L.Held(t)) && LocalOf(w, a.p) == Prepared(next)
  }

  /** Values are handed out, and the state file moves, at these steps and no others. */
  lemma OutputDecides(w: World, a: Action)
    ensures forall r :: HandsOut(w, a, r) ==> Step(w, a).returned == w.returned + [r]
    ensures (forall r :: !HandsOut(w, a, r)) ==> Step(w, a).returned == w.returned
    ensures forall next :: Puts(w, a, next) ==> Step(w, a).last == next && Step(w, a).commits == w.commits + [next]
    ensures (forall next :: !Puts(w, a, next)) ==> Step(w, a).last == w.last && Step(w, a).commits == w.commits
  {
    if a.Lock? && a.a.Unlink? {
      var p := a.a.p;
      if L.PhaseOf(w.locks, p).Checked? && LocalOf(w, p).Committed? {
        assert L.PhaseOf(w.locks, p) == L.Checked(L.PhaseOf(w.locks, p).token);
        assert HandsOut(w, a, Return(LocalOf(w, p).next, LocalOf(w, p).index));
      }
    }
    if a.Rename? && L.PhaseOf(w.locks, a.p).Held? && LocalOf(w, a.p).Prepared? {
      assert L.PhaseOf(w.locks, a.p) == L.Held(L.PhaseOf(w.locks, a.p).token);
      assert Puts(w, a, LocalOf(w, a.p).next);
    }
  }

  /** What the process inside the lock knows after a step of its own. */
  function Knows(w: World, a: Action): Local
    requires !a.Lock?
  {
    match (a, LocalOf(w, a.p))
    case (Read(_), Fresh) => HasRead(w.last)
    case (Prepare(_), HasRead(last)) => Prepared(last % 999_999 + 1)
    case (Rename(_), Prepared(next)) => Committed(next, |w.commits|)
    case (Fail(_), _) => Failed
    case (_, same) => same
  }

  /** Steps inside need the lock held; writing the token starts afresh; nothing else changes what a process knows. */
  lemma KnowledgeDecides(w: World, a: Action, q: L.ProcessId)
    ensures LocalOf(Step(w, a), q) ==
      if a.Lock? then (if a.a == L.WriteToken(q) && L.PhaseOf(w.locks, q).Created? then Fresh else LocalOf(w, q))
      else if a.p == q && L.PhaseOf(w.locks, q).Held? then Knows(w, a)
      else LocalOf(w, q)
  {}

  /** The lock takes its own steps, except that a call comes to its check only with a new state in place or a failure. */
  lemma LocksDecide(w: World, a: Action)
    requires L.Safe(w.locks)
    ensures Step(w, a).locks ==
      if a.Lock? && (a.a.CheckToken? ==> LocalOf(w, a.a.p) == Failed || exists next, index :: LocalOf(w, a.a.p) == Committed(next, index))
      then L.Step(w.locks, a.a) else w.locks
    ensures Step(w, a).initial == w.initial
  {
    if a.Lock? {
      L.StepDecides(w.locks, a.a);
      if a.a.CheckToken? && LocalOf(w, a.a.p).Committed? {
        assert LocalOf(w, a.a.p) == Committed(LocalOf(w, a.a.p).next, LocalOf(w, a.a.p).index);
      }
    }
  }

  /** A call that has the lock reads, counts on and writes. */
  lemma InsideCommits(w: World, p: L.ProcessId)
    requires L.PhaseOf(w.locks, p).Held? && LocalOf(w, p) == Fresh
    ensures var after := Step(Step(Step(w, Read(p)), Prepare(p)), Rename(p));
      && LocalOf(after, p) == Committed(w.last % 999_999 + 1, |w.commits|) && after.last == w.last % 999_999 + 1
      && after.commits == w.commits + [after.last] && after.returned == w.returned && after.locks == w.locks
  {
    KnowledgeDecides(w, Read(p), p);
    var hasRead := Step(w, Read(p));
    KnowledgeDecides(hasRead, Prepare(p), p);
    var prepared := Step(hasRead, Prepare(p));
    KnowledgeDecides(prepared, Rename(p), p);
  }

  /** Then it leaves with its value, and the lock is free. */
  lemma OutsideReturns(w: World, p: L.ProcessId, r: Return)
    requires Inv(w) && L.PhaseOf(w.locks, p).Held? && LocalOf(w, p) == Committed(r.value, r.index)
    ensures var after := Step(Step(w, Lock(L.CheckToken(p))), Lock(L.Unlink(p)));
      after.returned == w.returned + [r] && after.locks.file == None && L.PhaseOf(after.locks, p) == L.Outside
  {
    var checked := Step(w, Lock(L.CheckToken(p)));
    StepKeeps(w, Lock(L.CheckToken(p)));
    LocksDecide(w, Lock(L.CheckToken(p)));
    L.CheckSucceeds(w.locks, p);
    OutputDecides(w, Lock(L.CheckToken(p)));
    KnowledgeDecides(w, Lock(L.CheckToken(p)), p);
    assert HandsOut(checked, Lock(L.Unlink(p)), r) by {
      assert L.PhaseOf(checked.locks, p) == L.Checked(L.PhaseOf(w.locks, p).token);
    }
    OutputDecides(checked, Lock(L.Unlink(p)));
    LocksDecide(checked, Lock(L.Unlink(p)));
    L.StepDecides(checked.locks, L.Unlink(p));
  }

  /** Where a call inside the lock may raise: reading or writing, or once the new state is in place. */
  datatype Trouble = NoTrouble | BeforeRename | AfterRename

  /**
   * The allocator over its two files: calls run one after another here, each may find
   * the lock taken or raise, and `world` is the run of the protocol that they amount to.
   */
  class DurableStanAllocator {
    var lockFile: Option<L.LockFile>
    var nextToken: nat
    var last: nat
    ghost var world: World

    ghost predicate Valid()
      reads this
    {
      && Inv(world)
      && world.locks.file == lockFile && world.locks.nextToken == nextToken && world.last == last
    }

    constructor (last: nat)
      ensures Valid() && world == Start(last)
    {
      lockFile, nextToken, this.last := None, 0, last;
      world := Start(last);
    }

    ghost method Track(a: Action)
      requires Inv(world)
      modifies this`world
      ensures Inv(world) && world == Step(old(world), a)
    {
      StepKeeps(world, a);
      world := Step(world, a);
    }

    /** Exclusive create with a token of the call's own; a lock file that is there is waited for in vain. */
    method Acquire(p: L.ProcessId) returns (token: Option<nat>)
      requires Valid() && L.PhaseOf(world.locks, p).Outside?
      modifies this
      ensures Valid() && last == old(last)
      ensures world == old(world).(locks := world.locks, local := world.local)
      ensures token.Some? <==> old(lockFile).None?
      ensures token.None? ==> L.PhaseOf(world.locks, p).Outside? && lockFile == old(lockFile)
      ensures token.Some? ==>
        && L.PhaseOf(world.locks, p) == L.Held(token.value) && LocalOf(world, p) == Fresh
        && lockFile == Some(L.LockFile(token.value, true))
    {
      var mine := nextToken;
      nextToken := nextToken + 1;
      Track(Lock(L.Request(p)));
      if lockFile.Some? {
        Track(Lock(L.GiveUp(p)));
        return None;
      }
      lockFile := Some(L.LockFile(mine, false));
      Track(Lock(L.Create(p)));
      lockFile := Some(L.LockFile(mine, true));
      Track(Lock(L.WriteToken(p)));
      return Some(mine);
    }

    /** Removes the lock file iff it still holds the call's token, as it always does. */
    method Release(p: L.ProcessId, token: nat) returns (released: bool)
      requires Valid() && L.PhaseOf(world.locks, p) == L.Held(token)
      requires LocalOf(world, p).Committed? || LocalOf(world, p).Failed?
      modifies this
      ensures Valid() && released && lockFile.None? && last == old(last) && L.PhaseOf(world.locks, p).Outside?
      ensures world.commits == old(world.commits)
      ensures var local := old(LocalOf(world, p));
        world.returned == old(world.returned) + if local.Committed? then [Return(local.next, local.index)] else []
    {
      L.CheckSucceeds(world.locks, p);
      released := lockFile == Some(L.LockFile(token, true));
      Track(Lock(L.CheckToken(p)));
      if released {
        lockFile := None;
        Track(Lock(L.Unlink(p)));
      }
    }

    method WriteState(p: L.ProcessId, next: nat)
      requires Valid() && L.PhaseOf(world.locks, p).Held? && LocalOf(world, p) == HasRead(last) && next == Next(last)
      modifies this`last, this`world
      ensures Valid() && last == next && world.locks == old(world.locks) && world.returned == old(world.returned)
      ensures world.commits == old(world.commits) + [next] && LocalOf(world, p) == Committed(next, |old(world.commits)|)
    {
      Track(Prepare(p));
      last := next;
      Track(Rename(p));
    }

    /** Reads the state, counts on, and renames the new state into place, unless something raises. */
    method ReadAndWrite(p: L.ProcessId, trouble: Trouble) returns (value: Option<nat>)
      requires Valid() && L.PhaseOf(world.locks, p).Held? && LocalOf(world, p) == Fresh
      modifies this
      ensures Valid() && lockFile == old(lockFile) && world.locks == old(world.locks) && world.returned == old(world.returned)
      ensures value == if trouble.NoTrouble? then Some(Next(old(last))) else None
      ensures last == if trouble.BeforeRename? then old(last) else Next(old(last))
      ensures world.commits == old(world.commits) + if trouble.BeforeRename? then [] else [last]
      ensures LocalOf(world, p) == if trouble.NoTrouble? then Committed(last, |old(world.commits)|) else Failed
    {
      if trouble.BeforeRename? {
        Track(Fail(p));
        return None;
      }
      var state := last;
      Track(Read(p));
      var next := state % CYCLE + 1;
      WriteState(p, next);
      if trouble.AfterRename? {
        Track(Fail(p));
        return None;
      }
      return Some(next);
    }

    /**
     * One call: it returns the successor of the state file iff it gets the lock and
     * nothing raises; the state file moves on iff the new state was renamed into place;
     * what is returned is the commit; and the lock file is left as it was found.
     */
    method NextTrace(p: L.ProcessId, trouble: Trouble) returns (value: Option<nat>)
      requires Valid() && L.PhaseOf(world.locks, p).Outside?
      modifies this
      ensures Valid() && lockFile == old(lockFile) && L.PhaseOf(world.locks, p).Outside?
      ensures value == if old(lockFile).None? && trouble.NoTrouble? then Some(Next(old(last))) else None
      ensures last == if old(lockFile).Some? || trouble.BeforeRename? then old(last) else Next(old(last))
      ensures world.commits == old(world.commits) + if old(lockFile).Some? || trouble.BeforeRename? then [] else [last]
      ensures world.returned == old(world.returned) + if value.Some? then [Return(value.value, |old(world.commits)|)] else []
    {
      var token := Acquire(p);
      if token.None? { return None; }
      value := ReadAndWrite(p, trouble);
      var _ := Release(p, token.value);
    }
  }
}
