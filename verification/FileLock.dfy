/**
 * The exclusive-create lock file as a state machine over the steps of
 * `withFileLock`: processes interleave, fail and crash between any two steps.
 */
module FileLock {
  import opened Prelude

  type ProcessId = nat

  /** Where one call of `withFileLock` stands. Each call draws its own token. */
  datatype Phase =
    | Outside
    | Waiting(token: nat)
    | Created(token: nat)
    | Held(token: nat)
    | Checked(token: nat)
    | Crashed

  /** The lock file: who created it, and whether the token has been written into it. */
  datatype LockFile = LockFile(token: nat, written: bool)

  datatype Locks = Locks(file: Option<LockFile>, phases: map<ProcessId, Phase>, nextToken: nat)

  datatype Action =
    | Request(p: ProcessId)
    | Create(p: ProcessId)
    | GiveUp(p: ProcessId)
    | WriteToken(p: ProcessId)
    | WriteFails(p: ProcessId)
    | CheckToken(p: ProcessId)
    | Unlink(p: ProcessId)
    | UnlinkFails(p: ProcessId)
    | Crash(p: ProcessId)
    | Restart(p: ProcessId)
    | OperatorRemove

  function PhaseOf(l: Locks, p: ProcessId): Phase {
    if p in l.phases then l.phases[p] else Outside
  }

  function At(l: Locks, p: ProcessId, phase: Phase): Locks {
    l.(phases := l.phases[p := phase])
  }

  /** Between the exclusive create and the unlink. */
  predicate Owns(l: Locks, p: ProcessId) {
    PhaseOf(l, p).Created? || PhaseOf(l, p).Held? || PhaseOf(l, p).Checked?
  }

  predicate HasToken(l: Locks, p: ProcessId) {
    Owns(l, p) || PhaseOf(l, p).Waiting?
  }

  /** An operator removes only a lock whose creating call is gone. */
  predicate Abandoned(l: Locks) {
    l.file.Some? && forall p :: p in l.phases && Owns(l, p) ==> l.phases[p].token != l.file.value.token
  }

  /** One step; a step that is not enabled changes nothing (the retry loop). */
  function Step(l: Locks, a: Action): Locks {
    match a
    case Request(p) =>
      if PhaseOf(l, p).Outside? then At(l, p, Waiting(l.nextToken)).(nextToken := l.nextToken + 1) else l
    case Create(p) =>
      if PhaseOf(l, p).Waiting? && l.file.None? then
        At(l, p, Created(PhaseOf(l, p).token)).(file := Some(LockFile(PhaseOf(l, p).token, false)))
      else l
    case GiveUp(p) => if PhaseOf(l, p).Waiting? then At(l, p, Outside) else l
    case WriteToken(p) =>
      if PhaseOf(l, p).Created? && l.file.Some? then
        At(l, p, Held(PhaseOf(l, p).token)).(file := Some(l.file.value.(written := true)))
      else l
    case WriteFails(p) => if PhaseOf(l, p).Created? then At(l, p, Outside) else l
    case CheckToken(p) =>
      if !PhaseOf(l, p).Held? then l
      else if l.file == Some(LockFile(PhaseOf(l, p).token, true)) then At(l, p, Checked(PhaseOf(l, p).token))
      else At(l, p, Outside)
    case Unlink(p) => if PhaseOf(l, p).Checked? then At(l, p, Outside).(file := None) else l
    case UnlinkFails(p) => if PhaseOf(l, p).Checked? then At(l, p, Outside) else l
    case Crash(p) => At(l, p, Crashed)
    case Restart(p) => if PhaseOf(l, p).Crashed? then At(l, p, Outside) else l
    case OperatorRemove => if Abandoned(l) then l.(file := None) else l
  }

  /** Tokens are unique, and an owner's token is the one in the lock file. */
  ghost predicate Safe(l: Locks) {
    && (forall p :: HasToken(l, p) ==> PhaseOf(l, p).token < l.nextToken)
    && (forall p, q :: HasToken(l, p) && HasToken(l, q) && PhaseOf(l, p).token == PhaseOf(l, q).token ==> p == q)
    && (l.file.Some? ==> l.file.value.token < l.nextToken)
    && (forall p :: Owns(l, p) ==> l.file == Some(LockFile(PhaseOf(l, p).token, !PhaseOf(l, p).Created?)))
    && (l.file.Some? ==> forall p :: PhaseOf(l, p).Waiting? ==> PhaseOf(l, p).token != l.file.value.token)
  }

  /** Everything but the phase of `p` is read alike in both. */
  ghost predicate OthersSame(l: Locks, l': Locks, p: ProcessId) {
    forall q :: q != p ==> PhaseOf(l', q) == PhaseOf(l, q)
  }

  lemma MoveOthers(l: Locks, p: ProcessId, phase: Phase, file: Option<LockFile>, nextToken: nat)
    ensures var l' := Locks(file, l.phases[p := phase], nextToken);
      OthersSame(l, l', p) && PhaseOf(l', p) == phase
  {}

  /** A call that stops waiting or owning; the file stays, or goes with its owner. */
  lemma LeaveSafe(l: Locks, p: ProcessId, phase: Phase, file: Option<LockFile>)
    requires Safe(l) && (phase.Outside? || phase.Crashed?)
    requires file == l.file || (file.None? && Owns(l, p))
    ensures Safe(Locks(file, l.phases[p := phase], l.nextToken))
  {
    var l' := Locks(file, l.phases[p := phase], l.nextToken);
    MoveOthers(l, p, phase, file, l.nextToken);
    assert forall q :: Owns(l', q) ==> Owns(l, q) && q != p;
    assert forall q :: HasToken(l', q) ==> HasToken(l, q) && q != p;
  }

  lemma RequestSafe(l: Locks, p: ProcessId)
    requires Safe(l) && PhaseOf(l, p).Outside?
    ensures Safe(Step(l, Request(p)))
  {
    var l' := Step(l, Request(p));
    MoveOthers(l, p, Waiting(l.nextToken), l.file, l.nextToken + 1);
    assert forall q :: Owns(l', q) ==> Owns(l, q) && q != p;
    assert forall q :: HasToken(l', q) ==> q == p || HasToken(l, q);
  }

  lemma CreateSafe(l: Locks, p: ProcessId)
    requires Safe(l) && PhaseOf(l, p).Waiting? && l.file.None?
    ensures Safe(Step(l, Create(p)))
  {
    var l' := Step(l, Create(p));
    var t := PhaseOf(l, p).token;
    MoveOthers(l, p, Created(t), Some(LockFile(t, false)), l.nextToken);
    assert forall q :: Owns(l', q) ==> q == p;
    assert forall q :: HasToken(l', q) ==> HasToken(l, q) && PhaseOf(l', q).token == PhaseOf(l, q).token;
  }

  /** The owner writes its token, or finds it again. */
  lemma OwnerMoves(l: Locks, p: ProcessId, phase: Phase)
    requires Safe(l) && Owns(l, p)
    requires (phase.Held? || phase.Checked?) && phase.token == PhaseOf(l, p).token
    ensures Safe(Locks(Some(LockFile(phase.token, true)), l.phases[p := phase], l.nextToken))
  {
    var file := Some(LockFile(phase.token, true));
    var l' := Locks(file, l.phases[p := phase], l.nextToken);
    MoveOthers(l, p, phase, file, l.nextToken);
    assert forall q :: Owns(l', q) ==> q == p;
    assert forall q :: HasToken(l', q) ==> HasToken(l, q) && PhaseOf(l', q).token == PhaseOf(l, q).token;
  }

  lemma StepSafe(l: Locks, a: Action)
    requires Safe(l)
    ensures Safe(Step(l, a))
  {
    match a
    case Request(p) => if PhaseOf(l, p).Outside? { RequestSafe(l, p); }
    case Create(p) => if PhaseOf(l, p).Waiting? && l.file.None? { CreateSafe(l, p); }
    case WriteToken(p) => if PhaseOf(l, p).Created? { OwnerMoves(l, p, Held(PhaseOf(l, p).token)); }
    case CheckToken(p) => if PhaseOf(l, p).Held? { OwnerMoves(l, p, Checked(PhaseOf(l, p).token)); }
    case GiveUp(p) => LeaveSafe(l, p, Outside, l.file);
    case WriteFails(p) => LeaveSafe(l, p, Outside, l.file);
    case Unlink(p) => if PhaseOf(l, p).Checked? { LeaveSafe(l, p, Outside, None); }
    case UnlinkFails(p) => LeaveSafe(l, p, Outside, l.file);
    case Crash(p) => LeaveSafe(l, p, Crashed, l.file);
    case Restart(p) => LeaveSafe(l, p, Outside, l.file);
    case OperatorRemove =>
      var l' := Step(l, a);
      assert forall p :: PhaseOf(l', p) == PhaseOf(l, p);
      assert forall p :: Owns(l', p) ==> Owns(l, p) && p in l.phases;
      assert forall p :: HasToken(l', p) ==> HasToken(l, p);
  }

  /** At most one call is between create and unlink. */
  lemma MutualExclusion(l: Locks, p: ProcessId, q: ProcessId)
    requires Safe(l) && Owns(l, p) && p != q
    ensures !Owns(l, q)
  {}

  /** Nobody else's step, nor the operator's, takes the lock from its owner. */
  lemma OwnerUndisturbed(l: Locks, a: Action, p: ProcessId)
    requires Safe(l) && Owns(l, p) && (a.OperatorRemove? || a.p != p)
    ensures PhaseOf(Step(l, a), p) == PhaseOf(l, p) && Step(l, a).file == l.file
  {
    if a.OperatorRemove? {
      assert p in l.phases;
    } else {
      MutualExclusion(l, p, a.p);
    }
  }

  /** The ownership check before release never fails. */
  lemma CheckSucceeds(l: Locks, p: ProcessId)
    requires Safe(l) && PhaseOf(l, p).Held?
    ensures PhaseOf(Step(l, CheckToken(p)), p) == Checked(PhaseOf(l, p).token)
  {}

  /**
   * Removing a lock merely because it looks old would break exclusion: the lock
   * of a live holder is deleted and a second process enters.
   */
  lemma StaleRemovalUnsafe(l: Locks, p: ProcessId, q: ProcessId)
    requires Safe(l) && PhaseOf(l, p).Held? && PhaseOf(l, q).Waiting?
    ensures var removed := l.(file := None);
      var entered := Step(Step(removed, Create(q)), WriteToken(q));
      p != q && PhaseOf(entered, p).Held? && PhaseOf(entered, q).Held?
  {
    var created := Step(l.(file := None), Create(q));
    assert created.file.Some? && PhaseOf(created, q).Created? && PhaseOf(created, p).Held?;
  }

  // ----- what each step does -----

  /** The steps a call may take where it stands. */
  ghost predicate Fits(l: Locks, a: Action) {
    match a
    case Request(p) => PhaseOf(l, p) == Outside
    case Create(p) => (exists t :: PhaseOf(l, p) == Waiting(t)) && l.file == None
    case GiveUp(p) => exists t :: PhaseOf(l, p) == Waiting(t)
    case WriteToken(p) => exists t :: PhaseOf(l, p) == Created(t)
    case WriteFails(p) => exists t :: PhaseOf(l, p) == Created(t)
    case CheckToken(p) => exists t :: PhaseOf(l, p) == Held(t)
    case Unlink(p) => exists t :: PhaseOf(l, p) == Checked(t)
    case UnlinkFails(p) => exists t :: PhaseOf(l, p) == Checked(t)
    case Crash(_) => true
    case Restart(p) => PhaseOf(l, p) == Crashed
    case OperatorRemove => l.file != None && forall q, t :: PhaseOf(l, q) in {Created(t), Held(t), Checked(t)} ==> l.file.value.token != t
  }

  /** Where the call then stands. */
  function Arrives(l: Locks, a: Action): Phase
    requires !a.OperatorRemove?
  {
    match a
    case Request(_) => Waiting(l.nextToken)
    case Create(p) => if PhaseOf(l, p).Waiting? then Created(PhaseOf(l, p).token) else Outside
    case WriteToken(p) => if PhaseOf(l, p).Created? then Held(PhaseOf(l, p).token) else Outside
    case CheckToken(p) => if PhaseOf(l, p).Held? then Checked(PhaseOf(l, p).token) else Outside
    case Crash(_) => Crashed
    case _ => Outside
  }

  lemma AbandonedExact(l: Locks)
    ensures Abandoned(l) <==> Fits(l, OperatorRemove)
  {
    if Fits(l, OperatorRemove) {
      forall p | p in l.phases && Owns(l, p) ensures l.phases[p].token != l.file.value.token {
        var t := l.phases[p].token;
        assert PhaseOf(l, p) in {Created(t), Held(t), Checked(t)};
      }
    }
  }

  /**
   * A step that does not fit changes nothing. One that fits moves its own call alone; the
   * file appears with a create, gets its token with a write, and goes with an unlink or an
   * operator's removal; and only a request draws a token.
   */
  lemma StepDecides(l: Locks, a: Action)
    requires Safe(l)
    ensures !Fits(l, a) ==> Step(l, a) == l
    ensures Fits(l, a) && !a.OperatorRemove? ==> PhaseOf(Step(l, a), a.p) == Arrives(l, a) && OthersSame(l, Step(l, a), a.p)
    ensures a.OperatorRemove? ==> Step(l, a).phases == l.phases
    ensures Step(l, a).file ==
      if !Fits(l, a) then l.file
      else if a.Create? then Some(LockFile(PhaseOf(l, a.p).token, false))
      else if a.WriteToken? then Some(LockFile(PhaseOf(l, a.p).token, true))
      else if a.Unlink? || a.OperatorRemove? then None
      else l.file
    ensures Step(l, a).nextToken == l.nextToken + if a.Request? && Fits(l, a) then 1 else 0
  {
    AbandonedExact(l);
    if !a.OperatorRemove? {
      assert PhaseOf(l, a.p).Waiting? ==> PhaseOf(l, a.p) == Waiting(PhaseOf(l, a.p).token);
      assert PhaseOf(l, a.p).Created? ==> PhaseOf(l, a.p) == Created(PhaseOf(l, a.p).token);
      assert PhaseOf(l, a.p).Held? ==> PhaseOf(l, a.p) == Held(PhaseOf(l, a.p).token);
      assert PhaseOf(l, a.p).Checked? ==> PhaseOf(l, a.p) == Checked(PhaseOf(l, a.p).token);
    }
  }

  /** With the lock free a call gets in, and its release frees the lock again. */
  lemma CallEnters(l: Locks, p: ProcessId)
    requires Safe(l) && PhaseOf(l, p).Outside? && l.file.None?
    ensures var inside := Step(Step(Step(l, Request(p)), Create(p)), WriteToken(p));
      var after := Step(Step(inside, CheckToken(p)), Unlink(p));
      && PhaseOf(inside, p) == Held(l.nextToken) && inside.file == Some(LockFile(l.nextToken, true))
      && PhaseOf(after, p) == Outside && after.file == None
  {
    var waiting := Step(l, Request(p));
    StepSafe(l, Request(p));
    StepDecides(l, Request(p));
    var created := Step(waiting, Create(p));
    StepSafe(waiting, Create(p));
    StepDecides(waiting, Create(p));
    assert PhaseOf(created, p) == Created(l.nextToken);
    var inside := Step(created, WriteToken(p));
    StepSafe(created, WriteToken(p));
    StepDecides(created, WriteToken(p));
    var checked := Step(inside, CheckToken(p));
    StepSafe(inside, CheckToken(p));
    StepDecides(inside, CheckToken(p));
    StepDecides(checked, Unlink(p));
  }

  /** A call that fails or dies inside leaves the lock behind: nobody gets in until an operator has removed it. */
  lemma LockLeftBehind(l: Locks, a: Action, q: ProcessId)
    requires Safe(l) && (a.WriteFails? || a.UnlinkFails? || a.Crash?) && Fits(l, a) && Owns(l, a.p)
    ensures var left := Step(l, a);
      && left.file == l.file && left.file.Some? && Abandoned(left)
      && Step(left, Create(q)) == left
      && Step(left, OperatorRemove).file.None?
  {
    StepDecides(l, a);
    var left := Step(l, a);
    forall p | p in left.phases && Owns(left, p) ensures false {
      assert p != a.p && Owns(l, p);
      MutualExclusion(l, p, a.p);
    }
  }
}
