/** The migration entrypoint that every replica runs at start: a session-level advisory lock around one
    transactional run of the revision chain. Replicas are interleaved step by step; a statement may fail
    and a process may die at any point. A transaction remembers the version it read and the revisions it
    executed; its commit applies those revisions to whatever is committed by then. Nothing but the lock
    keeps two of them from overlapping. Whether the update of the version row refuses a transaction whose
    version is no longer the committed one is a parameter. */
module Migrations {
  import opened Collections

  // ----- Replicas and the database -----

  datatype Failure = MigrationFailed | UnlockFailed | Killed

  datatype Phase =
    | Starting
    | Waiting                            // blocked in pg_advisory_lock
    | Holding                            // owns the lock, migration not begun
    | Migrating                          // inside begin_transaction()
    | Leaving(error: Option<Failure>)    // in the finally block, about to unlock
    | Exited(error: Option<Failure>)     // with the error that reaches the caller

  /** What a database session is in the middle of. `base` is the version read at the start, `ran` the
      revisions executed since. An aborted transaction refuses every statement, and so does a session that
      is gone. */
  datatype Session = Idle | InTransaction(base: nat, ran: seq<nat>) | Aborted | Gone

  datatype Replica = Replica(phase: Phase, migration: Session, locker: Session)

  /** The lock is taken either on a session of its own in autocommit mode, as the entrypoint does, or on
      the session that migrates. */
  datatype Design = OwnLockSession | SharedSession

  /** `checked`: the update of the version row asks for the version that the transaction has read. */
  datatype Config<!S> = Config(chain: seq<S -> S>, design: Design, checked: bool)

  /** What is committed, and who holds the lock. `log` lists the revisions that took effect, in order. */
  datatype System<S> = System(replicas: seq<Replica>, schema: S, version: nat, lock: Option<nat>, log: seq<nat>)

  datatype Action =
    | Connect | Acquire | Begin | RunRevision | Fail | Commit | Unlock | UnlockRefused
    | Die | Restart | LoseLockSession

  /** The session on which the lock statements run. */
  function LockSession(design: Design, r: Replica): Session {
    if design == OwnLockSession then r.locker else r.migration
  }

  predicate Inside(p: Phase) {
    p.Holding? || p.Migrating? || p.Leaving?
  }

  function Range(lo: nat, hi: nat): seq<nat>
    requires lo <= hi
  {
    seq(hi - lo, i requires 0 <= i < hi - lo => lo + i)
  }

  /** The revisions of `ran`, one after the other. */
  function Applied<S>(chain: seq<S -> S>, ran: seq<nat>, s: S): S {
    if ran == [] then s else
    var before, v := Applied(chain, ran[..|ran| - 1], s), ran[|ran| - 1];
    if v < |chain| then chain[v](before) else before
  }

  /** Revisions `lo` up to `hi` of the chain, in order. */
  function Upgraded<S>(chain: seq<S -> S>, lo: nat, hi: nat, s: S): S
    requires lo <= hi
  {
    Applied(chain, Range(lo, hi), s)
  }

  function Put<S>(s: System<S>, r: nat, rep: Replica): System<S>
    requires r < |s.replicas|
  {
    s.(replicas := s.replicas[r := rep])
  }

  /** Releases the lock if `r` holds it. */
  function Released(lock: Option<nat>, r: nat): Option<nat> {
    if lock == Some(r) then None else lock
  }

  /** The revision reached inside an open transaction. */
  function Reached(t: Session): nat
    requires t.InTransaction?
  {
    t.base + |t.ran|
  }

  /** The session takes a statement. */
  predicate Answers(session: Session) {
    !session.Aborted? && !session.Gone?
  }

  /** The transaction does not touch the version row, or may. */
  predicate Accepted<S>(c: Config<S>, t: Session, version: nat)
    requires t.InTransaction?
  {
    c.checked && t.ran != [] ==> t.base == version
  }

  ghost predicate Enabled<S(!new)>(c: Config<S>, s: System<S>, r: nat, a: Action) {
    r < |s.replicas| &&
    var rep := s.replicas[r];
    match a
    case Connect => rep.phase == Starting
    case Acquire => rep.phase == Waiting && s.lock == None
    case Begin => rep.phase == Holding && !rep.migration.Gone?
    case RunRevision => rep.phase == Migrating && rep.migration.InTransaction? && Reached(rep.migration) < |c.chain|
    case Fail => rep.phase == Migrating || (rep.phase == Holding && rep.migration.Gone?)
    case Commit =>
      && rep.phase == Migrating && rep.migration.InTransaction?
      && Reached(rep.migration) == |c.chain| && Accepted(c, rep.migration, s.version)
    case Unlock => rep.phase.Leaving? && Answers(LockSession(c.design, rep))
    case UnlockRefused => rep.phase.Leaving? && !Answers(LockSession(c.design, rep))
    case Die => rep.phase == Waiting || Inside(rep.phase)
    case Restart => rep.phase.Exited?
    case LoseLockSession => Inside(rep.phase)
  }

  /** The state after replica `r` takes action `a`. */
  ghost function After<S(!new)>(c: Config<S>, s: System<S>, r: nat, a: Action): System<S>
    requires Enabled(c, s, r, a)
  {
    var rep := s.replicas[r];
    match a
    case Connect => Put(s, r, Replica(Waiting, Idle, Idle))
    case Acquire =>
      // In autocommit mode the statement leaves no transaction open; otherwise it opens one.
      var session := if c.design == OwnLockSession then Idle else InTransaction(s.version, []);
      Put(s, r, Replica(Holding, session, Idle)).(lock := Some(r))
    case Begin => Put(s, r, rep.(phase := Migrating, migration := InTransaction(s.version, [])))
    case RunRevision =>
      var t := rep.migration;
      Put(s, r, rep.(migration := InTransaction(t.base, t.ran + [Reached(t)])))
    case Fail =>
      Put(s, r, rep.(phase := Leaving(Some(MigrationFailed)), migration := if rep.migration.Gone? then Gone else Aborted))
    case Commit =>
      var t := rep.migration;
      Put(s, r, rep.(phase := Leaving(None), migration := Idle))
        .(schema := Applied(c.chain, t.ran, s.schema), version := Reached(t), log := s.log + t.ran)
    case Unlock => Put(s, r, Replica(Exited(rep.phase.error), Idle, Idle)).(lock := Released(s.lock, r))
    // The refusal is raised in the finally block, in place of the error that led there. The process ends,
    // and its sessions with it.
    case UnlockRefused => Put(s, r, Replica(Exited(Some(UnlockFailed)), Idle, Idle)).(lock := Released(s.lock, r))
    case Die => Put(s, r, Replica(Exited(Some(Killed)), Idle, Idle)).(lock := Released(s.lock, r))
    case Restart => Put(s, r, Replica(Starting, Idle, Idle))
    // The server drops the lock with its session; the replica does not notice before its next statement there.
    case LoseLockSession =>
      var lost := if c.design == OwnLockSession then rep.(locker := Gone) else rep.(migration := Gone);
      Put(s, r, lost).(lock := Released(s.lock, r))
  }

  // ----- Runs -----

  datatype Move = Move(replica: nat, action: Action)

  ghost predicate Initial<S(!new)>(c: Config<S>, s: System<S>) {
    && (forall r | 0 <= r < |s.replicas| :: s.replicas[r] == Replica(Starting, Idle, Idle))
    && s.lock == None && s.log == [] && s.version <= |c.chain|
  }

  /** `moves` can be taken one after the other from `s`, and lead to `t`. */
  ghost predicate Leads<S(!new)>(c: Config<S>, s: System<S>, moves: seq<Move>, t: System<S>)
    decreases |moves|
  {
    if moves == [] then s == t
    else && Enabled(c, s, moves[0].replica, moves[0].action)
         && Leads(c, After(c, s, moves[0].replica, moves[0].action), moves[1..], t)
  }

  /** How often a lock session is lost. */
  function Losses(moves: seq<Move>): nat {
    if moves == [] then 0 else (if moves[0].action == LoseLockSession then 1 else 0) + Losses(moves[1..])
  }

  // ----- What every step keeps -----

  /** `s0` is the database before any replica started. */
  ghost predicate Inv<S(!new)>(c: Config<S>, s0: System<S>, s: System<S>) {
    && |s.replicas| == |s0.replicas|
    && s0.version <= s.version <= |c.chain|
    && s.schema == Upgraded(c.chain, s0.version, s.version, s0.schema)
    && s.log == Range(s0.version, s.version)
    && (s.lock.Some? ==> s.lock.value < |s.replicas|)
    && forall r | 0 <= r < |s.replicas| :: Sound(c, s, r)
  }

  /** The open transaction read the version that is still committed, and ran the next revisions in order. */
  predicate UpToDate(t: Session, version: nat, head: nat) {
    t.InTransaction? && t.base == version && Reached(t) <= head && t.ran == Range(t.base, Reached(t))
  }

  ghost predicate Sound<S(!new)>(c: Config<S>, s: System<S>, r: nat)
    requires r < |s.replicas|
  {
    var rep := s.replicas[r];
    && (Inside(rep.phase) <==> s.lock == Some(r))
    && (rep.phase == Migrating ==> UpToDate(rep.migration, s.version, |c.chain|))
    && (rep.phase == Leaving(None) || rep.phase == Exited(None) ==> s.version == |c.chain|)
    && rep.locker == Idle && !rep.migration.Gone?
  }

  lemma {:induction false} AppliedInTwo<S(!new)>(chain: seq<S -> S>, a: seq<nat>, b: seq<nat>, s: S)
    ensures Applied(chain, a + b, s) == Applied(chain, b, Applied(chain, a, s))
    decreases |b|
  {
    if b == [] {
      assert a + b == a;
    } else {
      assert (a + b)[..|a + b| - 1] == a + b[..|b| - 1];
      AppliedInTwo(chain, a, b[..|b| - 1], s);
    }
  }

  /** Revision `v` is what leads from version `v` to the next one. */
  lemma UpgradedStepByStep<S(!new)>(chain: seq<S -> S>, lo: nat, v: nat, s: S)
    requires lo <= v
    ensures Upgraded(chain, lo, lo, s) == s
    ensures v < |chain| ==> Upgraded(chain, lo, v + 1, s) == chain[v](Upgraded(chain, lo, v, s))
  {
    assert Range(lo, lo) == [];
    assert Range(lo, v + 1)[..v - lo] == Range(lo, v) && Range(lo, v + 1)[v - lo] == v;
  }

  /** A chain whose revisions write down their numbers. */
  ghost predicate Marks(chain: seq<seq<nat> -> seq<nat>>) {
    forall v: nat, x: seq<nat> | v < |chain| :: chain[v](x) == x + [v]
  }

  lemma {:induction false} MarkedInOrder(chain: seq<seq<nat> -> seq<nat>>, lo: nat, hi: nat, s: seq<nat>)
    requires Marks(chain) && lo <= hi <= |chain|
    ensures Upgraded(chain, lo, hi, s) == s + Range(lo, hi)
    decreases hi - lo
  {
    if lo == hi {
      UpgradedStepByStep(chain, lo, lo, s);
      assert s + Range(lo, hi) == s;
    } else {
      var v: nat := hi - 1;
      var before: seq<nat> := Upgraded(chain, lo, v, s);
      UpgradedStepByStep(chain, lo, v, s);
      MarkedInOrder(chain, lo, v, s);
      assert chain[v](before) == before + [v];
      LastOfRange(lo, v);
      assert s + Range(lo, v) + [v] == s + (Range(lo, v) + [v]);
    }
  }

  lemma LastOfRange(lo: nat, v: nat)
    requires lo <= v
    ensures Range(lo, v + 1) == Range(lo, v) + [v]
  {
  }

  lemma RangeInTwo(lo: nat, mid: nat, hi: nat)
    requires lo <= mid <= hi
    ensures Range(lo, mid) + Range(mid, hi) == Range(lo, hi)
  {
  }

  /** This is where the lock is needed: the holder's base is the committed version, so its revisions
      continue the log and the schema; and no other transaction is open, whose base would go stale. */
  lemma CommitKeepsInv<S(!new)>(c: Config<S>, s0: System<S>, s: System<S>, r: nat)
    requires s0.version <= |c.chain| && Inv(c, s0, s) && Enabled(c, s, r, Commit)
    ensures Inv(c, s0, After(c, s, r, Commit))
  {
    var s' := After(c, s, r, Commit);
    assert Sound(c, s, r);
    RangeInTwo(s0.version, s.version, s'.version);
    AppliedInTwo(c.chain, Range(s0.version, s.version), Range(s.version, s'.version), s0.schema);
    forall q | 0 <= q < |s'.replicas|
      ensures Sound(c, s', q)
    {
      assert Sound(c, s, q);
    }
  }

  lemma StepKeepsInv<S(!new)>(c: Config<S>, s0: System<S>, s: System<S>, r: nat, a: Action)
    requires c.design == OwnLockSession && a != LoseLockSession
    requires s0.version <= |c.chain| && Inv(c, s0, s) && Enabled(c, s, r, a)
    ensures Inv(c, s0, After(c, s, r, a))
  {
    if a == Commit {
      CommitKeepsInv(c, s0, s, r);
    } else {
      var s' := After(c, s, r, a);
      assert Sound(c, s, r);
      forall q | 0 <= q < |s'.replicas|
        ensures Sound(c, s', q)
      {
        assert Sound(c, s, q);
      }
    }
  }

  lemma {:induction false} EveryRunKeepsInv<S(!new)>(c: Config<S>, s0: System<S>, s: System<S>, moves: seq<Move>, t: System<S>)
    requires c.design == OwnLockSession && Losses(moves) == 0
    requires s0.version <= |c.chain| && Inv(c, s0, s) && Leads(c, s, moves, t)
    ensures Inv(c, s0, t)
    decreases |moves|
  {
    if moves != [] {
      StepKeepsInv(c, s0, s, moves[0].replica, moves[0].action);
      EveryRunKeepsInv(c, s0, After(c, s, moves[0].replica, moves[0].action), moves[1..], t);
    }
  }

  lemma InitialInv<S(!new)>(c: Config<S>, s: System<S>)
    requires Initial(c, s)
    ensures Inv(c, s, s)
  {
  }

  /** Safety of every run, with any number of replicas, any interleaving and failures anywhere: at most
      one replica is inside; the recorded version says which revisions made the schema; each of those
      took effect once, in chain order; and a replica that reports success left the database at the head
      of the chain. */
  lemma EveryRunIsSafe<S(!new)>(c: Config<S>, s: System<S>, moves: seq<Move>, t: System<S>)
    requires c.design == OwnLockSession && Initial(c, s) && Leads(c, s, moves, t) && Losses(moves) == 0
    ensures forall a, b | 0 <= a < |t.replicas| && 0 <= b < |t.replicas| &&
                          Inside(t.replicas[a].phase) && Inside(t.replicas[b].phase) :: a == b
    ensures s.version <= t.version <= |c.chain|
    ensures t.schema == Upgraded(c.chain, s.version, t.version, s.schema)
    ensures t.log == Range(s.version, t.version)
    ensures forall r | 0 <= r < |t.replicas| && t.replicas[r].phase == Exited(None) :: t.version == |c.chain|
  {
    InitialInv(c, s);
    EveryRunKeepsInv(c, s, s, moves, t);
    forall r | 0 <= r < |t.replicas|
      ensures Inside(t.replicas[r].phase) <==> t.lock == Some(r)
      ensures t.replicas[r].phase == Exited(None) ==> t.version == |c.chain|
    {
      assert Sound(c, t, r);
    }
  }

  /** A run leaves a trace of each revision from the old version up to the new one, once and in order: what is
      in the log is what was done to the schema. */
  lemma EveryRunLeavesItsMarks(c: Config<seq<nat>>, s: System<seq<nat>>, moves: seq<Move>, t: System<seq<nat>>)
    requires c.design == OwnLockSession && Initial(c, s) && Leads(c, s, moves, t) && Losses(moves) == 0
    requires Marks(c.chain)
    ensures t.schema == s.schema + t.log && |t.log| == t.version - s.version
    ensures forall k | 0 <= k < |t.log| :: t.log[k] == s.version + k
  {
    EveryRunIsSafe(c, s, moves, t);
    MarkedInOrder(c.chain, s.version, t.version, s.schema);
  }

  // ----- The lock is always freed -----

  /** How many steps the holder can still take before the lock is free. */
  function Distance<S>(c: Config<S>, rep: Replica): nat {
    match rep.phase
    case Holding => |c.chain| + 3
    case Migrating =>
      if rep.migration.InTransaction? && Reached(rep.migration) <= |c.chain|
      then |c.chain| - Reached(rep.migration) + 2 else 2
    case Leaving(_) => 1
    case _ => 0
  }

  /** The holder can always go on with its work by itself: begin, run the next revision, commit, unlock. */
  lemma HolderCanMove<S(!new)>(c: Config<S>, s0: System<S>, s: System<S>, r: nat) returns (a: Action)
    requires c.design == OwnLockSession && s0.version <= |c.chain| && Inv(c, s0, s) && s.lock == Some(r)
    ensures a in {Begin, RunRevision, Commit, Unlock} && Enabled(c, s, r, a)
  {
    assert Sound(c, s, r);
    var rep := s.replicas[r];
    a := if rep.phase == Holding then Begin
         else if rep.phase.Leaving? then Unlock
         else if Reached(rep.migration) < |c.chain| then RunRevision
         else Commit;
  }

  ghost function StepsOf(moves: seq<Move>, r: nat): nat {
    if moves == [] then 0 else (if moves[0].replica == r then 1 else 0) + StepsOf(moves[1..], r)
  }

  /** The lock is held by `r` in every state before the last one. */
  ghost predicate HeldUntilTheEnd<S(!new)>(c: Config<S>, s: System<S>, moves: seq<Move>, r: nat)
    decreases |moves|
  {
    moves != [] ==>
      && s.lock == Some(r)
      && Enabled(c, s, moves[0].replica, moves[0].action)
      && HeldUntilTheEnd(c, After(c, s, moves[0].replica, moves[0].action), moves[1..], r)
  }

  /** While a replica holds the lock it takes at most `|chain| + 3` steps of its own, whatever the other
      replicas do meanwhile: the lock cannot be kept. */
  lemma {:induction false} LockIsFreed<S(!new)>(c: Config<S>, s0: System<S>, s: System<S>, moves: seq<Move>, r: nat)
    requires c.design == OwnLockSession && s0.version <= |c.chain| && Inv(c, s0, s) && r < |s.replicas|
    requires Losses(moves) == 0 && HeldUntilTheEnd(c, s, moves, r)
    ensures StepsOf(moves, r) <= Distance(c, s.replicas[r]) <= |c.chain| + 3
    decreases |moves|
  {
    assert Sound(c, s, r);
    if moves != [] {
      var Move(q, a) := moves[0];
      assert Sound(c, s, q);
      StepKeepsInv(c, s0, s, q, a);
      LockIsFreed(c, s0, After(c, s, q, a), moves[1..], r);
    }
  }

  // ----- Why the lock has a session of its own -----

  /** Kept by both designs, whatever happens to the lock. */
  predicate Tidy(design: Design, rep: Replica) {
    && (rep.locker == Idle || (rep.locker == Gone && design == OwnLockSession))
    && (design == OwnLockSession ==> !rep.migration.Gone?)
    && (rep.phase.Leaving? ==>
          && (rep.phase.error == None ==> rep.migration == Idle || rep.migration == Gone)
          && (rep.phase.error != None ==>
                rep.phase.error == Some(MigrationFailed) && (rep.migration == Aborted || rep.migration == Gone)))
  }

  lemma {:induction false} EveryRunIsTidy<S(!new)>(c: Config<S>, s: System<S>, moves: seq<Move>, t: System<S>)
    requires Leads(c, s, moves, t) && forall r | 0 <= r < |s.replicas| :: Tidy(c.design, s.replicas[r])
    ensures |t.replicas| == |s.replicas| && forall r | 0 <= r < |t.replicas| :: Tidy(c.design, t.replicas[r])
    decreases |moves|
  {
    if moves != [] {
      EveryRunIsTidy(c, After(c, s, moves[0].replica, moves[0].action), moves[1..], t);
    }
  }

  predicate AllThere(design: Design, replicas: seq<Replica>) {
    forall r | 0 <= r < |replicas| :: !LockSession(design, replicas[r]).Gone?
  }

  lemma {:induction false} NothingLostIsThere<S(!new)>(c: Config<S>, s: System<S>, moves: seq<Move>, t: System<S>)
    requires Leads(c, s, moves, t) && Losses(moves) == 0 && AllThere(c.design, s.replicas)
    ensures AllThere(c.design, t.replicas)
    decreases |moves|
  {
    if moves != [] {
      NothingLostIsThere(c, After(c, s, moves[0].replica, moves[0].action), moves[1..], t);
    }
  }

  /** In every run of either design: the unlock is refused exactly when the lock's session is gone, or a failed
      migration ran on it; and the outcome of the migration reaches the caller exactly when the unlock is not
      refused. So as long as no session is lost, the error of a failed migration is reported exactly when the
      two sessions are separate. */
  lemma UnlockIsRefusedIff<S(!new)>(c: Config<S>, s: System<S>, moves: seq<Move>, t: System<S>, r: nat)
    requires Initial(c, s) && Leads(c, s, moves, t) && r < |t.replicas| && t.replicas[r].phase.Leaving?
    ensures Enabled(c, t, r, UnlockRefused) <==>
            LockSession(c.design, t.replicas[r]).Gone? || (c.design == SharedSession && t.replicas[r].phase.error != None)
    ensures Enabled(c, t, r, Unlock) <==> !Enabled(c, t, r, UnlockRefused)
    ensures var a := if Enabled(c, t, r, Unlock) then Unlock else UnlockRefused;
            After(c, t, r, a).replicas[r].phase == Exited(t.replicas[r].phase.error) <==> a == Unlock
    ensures Losses(moves) == 0 && t.replicas[r].phase.error != None ==>
              (Enabled(c, t, r, Unlock) <==> c.design == OwnLockSession)
  {
    EveryRunIsTidy(c, s, moves, t);
    assert Tidy(c.design, t.replicas[r]);
    if Losses(moves) == 0 {
      NothingLostIsThere(c, s, moves, t);
    }
  }
}
