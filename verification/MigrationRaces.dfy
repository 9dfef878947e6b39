/** What the safety of concurrent migrations still depends on: the session that owns the lock, and the update
    of the version row. */
module MigrationRaces {
  import opened Collections
  import opened Migrations

  // ----- Reaching a state -----

  lemma {:induction false} LeadsOn<S(!new)>(c: Config<S>, s: System<S>, a: seq<Move>, t: System<S>, b: seq<Move>, u: System<S>)
    requires Leads(c, s, a, t) && Leads(c, t, b, u)
    ensures Leads(c, s, a + b, u) && Losses(a + b) == Losses(a) + Losses(b)
    decreases |a|
  {
    if a == [] {
      assert a + b == b;
    } else {
      assert (a + b)[0] == a[0] && (a + b)[1..] == a[1..] + b;
      LeadsOn(c, After(c, s, a[0].replica, a[0].action), a[1..], t, b, u);
    }
  }

  /** `t` can be reached from `s` with this many lost lock sessions. */
  ghost predicate Reaches<S(!new)>(c: Config<S>, s: System<S>, losses: nat, t: System<S>) {
    exists moves :: Leads(c, s, moves, t) && Losses(moves) == losses
  }

  lemma Stay<S(!new)>(c: Config<S>, s: System<S>)
    ensures Reaches(c, s, 0, s)
  {
    assert Leads(c, s, [], s) && Losses([]) == 0;
  }

  lemma GoOn<S(!new)>(c: Config<S>, s: System<S>, n: nat, t: System<S>, m: nat, u: System<S>)
    requires Reaches(c, s, n, t) && Reaches(c, t, m, u)
    ensures Reaches(c, s, n + m, u)
  {
    var a :| Leads(c, s, a, t) && Losses(a) == n;
    var b :| Leads(c, t, b, u) && Losses(b) == m;
    LeadsOn(c, s, a, t, b, u);
  }

  lemma Step<S(!new)>(c: Config<S>, s: System<S>, n: nat, t: System<S>, r: nat, a: Action)
    requires Reaches(c, s, n, t) && Enabled(c, t, r, a)
    ensures Reaches(c, s, if a == LoseLockSession then n + 1 else n, After(c, t, r, a))
  {
    var last := [Move(r, a)];
    assert last[1..] == [];
    assert Losses(last) == if a == LoseLockSession then 1 else 0;
    assert Leads(c, t, last, After(c, t, r, a));
    GoOn(c, s, n, t, if a == LoseLockSession then 1 else 0, After(c, t, r, a));
  }

  ghost predicate SameDatabase<S(!new)>(s: System<S>, t: System<S>) {
    t.schema == s.schema && t.version == s.version && t.log == s.log && |t.replicas| == |s.replicas|
  }

  /** A replica outside gets as far as waiting for the lock. */
  lemma ComesToWait<S(!new)>(c: Config<S>, s: System<S>, q: nat) returns (t: System<S>)
    requires q < |s.replicas| && !Inside(s.replicas[q].phase)
    ensures Reaches(c, s, 0, t) && SameDatabase(s, t) && t.lock == s.lock
    ensures t.replicas[q].phase == Waiting && forall r | 0 <= r < |s.replicas| && r != q :: t.replicas[r] == s.replicas[r]
  {
    t := s;
    Stay(c, s);
    if t.replicas[q].phase.Exited? {
      Step(c, s, 0, t, q, Restart);
      t := After(c, t, q, Restart);
    }
    if t.replicas[q].phase == Starting {
      Step(c, s, 0, t, q, Connect);
      t := After(c, t, q, Connect);
    }
  }

  /** Once the holder has lost its lock session, any other replica can get in. */
  lemma AnotherGetsIn<S(!new)>(c: Config<S>, s0: System<S>, s: System<S>, r: nat, q: nat) returns (t: System<S>)
    requires Inv(c, s0, s) && s.lock == Some(r) && q < |s.replicas| && q != r
    ensures Reaches(c, s, 1, t) && SameDatabase(s, t)
    ensures t.replicas[r].phase == s.replicas[r].phase && t.replicas[q].phase == Holding
    ensures c.design == OwnLockSession ==>
              t.replicas[r].migration == s.replicas[r].migration && t.replicas[q].migration == Idle
  {
    assert Sound(c, s, r) && Sound(c, s, q);
    Stay(c, s);
    Step(c, s, 0, s, r, LoseLockSession);
    var lost := After(c, s, r, LoseLockSession);
    t := ComesToWait(c, lost, q);
    GoOn(c, s, 1, lost, 0, t);
    Step(c, s, 1, t, q, Acquire);
    t := After(c, t, q, Acquire);
  }

  ghost predicate TwoInside<S(!new)>(t: System<S>) {
    exists a, b :: 0 <= a < b < |t.replicas| && Inside(t.replicas[a].phase) && Inside(t.replicas[b].phase)
  }

  lemma {:induction false} ReplicasStay<S(!new)>(c: Config<S>, s: System<S>, moves: seq<Move>, t: System<S>)
    requires Leads(c, s, moves, t)
    ensures |t.replicas| == |s.replicas|
    decreases |moves|
  {
    if moves != [] {
      ReplicasStay(c, After(c, s, moves[0].replica, moves[0].action), moves[1..], t);
    }
  }

  /** The exclusion rests on the lock's session outliving the migration. Whenever a replica holds the lock,
      the loss of that one session lets a second one in, unless there is no second one. */
  lemma LostLockSessionLetsTwoIn<S(!new)>(c: Config<S>, s0: System<S>, s: System<S>, r: nat)
    requires Inv(c, s0, s) && s.lock == Some(r)
    ensures (exists t :: Reaches(c, s, 1, t) && TwoInside(t)) <==> |s.replicas| >= 2
  {
    if |s.replicas| >= 2 {
      var q := if r == 0 then 1 else 0;
      assert Sound(c, s, r);
      var t := AnotherGetsIn(c, s0, s, r, q);
      var a, b := if r < q then r else q, if r < q then q else r;
      assert a < b && Inside(t.replicas[a].phase) && Inside(t.replicas[b].phase);
    }
    forall t | Reaches(c, s, 1, t) && TwoInside(t)
      ensures |s.replicas| >= 2
    {
      var moves :| Leads(c, s, moves, t) && Losses(moves) == 1;
      ReplicasStay(c, s, moves, t);
    }
  }

  // ----- A race -----

  /** A transaction is open whose version is no longer the committed one. */
  ghost predicate HasStale<S(!new)>(t: System<S>) {
    exists r :: 0 <= r < |t.replicas| && Overtaken(t, r)
  }

  predicate Overtaken<S>(t: System<S>, r: nat)
    requires r < |t.replicas|
  {
    t.replicas[r].phase == Migrating && t.replicas[r].migration.InTransaction? && t.replicas[r].migration.base != t.version
  }

  ghost predicate Repeats(log: seq<nat>) {
    exists i, j :: 0 <= i < j < |log| && log[i] == log[j]
  }

  /** The holder gets into its migration, if need be in another attempt. */
  lemma HolderMigrates<S(!new)>(c: Config<S>, s0: System<S>, s: System<S>, r: nat) returns (t: System<S>)
    requires c.design == OwnLockSession && s0.version <= |c.chain| && Inv(c, s0, s) && s.lock == Some(r)
    ensures Reaches(c, s, 0, t) && SameDatabase(s, t) && Inv(c, s0, t)
    ensures t.lock == Some(r) && t.replicas[r].phase == Migrating
  {
    assert Sound(c, s, r);
    t := s;
    Stay(c, s);
    if t.replicas[r].phase.Leaving? {
      Step(c, s, 0, t, r, Unlock);
      StepKeepsInv(c, s0, t, r, Unlock);
      t := After(c, t, r, Unlock);
      Step(c, s, 0, t, r, Restart);
      StepKeepsInv(c, s0, t, r, Restart);
      t := After(c, t, r, Restart);
      Step(c, s, 0, t, r, Connect);
      StepKeepsInv(c, s0, t, r, Connect);
      t := After(c, t, r, Connect);
      Step(c, s, 0, t, r, Acquire);
      StepKeepsInv(c, s0, t, r, Acquire);
      t := After(c, t, r, Acquire);
    }
    if t.replicas[r].phase == Holding {
      Step(c, s, 0, t, r, Begin);
      StepKeepsInv(c, s0, t, r, Begin);
      t := After(c, t, r, Begin);
    }
  }

  /** The state in which the transaction of `r` has run up to the head. */
  function AtHead<S>(c: Config<S>, s: System<S>, r: nat): System<S>
    requires r < |s.replicas| && s.version <= |c.chain|
  {
    Put(s, r, s.replicas[r].(migration := InTransaction(s.version, Range(s.version, |c.chain|))))
  }

  lemma {:induction false} RunsToTheHead<S(!new)>(c: Config<S>, s: System<S>, r: nat)
    requires r < |s.replicas| && s.replicas[r].phase == Migrating && s.version <= |c.chain|
    requires UpToDate(s.replicas[r].migration, s.version, |c.chain|)
    ensures Reaches(c, s, 0, AtHead(c, s, r))
    decreases |c.chain| - Reached(s.replicas[r].migration)
  {
    var m := s.replicas[r].migration;
    Stay(c, s);
    if Reached(m) < |c.chain| {
      Step(c, s, 0, s, r, RunRevision);
      var t := After(c, s, r, RunRevision);
      RangeInTwo(m.base, Reached(m), Reached(m) + 1);
      assert Range(Reached(m), Reached(m) + 1) == [Reached(m)];
      RunsToTheHead(c, t, r);
      assert AtHead(c, t, r) == AtHead(c, s, r);
      GoOn(c, s, 0, t, 0, AtHead(c, s, r));
    } else {
      assert AtHead(c, s, r) == s;
    }
  }

  /** Of two open transactions with the same base one commits. */
  lemma OneCommits<S(!new)>(c: Config<S>, s: System<S>, r: nat, q: nat) returns (t: System<S>)
    requires r < |s.replicas| && q < |s.replicas| && q != r && s.version <= |c.chain|
    requires s.replicas[r].phase == Migrating && UpToDate(s.replicas[r].migration, s.version, |c.chain|)
    requires s.replicas[q].phase == Migrating && UpToDate(s.replicas[q].migration, s.version, |c.chain|)
    ensures Reaches(c, s, 0, t) && |t.replicas| == |s.replicas| && t.version == |c.chain|
    ensures t.log == s.log + Range(s.version, |c.chain|)
    ensures t.schema == Upgraded(c.chain, s.version, |c.chain|, s.schema)
    ensures t.replicas[q].phase == Migrating
    ensures t.replicas[q].migration == InTransaction(s.version, Range(s.version, |c.chain|))
  {
    RunsToTheHead(c, s, r);
    t := AtHead(c, s, r);
    RunsToTheHead(c, t, q);
    GoOn(c, s, 0, t, 0, AtHead(c, t, q));
    t := AtHead(c, t, q);
    Step(c, s, 0, t, r, Commit);
    t := After(c, t, r, Commit);
  }

  /** With the lock's session lost and another replica there, that other one is overtaken. */
  lemma OneIsOvertaken<S(!new)>(c: Config<S>, s0: System<S>, s: System<S>, r: nat, q: nat) returns (t: System<S>)
    requires c.design == OwnLockSession && s0.version <= |c.chain| && Inv(c, s0, s)
    requires s.lock == Some(r) && q < |s.replicas| && q != r
    ensures Reaches(c, s, 1, t) && |t.replicas| == |s.replicas| && t.version == |c.chain|
    ensures t.log == s.log + Range(s.version, |c.chain|)
    ensures t.schema == Upgraded(c.chain, s.version, |c.chain|, s.schema)
    ensures t.replicas[q].phase == Migrating
    ensures t.replicas[q].migration == InTransaction(s.version, Range(s.version, |c.chain|))
  {
    var m := HolderMigrates(c, s0, s, r);
    assert Sound(c, m, r);
    var u := AnotherGetsIn(c, s0, m, r, q);
    GoOn(c, s, 0, m, 1, u);
    Step(c, s, 1, u, q, Begin);
    u := After(c, u, q, Begin);
    t := OneCommits(c, u, r, q);
    GoOn(c, s, 1, u, 0, t);
  }

  /** If the version row is not checked, the overtaken replica commits as well: what was left of the chain is
      applied twice. */
  lemma BothCommit<S(!new)>(c: Config<S>, s0: System<S>, s: System<S>, r: nat, q: nat) returns (t: System<S>)
    requires c.design == OwnLockSession && s0.version <= |c.chain| && Inv(c, s0, s) && !c.checked
    requires s.lock == Some(r) && q < |s.replicas| && q != r
    ensures Reaches(c, s, 1, t) && t.version == |c.chain|
    ensures t.log == s.log + Range(s.version, |c.chain|) + Range(s.version, |c.chain|)
    ensures t.schema == Upgraded(c.chain, s.version, |c.chain|, Upgraded(c.chain, s.version, |c.chain|, s.schema))
  {
    t := OneIsOvertaken(c, s0, s, r, q);
    Step(c, s, 1, t, q, Commit);
    t := After(c, t, q, Commit);
  }

  /** What holds of a single replica with or without the lock. */
  ghost predicate Lonely<S(!new)>(c: Config<S>, s0: System<S>, s: System<S>) {
    && |s.replicas| == 1 && s0.version <= s.version <= |c.chain| && s.log == Range(s0.version, s.version)
    && (s.replicas[0].phase == Migrating ==> UpToDate(s.replicas[0].migration, s.version, |c.chain|))
  }

  /** What holds once the database is at the head and no transaction has begun below it. */
  ghost predicate Settled<S(!new)>(c: Config<S>, s0: System<S>, s: System<S>) {
    && s.version == |c.chain| && s0.version <= s.version && s.log == Range(s0.version, s.version)
    && forall r | 0 <= r < |s.replicas| :: s.replicas[r].phase == Migrating ==> s.replicas[r].migration == InTransaction(s.version, [])
  }

  lemma StepKeepsLonely<S(!new)>(c: Config<S>, s0: System<S>, s: System<S>, r: nat, a: Action)
    requires c.design == OwnLockSession && Lonely(c, s0, s) && Enabled(c, s, r, a)
    ensures Lonely(c, s0, After(c, s, r, a))
  {
    if a == Commit {
      RangeInTwo(s0.version, s.version, After(c, s, r, a).version);
    }
  }

  lemma StepKeepsSettled<S(!new)>(c: Config<S>, s0: System<S>, s: System<S>, r: nat, a: Action)
    requires c.design == OwnLockSession && Settled(c, s0, s) && Enabled(c, s, r, a)
    ensures Settled(c, s0, After(c, s, r, a))
  {
    if a == Commit {
      assert s.log + [] == s.log;
    }
  }

  lemma {:induction false} NothingRepeats<S(!new)>(c: Config<S>, s0: System<S>, s: System<S>, moves: seq<Move>, t: System<S>)
    requires c.design == OwnLockSession && (Lonely(c, s0, s) || Settled(c, s0, s)) && Leads(c, s, moves, t)
    ensures !Repeats(t.log) && !HasStale(t)
    decreases |moves|
  {
    if moves != [] {
      var Move(r, a) := moves[0];
      if Lonely(c, s0, s) {
        StepKeepsLonely(c, s0, s, r, a);
      } else {
        StepKeepsSettled(c, s0, s, r, a);
      }
      NothingRepeats(c, s0, After(c, s, r, a), moves[1..], t);
    }
  }

  lemma NothingLeftToRace<S(!new)>(c: Config<S>, s0: System<S>, s: System<S>, r: nat)
    requires c.design == OwnLockSession && s0.version <= |c.chain| && Inv(c, s0, s) && s.lock == Some(r)
    requires |s.replicas| < 2 || s.version == |c.chain|
    ensures forall t | Reaches(c, s, 1, t) :: !Repeats(t.log) && !HasStale(t)
  {
    forall q | 0 <= q < |s.replicas| && s.replicas[q].phase == Migrating
      ensures UpToDate(s.replicas[q].migration, s.version, |c.chain|)
      ensures s.version == |c.chain| ==> s.replicas[q].migration == InTransaction(s.version, [])
    {
      assert Sound(c, s, q);
    }
    forall t | Reaches(c, s, 1, t)
      ensures !Repeats(t.log) && !HasStale(t)
    {
      var moves :| Leads(c, s, moves, t) && Losses(moves) == 1;
      NothingRepeats(c, s0, s, moves, t);
    }
  }

  /** With the lock no transaction is ever overtaken. Whenever a replica holds it, the loss of its session lets
      one be if and only if another replica is there and a revision is left to run. */
  lemma OvertakenIff<S(!new)>(c: Config<S>, s0: System<S>, s: System<S>, r: nat)
    requires c.design == OwnLockSession && s0.version <= |c.chain| && Inv(c, s0, s) && s.lock == Some(r)
    ensures !HasStale(s)
    ensures (exists t :: Reaches(c, s, 1, t) && HasStale(t)) <==> |s.replicas| >= 2 && s.version < |c.chain|
  {
    forall q | 0 <= q < |s.replicas|
      ensures !Overtaken(s, q)
    {
      assert Sound(c, s, q);
    }
    if |s.replicas| >= 2 && s.version < |c.chain| {
      var q := if r == 0 then 1 else 0;
      var t := OneIsOvertaken(c, s0, s, r, q);
      assert Overtaken(t, q);
    } else {
      NothingLeftToRace(c, s0, s, r);
    }
  }

  /** A replica that is overtaken cannot commit if the version row is checked: its migration can only fail, or
      be killed. */
  lemma OvertakenFailsIff<S(!new)>(c: Config<S>, s: System<S>, r: nat)
    requires r < |s.replicas| && Overtaken(s, r) && s.replicas[r].migration.ran != []
    requires Reached(s.replicas[r].migration) == |c.chain|
    ensures Enabled(c, s, r, Commit) <==> !c.checked
    ensures Enabled(c, s, r, Fail)
  {
  }

  /** Exactly-once rests on the lock or on the check: whenever a replica holds the lock, the loss of its session
      lets a revision take effect twice if and only if another replica is there, a revision is left to run, and
      the version row is not checked. */
  lemma RevisionsRepeatIff<S(!new)>(c: Config<S>, s0: System<S>, s: System<S>, r: nat)
    requires c.design == OwnLockSession && s0.version <= |c.chain| && Inv(c, s0, s) && s.lock == Some(r)
    ensures (exists t :: Reaches(c, s, 1, t) && Repeats(t.log)) <==>
            |s.replicas| >= 2 && s.version < |c.chain| && !c.checked
  {
    assert Sound(c, s, r);
    if |s.replicas| < 2 || s.version == |c.chain| {
      NothingLeftToRace(c, s0, s, r);
    } else if !c.checked {
      var t := BothCommit(c, s0, s, r, if r == 0 then 1 else 0);
      var n := |s.log|;
      assert t.log[n] == s.version == t.log[n + (|c.chain| - s.version)];
    } else {
      InvIsPlain(c, s0, s);
      forall t | Reaches(c, s, 1, t)
        ensures !Repeats(t.log)
      {
        var moves :| Leads(c, s, moves, t) && Losses(moves) == 1;
        CheckedRunsKeepPlain(c, s0, s, moves, t);
      }
    }
  }

  // ----- What the check of the version row gives by itself -----

  /** Version, log and schema agree, and every open transaction has run the next revisions after its base. */
  ghost predicate Plain<S(!new)>(c: Config<S>, s0: System<S>, s: System<S>) {
    && s0.version <= s.version <= |c.chain|
    && s.schema == Upgraded(c.chain, s0.version, s.version, s0.schema)
    && s.log == Range(s0.version, s.version)
    && forall r | 0 <= r < |s.replicas| :: InOrder(c, s, s.replicas[r])
  }

  ghost predicate InOrder<S(!new)>(c: Config<S>, s: System<S>, rep: Replica) {
    rep.phase == Migrating && rep.migration.InTransaction? ==>
      rep.migration.base <= s.version && UpToDate(rep.migration, rep.migration.base, |c.chain|)
  }

  lemma InvIsPlain<S(!new)>(c: Config<S>, s0: System<S>, s: System<S>)
    requires s0.version <= |c.chain| && Inv(c, s0, s)
    ensures Plain(c, s0, s)
  {
    forall r | 0 <= r < |s.replicas|
      ensures InOrder(c, s, s.replicas[r])
    {
      assert Sound(c, s, r);
    }
  }

  lemma CheckedStepKeepsPlain<S(!new)>(c: Config<S>, s0: System<S>, s: System<S>, r: nat, a: Action)
    requires c.checked && s0.version <= |c.chain| && Plain(c, s0, s) && Enabled(c, s, r, a)
    ensures Plain(c, s0, After(c, s, r, a))
  {
    var s' := After(c, s, r, a);
    assert InOrder(c, s, s.replicas[r]);
    if a == Commit {
      var t := s.replicas[r].migration;
      RangeInTwo(s0.version, s.version, s'.version);
      if t.ran != [] {
        AppliedInTwo(c.chain, Range(s0.version, s.version), Range(s.version, s'.version), s0.schema);
      } else {
        assert s.log + [] == s.log;
      }
    }
    forall q | 0 <= q < |s'.replicas|
      ensures InOrder(c, s', s'.replicas[q])
    {
      if q != r {
        assert InOrder(c, s, s.replicas[q]);
      }
    }
  }

  lemma {:induction false} CheckedRunsKeepPlain<S(!new)>(c: Config<S>, s0: System<S>, s: System<S>, moves: seq<Move>, t: System<S>)
    requires c.checked && s0.version <= |c.chain| && Plain(c, s0, s) && Leads(c, s, moves, t)
    ensures Plain(c, s0, t) && !Repeats(t.log)
    decreases |moves|
  {
    if moves != [] {
      CheckedStepKeepsPlain(c, s0, s, moves[0].replica, moves[0].action);
      CheckedRunsKeepPlain(c, s0, After(c, s, moves[0].replica, moves[0].action), moves[1..], t);
    }
  }

  /** With the check, schema, version and exactly-once hold in every run of either design, whatever becomes of
      the lock: what the lock then saves are the migrations that would be refused. */
  lemma CheckedRunsAreExact<S(!new)>(c: Config<S>, s: System<S>, moves: seq<Move>, t: System<S>)
    requires c.checked && Initial(c, s) && Leads(c, s, moves, t)
    ensures s.version <= t.version <= |c.chain|
    ensures t.schema == Upgraded(c.chain, s.version, t.version, s.schema)
    ensures t.log == Range(s.version, t.version) && !Repeats(t.log)
  {
    InitialInv(c, s);
    InvIsPlain(c, s, s);
    CheckedRunsKeepPlain(c, s, s, moves, t);
  }

  /** The same trace is left. */
  lemma CheckedRunsLeaveTheirMarks(c: Config<seq<nat>>, s: System<seq<nat>>, moves: seq<Move>, t: System<seq<nat>>)
    requires c.checked && Initial(c, s) && Leads(c, s, moves, t) && Marks(c.chain)
    ensures t.schema == s.schema + t.log && |t.log| == t.version - s.version
    ensures forall k | 0 <= k < |t.log| :: t.log[k] == s.version + k
  {
    CheckedRunsAreExact(c, s, moves, t);
    MarkedInOrder(c.chain, s.version, t.version, s.schema);
  }

  /** And without the check the trace of what was left of the chain is there twice. */
  lemma BothLeaveTheirMarks(c: Config<seq<nat>>, s0: System<seq<nat>>, s: System<seq<nat>>, r: nat, q: nat)
    returns (t: System<seq<nat>>)
    requires c.design == OwnLockSession && s0.version <= |c.chain| && Inv(c, s0, s) && !c.checked && Marks(c.chain)
    requires s.lock == Some(r) && q < |s.replicas| && q != r
    ensures Reaches(c, s, 1, t)
    ensures t.schema == s.schema + Range(s.version, |c.chain|) + Range(s.version, |c.chain|)
  {
    t := BothCommit(c, s0, s, r, q);
    var once := Upgraded(c.chain, s.version, |c.chain|, s.schema);
    MarkedInOrder(c.chain, s.version, |c.chain|, s.schema);
    MarkedInOrder(c.chain, s.version, |c.chain|, once);
  }
}
