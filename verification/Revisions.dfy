/** Revisions 0006, 0011 and 0012: the upgrade methods as they inspect and change the database, each
    shown to run its list of guarded steps. */
module Revisions {
  import opened Collections
  import opened GuardedUpgrades
  import opened Schema

  // ----- Shared helpers of the revisions -----

  function ColumnSteps(table: string, columns: seq<Column>): seq<Step> {
    seq(|columns|, i requires 0 <= i < |columns| => EnsureColumn(table, columns[i]))
  }

  predicate DistinctNames(columns: seq<Column>) {
    forall i, j | 0 <= i < j < |columns| :: columns[i].name != columns[j].name
  }

  lemma RunOne(step: Step, s: Schema)
    ensures Run([step], s) == Exec(step, s)
  {
    assert [step][1..] == [];
  }

  lemma RunMore(done: seq<Step>, step: Step, s: Schema)
    ensures Run(done + [step], s) ==
            if Run(done, s).error.Some? then Run(done, s) else Exec(step, Run(done, s).schema)
  {
    RunAppend(done, [step], s);
    RunOne(step, Run(done, s).schema);
  }

  lemma {:induction false} NoTableNoColumnStep(table: string, columns: seq<Column>, s: Schema)
    requires table !in s
    ensures Run(ColumnSteps(table, columns), s) == Outcome(s, None)
  {
    SettledRunIsIdle(ColumnSteps(table, columns), s);
  }

  /** `_add_missing_columns`: the existing columns are read once, before the loop. */
  method AddMissingColumns(db: Database, table: string, columns: seq<Column>) returns (error: Option<DdlError>)
    requires DistinctNames(columns)
    modifies db
    ensures Outcome(db.schema, error) == Run(ColumnSteps(table, columns), old(db.schema))
  {
    if table !in db.schema {
      NoTableNoColumnStep(table, columns, db.schema);
      return None;
    }
    ghost var steps, s0 := ColumnSteps(table, columns), db.schema;
    var existing := Names(db.schema[table].columns);
    assert steps[..0] == [];
    for i := 0 to |columns|
      invariant Run(steps[..i], s0) == Outcome(db.schema, None)
      invariant table in db.schema
      invariant forall n :: n in Names(db.schema[table].columns) <==>
                            n in existing || exists j :: 0 <= j < i && columns[j].name == n
    {
      assert steps[..i + 1] == steps[..i] + [EnsureColumn(table, columns[i])];
      RunMore(steps[..i], steps[i], s0);
      ghost var before := db.schema[table].columns;
      if columns[i].name !in existing {
        error := db.OpAddColumn(table, columns[i]);
        assert error.None?;
        assert forall c <- before + [columns[i]] :: c in before || c == columns[i];
        assert Names(before + [columns[i]]) == Names(before) + {columns[i].name};
      }
    }
    assert steps[..|columns|] == steps;
    error := None;
  }

  /** `_create_index`, with or without the check that the indexed columns are there. */
  method CreateIndexIfMissing(db: Database, name: string, table: string, columns: seq<string>, checked: bool)
    returns (error: Option<DdlError>)
    modifies db
    ensures Outcome(db.schema, error) == Exec(EnsureIndex(name, table, columns, checked), old(db.schema))
  {
    error := None;
    if table !in db.schema {
      return;
    }
    if checked && !HasColumns(db.schema, table, columns) {
      return;
    }
    if name !in db.schema[table].indexes {
      error := db.OpCreateIndex(name, table, columns);
    }
  }

  method DropIndexIfPresent(db: Database, name: string, table: string) returns (error: Option<DdlError>)
    modifies db
    ensures Outcome(db.schema, error) == Exec(RemoveIndex(name, table), old(db.schema))
  {
    error := None;
    if table in db.schema && name in db.schema[table].indexes {
      error := db.OpDropIndex(name, table);
    }
  }

  // ----- Revision 0011: leases for background work -----

  const LEASE_COLUMNS := [
    Column("lease_owner", "String(128)"),
    Column("lease_token", "String(36)"),
    Column("lease_expires_at", "DateTime(timezone)"),
    Column("lease_heartbeat_at", "DateTime(timezone)")
  ]

  const OCCURRENCE_COLUMN := Column("lease_occurrence_at", "DateTime(timezone)")

  const PROVIDER_COLUMN := Column("provider", "String(64)")

  const CLAIM_INDEXES := [
    EnsureIndex("ix_work_batch_items_claim", "work_batch_items", ["status", "lease_expires_at", "available_at"], true),
    EnsureIndex("ix_perf_fleet_items_claim", "perf_profile_fleet_items", ["status", "lease_expires_at", "batch_id"], true),
    EnsureIndex("ix_scheduled_tasks_due_claim", "scheduled_tasks", ["status", "next_run_at", "lease_expires_at"], true),
    EnsureIndex("ix_scheduled_tasks_occurrence_claim", "scheduled_tasks",
                ["status", "lease_occurrence_at", "lease_expires_at"], true)
  ]

  const PERFORMANCE_INDEXES := [
    EnsureIndex("ix_tool_calls_tenant_created", "tool_calls", ["tenant_id", "created_at"], true),
    EnsureIndex("ix_tool_calls_tenant_status_created", "tool_calls", ["tenant_id", "status", "created_at"], true),
    EnsureIndex("ix_approvals_tenant_decision_created", "approvals", ["tenant_id", "decision", "created_at"], true),
    EnsureIndex("ix_usage_tenant_provider_model", "usage", ["tenant_id", "provider", "model"], true),
    EnsureIndex("ix_usage_tenant_model_created", "usage", ["tenant_id", "model", "created_at"], true),
    EnsureIndex("ix_assessment_runs_tenant_deleted_started", "assessment_runs",
                ["tenant_id", "deleted_at", "started_at"], true),
    EnsureIndex("ix_assessment_runs_tenant_workload_deleted_started", "assessment_runs",
                ["tenant_id", "workload_id", "deleted_at", "started_at"], true),
    EnsureIndex("ix_cases_tenant_deleted_status_updated", "cases",
                ["tenant_id", "deleted_at", "status", "updated_at"], true),
    EnsureIndex("ix_case_events_tenant_case_created", "case_events", ["tenant_id", "case_id", "created_at"], true),
    EnsureIndex("ix_notifications_tenant_created", "notifications", ["tenant_id", "created_at"], true),
    EnsureIndex("ix_notification_deliveries_tenant_channel_notification", "notification_deliveries",
                ["tenant_id", "channel", "notification_id"], true),
    EnsureIndex("ix_sessions_revoked", "sessions", ["revoked"], true),
    EnsureIndex("ix_sessions_expires", "sessions", ["expires_at"], true),
    EnsureIndex("ix_sessions_last_seen", "sessions", ["last_seen_at"], true),
    EnsureIndex("ix_rbac_scan_runs_tenant_started", "rbac_scan_runs", ["tenant_id", "started_at"], true),
    EnsureIndex("ix_quota_scan_runs_tenant_started", "quota_scan_runs", ["tenant_id", "started_at"], true)
  ]

  const OLD_DELIVERY_INDEX := RemoveIndex("ix_notifdeliv_tenant_channel", "notification_deliveries")

  function LeaseColumnSteps(): seq<Step> {
    ColumnSteps("usage", [PROVIDER_COLUMN])
    + ColumnSteps("work_batch_items", LEASE_COLUMNS)
    + ColumnSteps("perf_profile_fleet_items", LEASE_COLUMNS)
    + ColumnSteps("scheduled_tasks", LEASE_COLUMNS + [OCCURRENCE_COLUMN])
  }

  function Upgrade0011Steps(): seq<Step> {
    LeaseColumnSteps() + (CLAIM_INDEXES + PERFORMANCE_INDEXES) + [OLD_DELIVERY_INDEX]
  }

  method RunIndexes(db: Database, steps: seq<Step>) returns (error: Option<DdlError>)
    requires forall i | 0 <= i < |steps| :: steps[i].EnsureIndex?
    modifies db
    ensures Outcome(db.schema, error) == Run(steps, old(db.schema))
  {
    ghost var s0 := db.schema;
    assert steps[..0] == [];
    for i := 0 to |steps|
      invariant Run(steps[..i], s0) == Outcome(db.schema, None)
    {
      assert steps[..i + 1] == steps[..i] + [steps[i]];
      RunMore(steps[..i], steps[i], s0);
      error := CreateIndexIfMissing(db, steps[i].name, steps[i].table, steps[i].columns, steps[i].checked);
      if error.Some? {
        assert steps == steps[..i + 1] + steps[i + 1..];
        RunAppend(steps[..i + 1], steps[i + 1..], s0);
        return;
      }
    }
    assert steps[..|steps|] == steps;
    error := None;
  }

  method AddLeaseColumns(db: Database) returns (error: Option<DdlError>)
    modifies db
    ensures Outcome(db.schema, error) == Run(LeaseColumnSteps(), old(db.schema))
  {
    ghost var s0 := db.schema;
    ghost var a, b, c := ColumnSteps("usage", [PROVIDER_COLUMN]), ColumnSteps("work_batch_items", LEASE_COLUMNS),
                         ColumnSteps("perf_profile_fleet_items", LEASE_COLUMNS);
    ghost var d := ColumnSteps("scheduled_tasks", LEASE_COLUMNS + [OCCURRENCE_COLUMN]);
    RunAppend(a + b + c, d, s0);
    RunAppend(a + b, c, s0);
    RunAppend(a, b, s0);
    error := AddMissingColumns(db, "usage", [PROVIDER_COLUMN]);
    if error.Some? { return; }
    error := AddMissingColumns(db, "work_batch_items", LEASE_COLUMNS);
    if error.Some? { return; }
    error := AddMissingColumns(db, "perf_profile_fleet_items", LEASE_COLUMNS);
    if error.Some? { return; }
    error := AddMissingColumns(db, "scheduled_tasks", LEASE_COLUMNS + [OCCURRENCE_COLUMN]);
  }

  /** Indexes, then the removal of an index. */
  method RunIndexesAndRemoval(db: Database, first: seq<Step>, second: seq<Step>, removal: Step)
    returns (error: Option<DdlError>)
    requires forall i | 0 <= i < |first| :: first[i].EnsureIndex?
    requires forall i | 0 <= i < |second| :: second[i].EnsureIndex?
    requires removal.RemoveIndex?
    modifies db
    ensures Outcome(db.schema, error) == Run(first + second + [removal], old(db.schema))
  {
    RunMore(first + second, removal, db.schema);
    RunAppend(first, second, db.schema);
    error := RunIndexes(db, first);
    if error.Some? { return; }
    error := RunIndexes(db, second);
    if error.Some? { return; }
    error := DropIndexIfPresent(db, removal.name, removal.table);
  }

  lemma RunPhases(columns: seq<Step>, first: seq<Step>, second: seq<Step>, removal: Step, s: Schema)
    ensures Run(columns + (first + second) + [removal], s) ==
            if Run(columns, s).error.Some? then Run(columns, s)
            else Run(first + second + [removal], Run(columns, s).schema)
  {
    RunAppend(columns, first + second + [removal], s);
    assert columns + (first + second) + [removal] == columns + (first + second + [removal]);
  }

  /** The body of the upgrade, for any such lists. */
  method AddColumnsThenIndexes(db: Database, first: seq<Step>, second: seq<Step>, removal: Step)
    returns (error: Option<DdlError>)
    requires forall i | 0 <= i < |first| :: first[i].EnsureIndex?
    requires forall i | 0 <= i < |second| :: second[i].EnsureIndex?
    requires removal.RemoveIndex?
    modifies db
    ensures Outcome(db.schema, error) == Run(LeaseColumnSteps() + (first + second) + [removal], old(db.schema))
  {
    RunPhases(LeaseColumnSteps(), first, second, removal, db.schema);
    error := AddLeaseColumns(db);
    if error.Some? { return; }
    error := RunIndexesAndRemoval(db, first, second, removal);
  }

  method Upgrade0011(db: Database) returns (error: Option<DdlError>)
    modifies db
    ensures Outcome(db.schema, error) == Run(Upgrade0011Steps(), old(db.schema))
    ensures error.None? ==> Is0011(db.schema)
  {
    error := AddColumnsThenIndexes(db, CLAIM_INDEXES, PERFORMANCE_INDEXES, OLD_DELIVERY_INDEX);
    if error.None? {
      Achieves0011(old(db.schema));
    }
  }

  /** Columns first, then indexes, then the removal of an index nobody created: such an upgrade is
      ordered. */
  lemma PhasesAreOrdered(columns: seq<Step>, indexes: seq<Step>, removal: Step)
    requires forall i | 0 <= i < |columns| :: columns[i].EnsureColumn?
    requires forall i | 0 <= i < |indexes| :: indexes[i].EnsureIndex?
    requires removal.RemoveIndex?
    requires forall i | 0 <= i < |indexes| :: indexes[i].name != removal.name || indexes[i].table != removal.table
    ensures Ordered(columns + indexes + [removal])
  {
  }

  lemma Upgrade0011IsOrdered()
    ensures Ordered(Upgrade0011Steps())
  {
    PhasesAreOrdered(LeaseColumnSteps(), CLAIM_INDEXES + PERFORMANCE_INDEXES, OLD_DELIVERY_INDEX);
  }

  // ----- Revision 0012: registries of durable jobs -----

  const JOBS := EnsureTable("durable_jobs", Table([
    Column("id", "String(36) PRIMARY KEY"), Column("tenant_id", "String(128) NOT NULL"),
    Column("feature", "String(64) NOT NULL"), Column("job_key", "String(512) NOT NULL"),
    Column("status", "String(16) NOT NULL"), Column("owner_id", "String(128)"),
    Column("lease_token", "String(36)"), Column("lease_expires_at", "DateTime(timezone)"),
    Column("lease_heartbeat_at", "DateTime(timezone)"), Column("cancel_requested", "Boolean NOT NULL DEFAULT false"),
    Column("attempt", "Integer NOT NULL DEFAULT 1"), Column("next_event_seq", "Integer NOT NULL DEFAULT 0"),
    Column("metadata_json", "JSON NOT NULL"), Column("result_json", "JSON"), Column("error", "Text"),
    Column("started_at", "DateTime(timezone) NOT NULL"), Column("finished_at", "DateTime(timezone)"),
    Column("expires_at", "DateTime(timezone)"), Column("updated_at", "DateTime(timezone) NOT NULL")
  ], map[]), {})

  const JOB_INDEXES := [
    EnsureIndex("ix_durable_jobs_scope_started", "durable_jobs", ["tenant_id", "feature", "job_key", "started_at"], false),
    EnsureIndex("ix_durable_jobs_active", "durable_jobs", ["tenant_id", "feature", "status"], false),
    EnsureIndex("ix_durable_jobs_cleanup", "durable_jobs", ["status", "expires_at"], false)
  ]

  const SLOTS := EnsureTable("durable_job_slots", Table([
    Column("id", "String(36) PRIMARY KEY"), Column("tenant_id", "String(128) NOT NULL"),
    Column("feature", "String(64) NOT NULL"), Column("job_key", "String(512) NOT NULL"),
    Column("current_job_id", "String(36)"), Column("lease_owner", "String(128)"),
    Column("lease_token", "String(36)"), Column("lease_expires_at", "DateTime(timezone)"),
    Column("updated_at", "DateTime(timezone) NOT NULL")
  ], map[]), {"durable_jobs"})

  const SLOT_INDEXES := [EnsureIndex("ix_durable_job_slots_lease", "durable_job_slots", ["lease_expires_at"], false)]

  const EVENTS := EnsureTable("durable_job_events", Table([
    Column("id", "String(36) PRIMARY KEY"), Column("job_id", "String(36) NOT NULL"),
    Column("seq", "Integer NOT NULL"), Column("event_type", "String(64) NOT NULL"),
    Column("data_json", "JSON NOT NULL"), Column("created_at", "DateTime(timezone) NOT NULL")
  ], map[]), {"durable_jobs"})

  const EVENT_INDEXES := [
    EnsureIndex("ix_durable_job_events_job_id", "durable_job_events", ["job_id"], false),
    EnsureIndex("ix_durable_job_events_job_seq", "durable_job_events", ["job_id", "seq"], false)
  ]

  /** A table is created only if missing, then its indexes are. */
  function Registry(create: Step, indexes: seq<Step>): seq<Step> {
    [create] + indexes
  }

  function Upgrade0012Steps(): seq<Step> {
    Registry(JOBS, JOB_INDEXES) + Registry(SLOTS, SLOT_INDEXES) + Registry(EVENTS, EVENT_INDEXES)
  }

  method AddRegistry(db: Database, create: Step, indexes: seq<Step>) returns (error: Option<DdlError>)
    requires create.EnsureTable?
    requires forall i | 0 <= i < |indexes| :: indexes[i].EnsureIndex?
    modifies db
    ensures Outcome(db.schema, error) == Run(Registry(create, indexes), old(db.schema))
  {
    RunAppend([create], indexes, db.schema);
    RunOne(create, db.schema);
    var tables := db.schema.Keys;
    if create.table !in tables {
      error := db.OpCreateTable(create.table, create.def, create.references);
      if error.Some? { return; }
    }
    error := RunIndexes(db, indexes);
  }

  method AddRegistries(db: Database, t1: Step, i1: seq<Step>, t2: Step, i2: seq<Step>, t3: Step, i3: seq<Step>)
    returns (error: Option<DdlError>)
    requires t1.EnsureTable? && t2.EnsureTable? && t3.EnsureTable?
    requires forall i | 0 <= i < |i1| :: i1[i].EnsureIndex?
    requires forall i | 0 <= i < |i2| :: i2[i].EnsureIndex?
    requires forall i | 0 <= i < |i3| :: i3[i].EnsureIndex?
    modifies db
    ensures Outcome(db.schema, error) == Run(Registry(t1, i1) + Registry(t2, i2) + Registry(t3, i3), old(db.schema))
  {
    RunAppend(Registry(t1, i1) + Registry(t2, i2), Registry(t3, i3), db.schema);
    RunAppend(Registry(t1, i1), Registry(t2, i2), db.schema);
    error := AddRegistry(db, t1, i1);
    if error.Some? { return; }
    error := AddRegistry(db, t2, i2);
    if error.Some? { return; }
    error := AddRegistry(db, t3, i3);
  }

  method Upgrade0012(db: Database) returns (error: Option<DdlError>)
    modifies db
    ensures Outcome(db.schema, error) == Run(Upgrade0012Steps(), old(db.schema))
    ensures error.None? ==> Is0012(db.schema)
  {
    error := AddRegistries(db, JOBS, JOB_INDEXES, SLOTS, SLOT_INDEXES, EVENTS, EVENT_INDEXES);
    if error.None? {
      Achieves0012(old(db.schema));
    }
  }

  predicate IndexesOf(table: string, steps: seq<Step>) {
    forall i | 0 <= i < |steps| :: steps[i].EnsureIndex? && steps[i].table == table
  }

  lemma RegistriesAreOrdered(t1: Step, i1: seq<Step>, t2: Step, i2: seq<Step>, t3: Step, i3: seq<Step>)
    requires t1.EnsureTable? && t2.EnsureTable? && t3.EnsureTable?
    requires IndexesOf(t1.table, i1) && IndexesOf(t2.table, i2) && IndexesOf(t3.table, i3)
    requires t1.table != t2.table && t1.table != t3.table && t2.table != t3.table
    ensures Ordered(Registry(t1, i1) + Registry(t2, i2) + Registry(t3, i3))
  {
    var steps := Registry(t1, i1) + Registry(t2, i2) + Registry(t3, i3);
    forall i, j | 0 <= i < j < |steps|
      ensures !Disturbs(steps[j], steps[i])
    {
      if steps[j].EnsureTable? && !steps[i].EnsureTable? {
        var n1, n2 := |i1| + 1, |i1| + |i2| + 2;
        assert steps[j] == t2 ==> i < n2;
      }
    }
  }

  lemma Upgrade0012IsOrdered()
    ensures Ordered(Upgrade0012Steps())
  {
    RegistriesAreOrdered(JOBS, JOB_INDEXES, SLOTS, SLOT_INDEXES, EVENTS, EVENT_INDEXES);
  }

  // ----- Revision 0006: the principal a case is about -----

  const PRINCIPAL_COLUMNS := [
    Column("principal_id", "String(128)"), Column("principal_name", "String(256)"), Column("principal_kind", "String(32)")
  ]

  const PRINCIPAL_INDEX := EnsureIndex("ix_cases_principal_id", "cases", ["principal_id"], false)

  function Upgrade0006Steps(): seq<Step> {
    ColumnSteps("cases", PRINCIPAL_COLUMNS) + [PRINCIPAL_INDEX]
  }

  method Upgrade0006(db: Database) returns (error: Option<DdlError>)
    modifies db
    ensures Outcome(db.schema, error) == Run(Upgrade0006Steps(), old(db.schema))
    ensures error.None? ==> Is0006(db.schema)
  {
    RunMore(ColumnSteps("cases", PRINCIPAL_COLUMNS), PRINCIPAL_INDEX, db.schema);
    if "cases" !in db.schema {
      NoTableNoColumnStep("cases", PRINCIPAL_COLUMNS, db.schema);
      return None;
    }
    error := AddMissingColumns(db, "cases", PRINCIPAL_COLUMNS);
    if error.Some? { return; }
    error := CreateIndexIfMissing(db, PRINCIPAL_INDEX.name, "cases", PRINCIPAL_INDEX.columns, false);
    if error.None? {
      Achieves0006(old(db.schema));
    }
  }

  lemma Upgrade0006IsOrdered()
    ensures Ordered(Upgrade0006Steps())
  {
  }

  // ----- The three upgrades resume -----

  /** Wherever earlier attempts at 0006, 0011 or 0012 were cut off, and whatever tables existed at first,
      the upgrade ends as one clean run from the original schema does. */
  lemma UpgradesResume(steps: seq<Step>, cuts: seq<nat>, s: Schema)
    requires steps == Upgrade0006Steps() || steps == Upgrade0011Steps() || steps == Upgrade0012Steps()
    requires forall i | 0 <= i < |cuts| :: cuts[i] <= |steps|
    ensures Run(steps, Attempts(steps, cuts, s)) == Run(steps, s)
    ensures Run(steps, s).error.None? ==>
              Run(steps, Run(steps, s).schema) == Run(steps, s) && AllSettled(steps, Run(steps, s).schema)
    ensures Extends(steps, s, Run(steps, s).schema)
  {
    Upgrade0006IsOrdered();
    Upgrade0011IsOrdered();
    Upgrade0012IsOrdered();
    InterruptionsDoNotMatter(steps, cuts, s);
    if Run(steps, s).error.None? {
      RunIsIdempotent(steps, s);
      RunSettlesAll(steps, s);
    }
    RunExtends(steps, s);
  }

  // ----- What the three upgrades achieve, said of the schema alone -----

  /** Leased tables have their lease, and the claims of each are indexed where the other columns are there. */
  ghost predicate Leased(s: Schema, t: string) {
    && HasColumn(s, t, "lease_owner") && HasColumn(s, t, "lease_token")
    && HasColumn(s, t, "lease_expires_at") && HasColumn(s, t, "lease_heartbeat_at")
  }

  ghost predicate Indexed(s: Schema, name: string, t: string, columns: seq<string>) {
    t in s && (forall c <- columns :: HasColumn(s, t, c)) ==> name in s[t].indexes
  }

  lemma DoneColumn(steps: seq<Step>, s: Schema, t: string, c: Column)
    requires (forall step <- steps :: Done(step, s)) && EnsureColumn(t, c) in steps && t in s
    ensures HasColumn(s, t, c.name)
  {
    assert Done(EnsureColumn(t, c), s);
  }

  lemma DoneIndex(steps: seq<Step>, s: Schema, name: string, t: string, columns: seq<string>)
    requires (forall step <- steps :: Done(step, s)) && EnsureIndex(name, t, columns, true) in steps
    ensures Indexed(s, name, t, columns)
  {
    assert Done(EnsureIndex(name, t, columns, true), s);
  }

  lemma InColumnSteps(t: string, columns: seq<Column>, i: nat)
    requires i < |columns|
    ensures EnsureColumn(t, columns[i]) in ColumnSteps(t, columns)
  {
    assert ColumnSteps(t, columns)[i] == EnsureColumn(t, columns[i]);
  }

  lemma LeaseSteps(t: string, i: nat)
    requires t in {"work_batch_items", "perf_profile_fleet_items", "scheduled_tasks"} && i < 4
    ensures EnsureColumn(t, LEASE_COLUMNS[i]) in Upgrade0011Steps()
  {
    InColumnSteps(t, LEASE_COLUMNS, i);
    var all := LEASE_COLUMNS + [OCCURRENCE_COLUMN];
    InColumnSteps(t, all, i);
    assert all[i] == LEASE_COLUMNS[i];
    FirstSteps(EnsureColumn(t, LEASE_COLUMNS[i]));
  }

  lemma FirstSteps(step: Step)
    ensures step in LeaseColumnSteps() || step in CLAIM_INDEXES || step in PERFORMANCE_INDEXES || step == OLD_DELIVERY_INDEX ==>
              step in Upgrade0011Steps()
  {
  }

  lemma LeasedByRun(s: Schema, t: string)
    requires (forall step <- Upgrade0011Steps() :: Done(step, s)) && t in s
    requires t in {"work_batch_items", "perf_profile_fleet_items", "scheduled_tasks"}
    ensures Leased(s, t)
  {
    var names := ["lease_owner", "lease_token", "lease_expires_at", "lease_heartbeat_at"];
    forall i | 0 <= i < 4
      ensures HasColumn(s, t, names[i])
    {
      LeaseSteps(t, i);
      DoneColumn(Upgrade0011Steps(), s, t, LEASE_COLUMNS[i]);
      assert LEASE_COLUMNS[i].name == names[i];
    }
    assert HasColumn(s, t, names[0]) && HasColumn(s, t, names[1]) && HasColumn(s, t, names[2]) && HasColumn(s, t, names[3]);
  }

  lemma OtherColumns(s: Schema)
    requires forall step <- Upgrade0011Steps() :: Done(step, s)
    ensures "scheduled_tasks" in s ==> HasColumn(s, "scheduled_tasks", "lease_occurrence_at")
    ensures "usage" in s ==> HasColumn(s, "usage", "provider")
  {
    var all := LEASE_COLUMNS + [OCCURRENCE_COLUMN];
    InColumnSteps("scheduled_tasks", all, 4);
    assert all[4] == OCCURRENCE_COLUMN;
    InColumnSteps("usage", [PROVIDER_COLUMN], 0);
    FirstSteps(EnsureColumn("scheduled_tasks", OCCURRENCE_COLUMN));
    FirstSteps(EnsureColumn("usage", PROVIDER_COLUMN));
    if "scheduled_tasks" in s { DoneColumn(Upgrade0011Steps(), s, "scheduled_tasks", OCCURRENCE_COLUMN); }
    if "usage" in s { DoneColumn(Upgrade0011Steps(), s, "usage", PROVIDER_COLUMN); }
  }

  lemma IndexByRun(s: Schema, step: Step)
    requires (forall step <- Upgrade0011Steps() :: Done(step, s)) && step in Upgrade0011Steps()
    requires step.EnsureIndex? && step.checked
    ensures Indexed(s, step.name, step.table, step.columns)
  {
    DoneIndex(Upgrade0011Steps(), s, step.name, step.table, step.columns);
  }

  lemma ClaimSteps()
    ensures forall i | 0 <= i < |CLAIM_INDEXES| :: CLAIM_INDEXES[i].EnsureIndex? && CLAIM_INDEXES[i].checked
  {
  }

  lemma PerformanceSteps()
    ensures forall i | 0 <= i < |PERFORMANCE_INDEXES| :: PERFORMANCE_INDEXES[i].EnsureIndex? && PERFORMANCE_INDEXES[i].checked
  {
  }

  lemma ClaimsByRun(s: Schema, i: nat)
    requires (forall step <- Upgrade0011Steps() :: Done(step, s)) && i < |CLAIM_INDEXES|
    requires CLAIM_INDEXES[i].EnsureIndex? && CLAIM_INDEXES[i].checked
    ensures Indexed(s, CLAIM_INDEXES[i].name, CLAIM_INDEXES[i].table, CLAIM_INDEXES[i].columns)
  {
    assert CLAIM_INDEXES[i] in CLAIM_INDEXES;
    FirstSteps(CLAIM_INDEXES[i]);
    IndexByRun(s, CLAIM_INDEXES[i]);
  }

  /** Claims are indexed where the columns are there, and so are the queries of the performance indexes. */
  ghost predicate ClaimsIndexed(s: Schema) {
    && Indexed(s, "ix_work_batch_items_claim", "work_batch_items", ["status", "lease_expires_at", "available_at"])
    && Indexed(s, "ix_perf_fleet_items_claim", "perf_profile_fleet_items", ["status", "lease_expires_at", "batch_id"])
    && Indexed(s, "ix_scheduled_tasks_due_claim", "scheduled_tasks", ["status", "next_run_at", "lease_expires_at"])
    && Indexed(s, "ix_scheduled_tasks_occurrence_claim", "scheduled_tasks", ["status", "lease_occurrence_at", "lease_expires_at"])
  }

  ghost predicate QueriesIndexed(s: Schema) {
    forall i | 0 <= i < |PERFORMANCE_INDEXES| ::
      Indexed(s, PERFORMANCE_INDEXES[i].name, PERFORMANCE_INDEXES[i].table, PERFORMANCE_INDEXES[i].columns)
  }

  ghost predicate AllLeased(s: Schema) {
    && ("work_batch_items" in s ==> Leased(s, "work_batch_items"))
    && ("perf_profile_fleet_items" in s ==> Leased(s, "perf_profile_fleet_items"))
    && ("scheduled_tasks" in s ==> Leased(s, "scheduled_tasks") && HasColumn(s, "scheduled_tasks", "lease_occurrence_at"))
    && ("usage" in s ==> HasColumn(s, "usage", "provider"))
  }

  /** Revision 0011 without an error: every leased table that is there has its lease, scheduled tasks also the
      occurrence they are claimed for, usage its provider; the indexes are there; the old delivery index is
      gone. */
  ghost predicate Is0011(s: Schema) {
    && AllLeased(s) && ClaimsIndexed(s) && QueriesIndexed(s)
    && ("notification_deliveries" in s ==> "ix_notifdeliv_tenant_channel" !in s["notification_deliveries"].indexes)
  }

  lemma LeasesByRun(s: Schema)
    requires forall step <- Upgrade0011Steps() :: Done(step, s)
    ensures AllLeased(s)
  {
    if "work_batch_items" in s { LeasedByRun(s, "work_batch_items"); }
    if "perf_profile_fleet_items" in s { LeasedByRun(s, "perf_profile_fleet_items"); }
    if "scheduled_tasks" in s { LeasedByRun(s, "scheduled_tasks"); }
    OtherColumns(s);
  }

  lemma AllClaimsByRun(s: Schema)
    requires forall step <- Upgrade0011Steps() :: Done(step, s)
    ensures ClaimsIndexed(s)
  {
    ClaimSteps();
    ClaimsByRun(s, 0);
    ClaimsByRun(s, 1);
    ClaimsByRun(s, 2);
    ClaimsByRun(s, 3);
  }

  lemma QueriesByRun(s: Schema)
    requires forall step <- Upgrade0011Steps() :: Done(step, s)
    ensures QueriesIndexed(s)
  {
    PerformanceSteps();
    forall i | 0 <= i < |PERFORMANCE_INDEXES|
      ensures Indexed(s, PERFORMANCE_INDEXES[i].name, PERFORMANCE_INDEXES[i].table, PERFORMANCE_INDEXES[i].columns)
    {
      assert PERFORMANCE_INDEXES[i] in PERFORMANCE_INDEXES;
      FirstSteps(PERFORMANCE_INDEXES[i]);
      IndexByRun(s, PERFORMANCE_INDEXES[i]);
    }
  }

  lemma RemovedByRun(s: Schema)
    requires forall step <- Upgrade0011Steps() :: Done(step, s)
    ensures "notification_deliveries" in s ==> "ix_notifdeliv_tenant_channel" !in s["notification_deliveries"].indexes
  {
    FirstSteps(OLD_DELIVERY_INDEX);
    assert Done(OLD_DELIVERY_INDEX, s);
  }

  lemma Achieves0011(s: Schema)
    requires Run(Upgrade0011Steps(), s).error.None?
    ensures Is0011(Run(Upgrade0011Steps(), s).schema)
  {
    var s' := Run(Upgrade0011Steps(), s).schema;
    Upgrade0011IsOrdered();
    RunIsDone(Upgrade0011Steps(), s);
    LeasesByRun(s');
    AllClaimsByRun(s');
    QueriesByRun(s');
    RemovedByRun(s');
  }

  /** Revision 0006 without an error: cases that are there name their principal, and are indexed by it. */
  ghost predicate Is0006(s: Schema) {
    "cases" in s ==>
      && HasColumn(s, "cases", "principal_id") && HasColumn(s, "cases", "principal_name")
      && HasColumn(s, "cases", "principal_kind") && "ix_cases_principal_id" in s["cases"].indexes
  }

  lemma Achieves0006(s: Schema)
    requires Run(Upgrade0006Steps(), s).error.None?
    ensures Is0006(Run(Upgrade0006Steps(), s).schema)
  {
    var s' := Run(Upgrade0006Steps(), s).schema;
    Upgrade0006IsOrdered();
    RunIsDone(Upgrade0006Steps(), s);
    InColumnSteps("cases", PRINCIPAL_COLUMNS, 0);
    InColumnSteps("cases", PRINCIPAL_COLUMNS, 1);
    InColumnSteps("cases", PRINCIPAL_COLUMNS, 2);
    assert PRINCIPAL_INDEX in Upgrade0006Steps();
    assert Done(PRINCIPAL_INDEX, s');
    if "cases" in s' {
      DoneColumn(Upgrade0006Steps(), s', "cases", PRINCIPAL_COLUMNS[0]);
      DoneColumn(Upgrade0006Steps(), s', "cases", PRINCIPAL_COLUMNS[1]);
      DoneColumn(Upgrade0006Steps(), s', "cases", PRINCIPAL_COLUMNS[2]);
    }
  }

  /** Revision 0012 without an error: the three registries are there with their indexes. */
  ghost predicate Is0012(s: Schema) {
    && "durable_jobs" in s && "durable_job_slots" in s && "durable_job_events" in s
    && (forall n | n in {"ix_durable_jobs_scope_started", "ix_durable_jobs_active", "ix_durable_jobs_cleanup"} ::
          n in s["durable_jobs"].indexes)
    && "ix_durable_job_slots_lease" in s["durable_job_slots"].indexes
    && "ix_durable_job_events_job_id" in s["durable_job_events"].indexes
    && "ix_durable_job_events_job_seq" in s["durable_job_events"].indexes
  }

  lemma Achieves0012(s: Schema)
    requires Run(Upgrade0012Steps(), s).error.None?
    ensures Is0012(Run(Upgrade0012Steps(), s).schema)
  {
    Upgrade0012IsOrdered();
    RunIsDone(Upgrade0012Steps(), s);
    DoneIs0012(Upgrade0012Steps(), Run(Upgrade0012Steps(), s).schema);
  }

  lemma DoneIs0012(steps: seq<Step>, s: Schema)
    requires steps == Upgrade0012Steps() && forall step <- steps :: Done(step, s)
    ensures Is0012(s)
  {
    assert steps[0] == JOBS && steps[4] == SLOTS && steps[6] == EVENTS;
    assert Done(steps[0], s) && Done(steps[4], s) && Done(steps[6], s);
    assert steps[1] == JOB_INDEXES[0] && steps[2] == JOB_INDEXES[1] && steps[3] == JOB_INDEXES[2];
    assert Done(steps[1], s) && Done(steps[2], s) && Done(steps[3], s);
    assert steps[5] == SLOT_INDEXES[0] && steps[7] == EVENT_INDEXES[0] && steps[8] == EVENT_INDEXES[1];
    assert Done(steps[5], s) && Done(steps[7], s) && Done(steps[8], s);
  }
}
