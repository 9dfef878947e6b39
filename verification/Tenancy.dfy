/** Revision 0010: role and group names, unique in the whole installation before, become unique per
    tenant. Upgrade and downgrade change columns, constraints, indexes and rows of live tables. */
module Tenancy {
  import opened Collections

  // ----- Tables with rows -----

  /** `tenant` is the value of the tenant_id column, if the table has that column. */
  datatype Row = Row(id: int, name: string, tenant: Option<string>)

  /** A unique constraint. SQLite may leave it unnamed. */
  datatype Unique = Unique(name: Option<string>, columns: seq<string>)

  datatype Table = Table(hasTenant: bool, rows: seq<Row>, uniques: seq<Unique>, indexes: map<string, seq<string>>)

  datatype Error = RepeatedName(table: string) | UniqueViolation | NoSuchConstraint | DuplicateConstraint

  const TENANT_ID := "tenant_id"
  const BY_NAME := ["name"]
  const BY_TENANT_AND_NAME := [TENANT_ID, "name"]
  const DEFAULT_TENANT := "default"

  function TenantIndex(table: string): string { "ix_" + table + "_tenant_id" }
  function NameConstraint(table: string): string { "uq_" + table + "_name" }
  function TenantNameConstraint(table: string): string { "uq_" + table + "_tenant_name" }

  /** The name a constraint goes by under the batch's naming convention. */
  function NameOf(table: string, u: Unique): string {
    if u.name.Some? then u.name.value
    else "uq_" + table + "_" + if u.columns == [] then "" else u.columns[0]
  }

  predicate Has(t: Table, columns: seq<string>) {
    exists i :: 0 <= i < |t.uniques| && t.uniques[i].columns == columns
  }

  predicate NamesDiffer(rows: seq<Row>) {
    forall i, j | 0 <= i < j < |rows| :: rows[i].name != rows[j].name
  }

  predicate TenantNamesDiffer(rows: seq<Row>) {
    forall i, j | 0 <= i < j < |rows| :: rows[i].name != rows[j].name || rows[i].tenant != rows[j].tenant
  }

  /** What the database itself guarantees: the columns rows have, and its unique constraints. */
  predicate Consistent(t: Table) {
    && (forall i | 0 <= i < |t.rows| :: t.rows[i].tenant.Some? <==> t.hasTenant)
    && (Has(t, BY_NAME) ==> NamesDiffer(t.rows))
    && (Has(t, BY_TENANT_AND_NAME) ==> TenantNamesDiffer(t.rows))
    && (!t.hasTenant ==> forall i | 0 <= i < |t.uniques| :: TENANT_ID !in t.uniques[i].columns)
    && (!t.hasTenant ==> forall n <- t.indexes :: TENANT_ID !in t.indexes[n])
  }

  /** The two constraint names of the revision are not used for anything else. */
  predicate Conventional(table: string, t: Table) {
    && (forall i | 0 <= i < |t.uniques| ::
          && (NameOf(table, t.uniques[i]) == TenantNameConstraint(table) <==> t.uniques[i].columns == BY_TENANT_AND_NAME)
          && (NameOf(table, t.uniques[i]) == NameConstraint(table) ==> t.uniques[i].columns == BY_NAME))
    && (forall i, j | 0 <= i < j < |t.uniques| :: NameOf(table, t.uniques[i]) != NameOf(table, t.uniques[j]))
  }

  // ----- Operations on one table -----

  function Drop(us: seq<Unique>, i: nat): seq<Unique>
    requires i < |us|
  {
    us[..i] + us[i + 1..]
  }

  /** The place of the first constraint on these columns, or `|us|`. */
  function FirstOn(us: seq<Unique>, columns: seq<string>): (i: nat)
    ensures i <= |us| && (i < |us| ==> us[i].columns == columns) && forall j | 0 <= j < i :: us[j].columns != columns
  {
    if us == [] || us[0].columns == columns then 0 else 1 + FirstOn(us[1..], columns)
  }

  /** The place of the first constraint of this name, or `|us|`. */
  function FirstNamed(table: string, us: seq<Unique>, name: string): (i: nat)
    ensures i <= |us| && (i < |us| ==> NameOf(table, us[i]) == name)
    ensures forall j | 0 <= j < i :: NameOf(table, us[j]) != name
  {
    if us == [] || NameOf(table, us[0]) == name then 0 else 1 + FirstNamed(table, us[1..], name)
  }

  function DropUnique(table: string, t: Table, name: string): (Table, Option<Error>) {
    var i := FirstNamed(table, t.uniques, name);
    if i == |t.uniques| then (t, Some(NoSuchConstraint)) else (t.(uniques := Drop(t.uniques, i)), None)
  }

  predicate Satisfied(t: Table, columns: seq<string>) {
    (columns == BY_NAME ==> NamesDiffer(t.rows)) && (columns == BY_TENANT_AND_NAME ==> TenantNamesDiffer(t.rows))
  }

  function CreateUnique(table: string, t: Table, name: string, columns: seq<string>): (Table, Option<Error>) {
    if exists i :: 0 <= i < |t.uniques| && NameOf(table, t.uniques[i]) == name then (t, Some(DuplicateConstraint))
    else if !Satisfied(t, columns) then (t, Some(UniqueViolation))
    else (t.(uniques := t.uniques + [Unique(Some(name), columns)]), None)
  }

  function SetTenant(rows: seq<Row>, tenant: Option<string>): seq<Row> {
    seq(|rows|, i requires 0 <= i < |rows| => rows[i].(tenant := tenant))
  }

  /** The first loop of the upgrade: the column with its server default, and its index. */
  function WithTenant(table: string, t: Table): Table {
    var t1 := if t.hasTenant then t else t.(hasTenant := true, rows := SetTenant(t.rows, Some(DEFAULT_TENANT)));
    if TenantIndex(table) in t1.indexes then t1 else t1.(indexes := t1.indexes[TenantIndex(table) := [TENANT_ID]])
  }

  /** The second loop of the upgrade: one uniqueness gives way to the other. */
  function Scoped(table: string, t: Table): (Table, Option<Error>) {
    if Has(t, BY_TENANT_AND_NAME) then (t, None) else
    var i := FirstOn(t.uniques, BY_NAME);
    var (t1, e) := if i == |t.uniques| then (t, None)
                   else DropUnique(table, t, if t.uniques[i].name.Some? then t.uniques[i].name.value else NameConstraint(table));
    if e.Some? then (t1, e) else CreateUnique(table, t1, TenantNameConstraint(table), BY_TENANT_AND_NAME)
  }

  /** The constraint loop of the downgrade. */
  function Unscoped(table: string, t: Table): (Table, Option<Error>) {
    var (t1, e) := if Has(t, BY_TENANT_AND_NAME) then DropUnique(table, t, TenantNameConstraint(table)) else (t, None);
    if e.Some? then (t1, e)
    else if Has(t, BY_NAME) then (t1, None)
    else CreateUnique(table, t1, NameConstraint(table), BY_NAME)
  }

  function Without(us: seq<Unique>, column: string): seq<Unique> {
    if us == [] then []
    else (if column in us[0].columns then [] else [us[0]]) + Without(us[1..], column)
  }

  /** The last loop of the downgrade. A dropped column takes its constraints and indexes along. */
  function WithoutTenant(table: string, t: Table): Table {
    var t1 := t.(indexes := t.indexes - {TenantIndex(table)});
    if !t1.hasTenant then t1 else
    t1.(hasTenant := false, rows := SetTenant(t1.rows, None), uniques := Without(t1.uniques, TENANT_ID),
        indexes := map n | n in t1.indexes && TENANT_ID !in t1.indexes[n] :: t1.indexes[n])
  }

  // ----- What the operations do to one table -----

  predicate SameRecords(a: seq<Row>, b: seq<Row>) {
    |a| == |b| && forall i | 0 <= i < |a| :: a[i].id == b[i].id && a[i].name == b[i].name
  }

  /** The column comes with the default tenant for every row, and rows that have a tenant keep it. */
  lemma WithTenantKeepsRows(table: string, t: Table)
    requires Consistent(t) && Conventional(table, t)
    ensures var t' := WithTenant(table, t);
            && Consistent(t') && Conventional(table, t') && t'.hasTenant && t'.uniques == t.uniques
            && SameRecords(t.rows, t'.rows)
            && (forall i | 0 <= i < |t.rows| :: t'.rows[i].tenant ==
                  if t.hasTenant then t.rows[i].tenant else Some(DEFAULT_TENANT))
            && TenantIndex(table) in t'.indexes
    ensures !t.hasTenant ==> (TenantNamesDiffer(WithTenant(table, t).rows) <==> NamesDiffer(t.rows))
  {
    var t' := WithTenant(table, t);
    assert forall i | 0 <= i < |t.rows| :: t'.rows[i].name == t.rows[i].name;
    assert BY_TENANT_AND_NAME[0] == TENANT_ID;
    assert !t.hasTenant ==> !Has(t, BY_TENANT_AND_NAME);
  }

  lemma DropKeepsTheRest(us: seq<Unique>, i: nat)
    requires i < |us|
    ensures forall u :: u in Drop(us, i) ==> u in us
    ensures forall k | 0 <= k < |us| - 1 :: Drop(us, i)[k] == us[if k < i then k else k + 1]
    ensures forall j | 0 <= j < |us| && j != i :: us[j] in Drop(us, i)
  {
    forall j | 0 <= j < |us| && j != i
      ensures us[j] in Drop(us, i)
    {
      assert Drop(us, i)[if j < i then j else j - 1] == us[j];
    }
  }

  /** What is left of a table when its first constraint on `name` goes. */
  lemma DroppedNameConstraint(table: string, t: Table, i: nat)
    requires Consistent(t) && Conventional(table, t) && t.hasTenant && !Has(t, BY_TENANT_AND_NAME)
    requires i == FirstOn(t.uniques, BY_NAME) && i < |t.uniques|
    ensures var name := if t.uniques[i].name.Some? then t.uniques[i].name.value else NameConstraint(table);
            DropUnique(table, t, name) == (t.(uniques := Drop(t.uniques, i)), None)
    ensures var t1 := t.(uniques := Drop(t.uniques, i));
            Consistent(t1) && Conventional(table, t1) && !Has(t1, BY_TENANT_AND_NAME)
  {
    var name := if t.uniques[i].name.Some? then t.uniques[i].name.value else NameConstraint(table);
    assert NameOf(table, t.uniques[i]) == name;
    assert FirstNamed(table, t.uniques, name) == i;
    FewerConstraints(table, t, i);
  }

  lemma FewerConstraints(table: string, t: Table, i: nat)
    requires Consistent(t) && Conventional(table, t) && i < |t.uniques|
    ensures var t1 := t.(uniques := Drop(t.uniques, i));
            && Consistent(t1) && Conventional(table, t1)
            && (!Has(t, BY_TENANT_AND_NAME) ==> !Has(t1, BY_TENANT_AND_NAME)) && (!Has(t, BY_NAME) ==> !Has(t1, BY_NAME))
  {
    DropKeepsTheRest(t.uniques, i);
    assert forall k | 0 <= k < |t.uniques| - 1 ::
        Drop(t.uniques, i)[k].columns == t.uniques[if k < i then k else k + 1].columns;
  }

  /** The exchange of constraints works exactly when no tenant has a name twice; the rows do not change. */
  lemma ScopedIff(table: string, t: Table)
    requires Consistent(t) && Conventional(table, t) && t.hasTenant
    ensures Scoped(table, t).1.None? <==> TenantNamesDiffer(t.rows)
    ensures var t' := Scoped(table, t).0;
            t'.rows == t.rows && t'.hasTenant && t'.indexes == t.indexes
    ensures Scoped(table, t).1.None? ==>
              && Consistent(Scoped(table, t).0) && Conventional(table, Scoped(table, t).0)
              && Has(Scoped(table, t).0, BY_TENANT_AND_NAME)
  {
    if !Has(t, BY_TENANT_AND_NAME) {
      var i := FirstOn(t.uniques, BY_NAME);
      var t1 := t;
      if i < |t.uniques| {
        DroppedNameConstraint(table, t, i);
        t1 := t.(uniques := Drop(t.uniques, i));
      }
      AddedConstraint(table, t1, TenantNameConstraint(table), BY_TENANT_AND_NAME);
    }
  }

  lemma AddedConstraint(table: string, t: Table, name: string, columns: seq<string>)
    requires Consistent(t) && Conventional(table, t) && (t.hasTenant || columns == BY_NAME)
    requires (name, columns) == (TenantNameConstraint(table), BY_TENANT_AND_NAME) || (name, columns) == (NameConstraint(table), BY_NAME)
    requires !Has(t, columns)
    ensures var (t', e) := CreateUnique(table, t, name, columns);
            && (e.None? <==> Satisfied(t, columns))
            && (e.None? ==> Consistent(t') && Conventional(table, t') && Has(t', columns)
                            && t' == t.(uniques := t.uniques + [Unique(Some(name), columns)]))
            && (e.Some? ==> t' == t)
  {
    var (t', e) := CreateUnique(table, t, name, columns);
    forall i | 0 <= i < |t.uniques|
      ensures NameOf(table, t.uniques[i]) != name
    {
      assert t.uniques[i].columns != columns;
    }
    if e.None? {
      assert t'.uniques[|t.uniques|].columns == columns;
      assert TenantNameConstraint(table) != NameConstraint(table);
    }
  }

  /** Without its per-tenant constraint a table keeps everything else. */
  lemma DroppedTenantConstraint(table: string, t: Table)
    requires Consistent(t) && Conventional(table, t) && Has(t, BY_TENANT_AND_NAME)
    ensures var (t1, e) := DropUnique(table, t, TenantNameConstraint(table));
            && e.None? && t1 == t.(uniques := t1.uniques)
            && Consistent(t1) && Conventional(table, t1) && !Has(t1, BY_TENANT_AND_NAME)
            && (Has(t1, BY_NAME) <==> Has(t, BY_NAME))
  {
    var i := FirstNamed(table, t.uniques, TenantNameConstraint(table));
    DropKeepsTheRest(t.uniques, i);
    forall j | 0 <= j < |t.uniques| && t.uniques[j].columns == BY_NAME
      ensures t.uniques[j] in Drop(t.uniques, i)
    {
      assert j != i;
    }
  }

  /** Back to globally unique names, which rows with distinct names always allow. */
  lemma UnscopedRestoresNames(table: string, t: Table)
    requires Consistent(t) && Conventional(table, t) && NamesDiffer(t.rows)
    ensures Unscoped(table, t).1.None?
    ensures var t' := Unscoped(table, t).0;
            && t'.rows == t.rows && t'.hasTenant == t.hasTenant && t'.indexes == t.indexes
            && Consistent(t') && Conventional(table, t') && Has(t', BY_NAME) && !Has(t', BY_TENANT_AND_NAME)
  {
    var t1 := t;
    if Has(t, BY_TENANT_AND_NAME) {
      DroppedTenantConstraint(table, t);
      t1 := DropUnique(table, t, TenantNameConstraint(table)).0;
    }
    if !Has(t, BY_NAME) {
      AddedConstraint(table, t1, NameConstraint(table), BY_NAME);
      assert BY_NAME != BY_TENANT_AND_NAME;
    }
  }

  lemma {:induction false} WithoutIsAFilter(us: seq<Unique>, column: string)
    ensures forall u :: u in Without(us, column) <==> u in us && column !in u.columns
    ensures (forall i | 0 <= i < |us| :: column !in us[i].columns) ==> Without(us, column) == us
  {
    if us != [] {
      assert us == [us[0]] + us[1..];
      WithoutIsAFilter(us[1..], column);
    }
  }

  lemma WithoutTenantKeepsRows(table: string, t: Table)
    requires Consistent(t)
    ensures var t' := WithoutTenant(table, t);
            && !t'.hasTenant && SameRecords(t.rows, t'.rows) && TenantIndex(table) !in t'.indexes
            && Consistent(t') && (Has(t, BY_NAME) <==> Has(t', BY_NAME))
            && (NamesDiffer(t.rows) ==> NamesDiffer(t'.rows))
  {
    var t' := WithoutTenant(table, t);
    assert SameNames(t.rows, t'.rows);
    NameConstraintStays(table, t);
    NoTenantColumnLeft(table, t);
    assert BY_TENANT_AND_NAME[0] == TENANT_ID;
    assert !Has(t', BY_TENANT_AND_NAME);
  }

  lemma NameConstraintStays(table: string, t: Table)
    ensures Has(t, BY_NAME) <==> Has(WithoutTenant(table, t), BY_NAME)
  {
    var t' := WithoutTenant(table, t);
    WithoutIsAFilter(t.uniques, TENANT_ID);
    if i :| 0 <= i < |t.uniques| && t.uniques[i].columns == BY_NAME {
      assert t.uniques[i] in t'.uniques;
    }
    if i :| 0 <= i < |t'.uniques| && t'.uniques[i].columns == BY_NAME {
      assert t'.uniques[i] in t.uniques;
    }
  }

  lemma NoTenantColumnLeft(table: string, t: Table)
    requires Consistent(t)
    ensures forall i | 0 <= i < |WithoutTenant(table, t).uniques| :: TENANT_ID !in WithoutTenant(table, t).uniques[i].columns
  {
    var t' := WithoutTenant(table, t);
    WithoutIsAFilter(t.uniques, TENANT_ID);
    if t.hasTenant {
      forall i | 0 <= i < |t'.uniques|
        ensures TENANT_ID !in t'.uniques[i].columns
      {
        assert t'.uniques[i] in t'.uniques;
      }
    }
  }

  /** A table as it was before the revision: globally unique names through one constraint. */
  predicate Legacy(table: string, t: Table) {
    && Consistent(t) && Conventional(table, t) && !t.hasTenant && TenantIndex(table) !in t.indexes
  }

  predicate OneNameConstraint(t: Table, i: nat) {
    && i < |t.uniques|
    && forall j | 0 <= j < |t.uniques| :: t.uniques[j].columns == BY_NAME <==> j == i
  }

  /** The same table with constraint `i` moved to the end, under the conventional name. */
  function Renamed(table: string, t: Table, i: nat): Table {
    if i >= |t.uniques| then t
    else t.(uniques := Drop(t.uniques, i) + [t.uniques[i].(name := Some(NameConstraint(table)))])
  }

  function RoundTrip(table: string, t: Table): Table {
    WithoutTenant(table, Unscoped(table, Scoped(table, WithTenant(table, t)).0).0)
  }

  lemma TenantRowsComeBack(rows: seq<Row>, tenant: Option<string>)
    requires forall i | 0 <= i < |rows| :: rows[i].tenant.None?
    ensures SetTenant(SetTenant(rows, tenant), None) == rows
  {
  }

  lemma TenantColumnComesAndGoes(table: string, t: Table)
    requires Legacy(table, t)
    ensures WithoutTenant(table, WithTenant(table, t)) == t
  {
    WithoutIsAFilter(t.uniques, TENANT_ID);
    TenantRowsComeBack(t.rows, Some(DEFAULT_TENANT));
    var t1 := WithTenant(table, t);
    assert t1.indexes - {TenantIndex(table)} == t.indexes;
    assert (map n | n in t.indexes && TENANT_ID !in t.indexes[n] :: t.indexes[n]) == t.indexes;
  }

  lemma ScopedLegacy(table: string, t: Table, i: nat)
    requires Legacy(table, t) && OneNameConstraint(t, i)
    ensures var us := Drop(t.uniques, i) + [Unique(Some(TenantNameConstraint(table)), BY_TENANT_AND_NAME)];
            var t2 := WithTenant(table, t).(uniques := us);
            Scoped(table, WithTenant(table, t)).0 == t2 && Consistent(t2) && Conventional(table, t2)
    ensures NamesDiffer(t.rows)
  {
    assert t.uniques[i].columns == BY_NAME;
    var t1 := WithTenant(table, t);
    WithTenantKeepsRows(table, t);
    assert BY_TENANT_AND_NAME[0] == TENANT_ID && !Has(t1, BY_TENANT_AND_NAME);
    assert FirstOn(t.uniques, BY_NAME) == i;
    DroppedNameConstraint(table, t1, i);
    AddedConstraint(table, t1.(uniques := Drop(t.uniques, i)), TenantNameConstraint(table), BY_TENANT_AND_NAME);
  }

  /** Upgrading and downgrading a legacy table gives it back: the same rows, columns, indexes and
      constraints, but for the name and place of the constraint on `name`. */
  lemma RoundTripIsIdentity(table: string, t: Table, i: nat)
    requires Legacy(table, t) && OneNameConstraint(t, i)
    ensures RoundTrip(table, t) == Renamed(table, t, i)
  {
    ScopedLegacy(table, t, i);
    DropKeepsTheRest(t.uniques, i);
    var us := Drop(t.uniques, i);
    forall j | 0 <= j < |us|
      ensures us[j].columns != BY_NAME && us[j] in t.uniques
    {
      assert us[j] == t.uniques[if j < i then j else j + 1];
    }
    RoundTripBack(table, t, us, Scoped(table, WithTenant(table, t)).0);
    assert t.uniques[i].(name := Some(NameConstraint(table))) == Unique(Some(NameConstraint(table)), BY_NAME);
  }

  lemma RoundTripBack(table: string, t: Table, us: seq<Unique>, t2: Table)
    requires Legacy(table, t) && NamesDiffer(t.rows)
    requires forall j | 0 <= j < |us| :: us[j].columns != BY_NAME && us[j] in t.uniques
    requires t2 == WithTenant(table, t).(uniques := us + [Unique(Some(TenantNameConstraint(table)), BY_TENANT_AND_NAME)])
    requires Consistent(t2) && Conventional(table, t2)
    ensures WithoutTenant(table, Unscoped(table, t2).0)
         == t.(uniques := us + [Unique(Some(NameConstraint(table)), BY_NAME)])
  {
    assert t2.uniques[|us|].columns == BY_TENANT_AND_NAME;
    assert FirstNamed(table, t2.uniques, TenantNameConstraint(table)) == |us|;
    assert Drop(t2.uniques, |us|) == us;
    assert !Has(t2, BY_NAME);
    var t3 := t2.(uniques := us);
    DropKeepsTheRest(t2.uniques, |us|);
    WithTenantKeepsRows(table, t);
    assert SameNames(t.rows, t3.rows);
    AddedConstraint(table, t3, NameConstraint(table), BY_NAME);
    var back := us + [Unique(Some(NameConstraint(table)), BY_NAME)];
    assert Unscoped(table, t2).0 == t3.(uniques := back);
    forall j | 0 <= j < |back|
      ensures TENANT_ID !in back[j].columns
    {
      if j < |us| {
        var k :| 0 <= k < |t.uniques| && t.uniques[k] == us[j];
      }
    }
    WithoutIsAFilter(back, TENANT_ID);
    TenantColumnComesAndGoes(table, t);
  }

  // ----- How many constraints on `name` a table may have -----

  function NameConstraints(us: seq<Unique>): nat {
    if us == [] then 0 else NameConstraints(us[..|us| - 1]) + if us[|us| - 1].columns == BY_NAME then 1 else 0
  }

  lemma {:induction false} NameConstraintsAdd(a: seq<Unique>, b: seq<Unique>)
    ensures NameConstraints(a + b) == NameConstraints(a) + NameConstraints(b)
    decreases |b|
  {
    if b == [] {
      assert a + b == a;
    } else {
      assert (a + b)[..|a + b| - 1] == a + b[..|b| - 1];
      NameConstraintsAdd(a, b[..|b| - 1]);
    }
  }

  lemma OneConstraint(u: Unique)
    ensures NameConstraints([u]) == if u.columns == BY_NAME then 1 else 0
  {
    assert [u][..0] == [];
  }

  lemma NameConstraintsAround(before: seq<Unique>, u: Unique, after: seq<Unique>)
    ensures NameConstraints(before + ([u] + after)) ==
            NameConstraints(before + after) + if u.columns == BY_NAME then 1 else 0
  {
    NameConstraintsAdd(before, [u] + after);
    NameConstraintsAdd([u], after);
    OneConstraint(u);
    NameConstraintsAdd(before, after);
  }

  lemma Around(us: seq<Unique>, i: nat)
    requires i < |us|
    ensures us == us[..i] + ([us[i]] + us[i + 1..])
  {
  }

  lemma NameConstraintsDrop(us: seq<Unique>, i: nat)
    requires i < |us|
    ensures NameConstraints(us) == NameConstraints(Drop(us, i)) + if us[i].columns == BY_NAME then 1 else 0
  {
    Around(us, i);
    NameConstraintsAround(us[..i], us[i], us[i + 1..]);
  }

  lemma {:induction false} HasNoneIff(t: Table)
    ensures Has(t, BY_NAME) <==> NameConstraints(t.uniques) > 0
    decreases |t.uniques|
  {
    if t.uniques != [] {
      var n := |t.uniques| - 1;
      var rest := t.(uniques := t.uniques[..n]);
      HasNoneIff(rest);
      assert t.uniques == rest.uniques + [t.uniques[n]];
      if Has(rest, BY_NAME) {
        var i :| 0 <= i < n && rest.uniques[i].columns == BY_NAME;
        assert t.uniques[i].columns == BY_NAME;
      }
      if Has(t, BY_NAME) {
        var i :| 0 <= i <= n && t.uniques[i].columns == BY_NAME;
        assert i < n ==> rest.uniques[i].columns == BY_NAME;
      }
    }
  }

  /** A table with per-tenant uniqueness is left alone by the second loop; of any other the upgrade drops one
      constraint on `name`, if there is any. */
  lemma ScopedConstraints(table: string, t: Table)
    requires Consistent(t) && Conventional(table, t) && NamesDiffer(t.rows)
    ensures var (t2, e) := Scoped(table, WithTenant(table, t));
            && e.None? && t2.hasTenant && Consistent(t2) && Conventional(table, t2) && NamesDiffer(t2.rows)
            && NameConstraints(t2.uniques) ==
               if Has(t, BY_TENANT_AND_NAME) || NameConstraints(t.uniques) == 0 then NameConstraints(t.uniques)
               else NameConstraints(t.uniques) - 1
  {
    var t1 := WithTenant(table, t);
    WithTenantKeepsRows(table, t);
    assert SameNames(t.rows, t1.rows);
    ScopedIff(table, t1);
    HasNoneIff(t);
    if !Has(t, BY_TENANT_AND_NAME) {
      DropsOne(table, t);
    }
  }

  lemma DropsOne(table: string, t: Table)
    requires Consistent(t) && Conventional(table, t) && NamesDiffer(t.rows) && !Has(t, BY_TENANT_AND_NAME)
    ensures NameConstraints(Scoped(table, WithTenant(table, t)).0.uniques) ==
            if NameConstraints(t.uniques) == 0 then 0 else NameConstraints(t.uniques) - 1
  {
    WithTenantKeepsRows(table, t);
    assert SameNames(t.rows, WithTenant(table, t).rows);
    ExchangeCount(table, WithTenant(table, t));
  }

  lemma ExchangeCount(table: string, t: Table)
    requires Consistent(t) && Conventional(table, t) && t.hasTenant
    requires TenantNamesDiffer(t.rows) && !Has(t, BY_TENANT_AND_NAME)
    ensures NameConstraints(Scoped(table, t).0.uniques) ==
            if NameConstraints(t.uniques) == 0 then 0 else NameConstraints(t.uniques) - 1
  {
    HasNoneIff(t);
    var tenant := Unique(Some(TenantNameConstraint(table)), BY_TENANT_AND_NAME);
    OneConstraint(tenant);
    var i := FirstOn(t.uniques, BY_NAME);
    if i < |t.uniques| {
      DroppedNameConstraint(table, t, i);
      AddedConstraint(table, t.(uniques := Drop(t.uniques, i)), TenantNameConstraint(table), BY_TENANT_AND_NAME);
      NameConstraintsDrop(t.uniques, i);
      NameConstraintsAdd(Drop(t.uniques, i), [tenant]);
    } else {
      AddedConstraint(table, t, TenantNameConstraint(table), BY_TENANT_AND_NAME);
      NameConstraintsAdd(t.uniques, [tenant]);
    }
  }

  /** So names cease to be globally unique, as the revision intends, if and only if no constraint made them so,
      or one did and names were not unique per tenant as well. */
  lemma UpgradeLiftsUniquenessIff(table: string, t: Table)
    requires Consistent(t) && Conventional(table, t) && NamesDiffer(t.rows)
    ensures !Has(Scoped(table, WithTenant(table, t)).0, BY_NAME) <==>
            NameConstraints(t.uniques) == 0 || (NameConstraints(t.uniques) == 1 && !Has(t, BY_TENANT_AND_NAME))
  {
    ScopedConstraints(table, t);
    HasNoneIff(Scoped(table, WithTenant(table, t)).0);
  }

  lemma UnscopedKeepsConstraints(table: string, t: Table)
    requires Consistent(t) && Conventional(table, t) && NamesDiffer(t.rows)
    ensures var t3 := Unscoped(table, t).0;
            NameConstraints(t3.uniques) == if NameConstraints(t.uniques) == 0 then 1 else NameConstraints(t.uniques)
  {
    var t1 := t;
    HasNoneIff(t);
    if Has(t, BY_TENANT_AND_NAME) {
      DroppedTenantConstraint(table, t);
      t1 := DropUnique(table, t, TenantNameConstraint(table)).0;
      var i := FirstNamed(table, t.uniques, TenantNameConstraint(table));
      NameConstraintsDrop(t.uniques, i);
      assert t.uniques[i].columns == BY_TENANT_AND_NAME != BY_NAME;
    }
    if !Has(t, BY_NAME) {
      var added := Unique(Some(NameConstraint(table)), BY_NAME);
      AddedConstraint(table, t1, NameConstraint(table), BY_NAME);
      OneConstraint(added);
      NameConstraintsAdd(t1.uniques, [added]);
    }
  }

  lemma {:induction false} WithoutKeepsNameConstraints(us: seq<Unique>)
    ensures NameConstraints(Without(us, TENANT_ID)) == NameConstraints(us)
  {
    if us != [] {
      var head := if TENANT_ID in us[0].columns then [] else [us[0]];
      assert us == [us[0]] + us[1..];
      OneConstraint(us[0]);
      NameConstraintsAdd([us[0]], us[1..]);
      NameConstraintsAdd(head, Without(us[1..], TENANT_ID));
      WithoutKeepsNameConstraints(us[1..]);
      assert TENANT_ID != "name" && TENANT_ID !in BY_NAME;
    }
  }

  /** Upgrade and downgrade leave one constraint on `name` where there was none, and one less where there
      were several and none per tenant. */
  lemma RoundTripConstraints(table: string, t: Table)
    requires Consistent(t) && Conventional(table, t) && NamesDiffer(t.rows)
    ensures var n := NameConstraints(t.uniques);
            NameConstraints(RoundTrip(table, t).uniques) ==
            if n <= 1 then 1 else if Has(t, BY_TENANT_AND_NAME) then n else n - 1
  {
    ScopedConstraints(table, t);
    var t2 := Scoped(table, WithTenant(table, t)).0;
    UnscopedKeepsConstraints(table, t2);
    UnscopedRestoresNames(table, t2);
    WithoutKeepsNameConstraints(Unscoped(table, t2).0.uniques);
  }

  /** The constraints with the names of those on `name` left open. */
  function Anonymous(us: seq<Unique>): seq<Unique> {
    seq(|us|, i requires 0 <= i < |us| => if us[i].columns == BY_NAME then us[i].(name := None) else us[i])
  }

  /** The same table, up to the name of its constraints on `name` and the order of the constraints. */
  ghost predicate SameUpToNames(t: Table, t': Table) {
    && t' == t.(uniques := t'.uniques)
    && multiset(Anonymous(t'.uniques)) == multiset(Anonymous(t.uniques))
  }

  lemma {:induction false} AnonymousCount(us: seq<Unique>)
    ensures multiset(Anonymous(us))[Unique(None, BY_NAME)] == NameConstraints(us)
    decreases |us|
  {
    if us != [] {
      var n := |us| - 1;
      AnonymousCount(us[..n]);
      var last := Anonymous(us)[n];
      assert Anonymous(us) == Anonymous(us[..n]) + [last];
      assert us[n].columns == BY_NAME <==> last == Unique(None, BY_NAME);
    }
  }

  lemma MovedToTheEnd(us: seq<Unique>, i: nat, u: Unique)
    requires i < |us| && us[i].columns == BY_NAME == u.columns
    ensures multiset(Anonymous(Drop(us, i) + [u])) == multiset(Anonymous(us))
  {
    var a := Anonymous(us);
    assert Anonymous(Drop(us, i) + [u]) == a[..i] + a[i + 1..] + [a[i]];
    assert a == a[..i] + [a[i]] + a[i + 1..];
  }

  lemma {:induction false} OnlyOneIsIt(t: Table) returns (i: nat)
    requires NameConstraints(t.uniques) == 1
    ensures OneNameConstraint(t, i)
  {
    i := FirstOn(t.uniques, BY_NAME);
    HasNoneIff(t);
    assert i < |t.uniques|;
    NameConstraintsDrop(t.uniques, i);
    HasNoneIff(t.(uniques := Drop(t.uniques, i)));
    DropKeepsTheRest(t.uniques, i);
    forall j | 0 <= j < |t.uniques| && j != i
      ensures t.uniques[j].columns != BY_NAME
    {
      assert t.uniques[j] == Drop(t.uniques, i)[if j < i then j else j - 1];
    }
  }

  /** Upgrading and downgrading a table with distinct names gives it back, up to the name and place of its
      constraint on `name`, if and only if it had no tenant column and no index for one, and exactly one such
      constraint. */
  lemma RoundTripIff(table: string, t: Table)
    requires Consistent(t) && Conventional(table, t) && NamesDiffer(t.rows)
    ensures SameUpToNames(t, RoundTrip(table, t)) <==>
            !t.hasTenant && TenantIndex(table) !in t.indexes && NameConstraints(t.uniques) == 1
  {
    if Legacy(table, t) {
      if NameConstraints(t.uniques) == 1 {
        var i := OnlyOneIsIt(t);
        RoundTripIsIdentity(table, t, i);
        MovedToTheEnd(t.uniques, i, t.uniques[i].(name := Some(NameConstraint(table))));
      } else {
        NoTenantConstraint(t);
        RoundTripConstraints(table, t);
        AnonymousCount(t.uniques);
        AnonymousCount(RoundTrip(table, t).uniques);
      }
    } else {
      assert !RoundTrip(table, t).hasTenant && TenantIndex(table) !in RoundTrip(table, t).indexes;
    }
  }

  lemma NoTenantConstraint(t: Table)
    requires Consistent(t) && !t.hasTenant
    ensures !Has(t, BY_TENANT_AND_NAME)
  {
    assert BY_TENANT_AND_NAME[0] == TENANT_ID;
  }

  /** An empty table without a constraint on `name` comes back with one. */
  lemma NoConstraintBecomesOne(table: string, t: Table)
    requires t == Table(false, [], [], map[])
    ensures Legacy(table, t)
    ensures NameConstraints(RoundTrip(table, t).uniques) == 1 && !SameUpToNames(t, RoundTrip(table, t))
  {
    RoundTripConstraints(table, t);
    RoundTripIff(table, t);
  }

  /** Of two constraints on `name` the upgrade drops one: names stay unique across tenants, and one
      constraint is missing after the downgrade. */
  lemma TwoConstraintsBecomeOne(table: string, t: Table)
    requires t == Table(false, [], [Unique(Some("a"), BY_NAME), Unique(Some("b"), BY_NAME)], map[])
    ensures Legacy(table, t)
    ensures Has(Scoped(table, WithTenant(table, t)).0, BY_NAME)
    ensures NameConstraints(RoundTrip(table, t).uniques) == 1 && !SameUpToNames(t, RoundTrip(table, t))
  {
    var us := t.uniques;
    assert us == [us[0]] + [us[1]];
    NameConstraintsAdd([us[0]], [us[1]]);
    OneConstraint(us[0]);
    OneConstraint(us[1]);
    OtherNames(table);
    NoTenantConstraint(t);
    RoundTripConstraints(table, t);
    RoundTripIff(table, t);
    UpgradeLiftsUniquenessIff(table, t);
  }

  lemma OtherNames(table: string)
    ensures TenantNameConstraint(table) != "a" && TenantNameConstraint(table) != "b"
  {
    assert |TenantNameConstraint(table)| > 1;
  }

  /** A table that is unique both ways stays globally unique: the upgrade passes it over. */
  lemma BothConstraintsStay(table: string, t: Table)
    requires t == Table(true, [], [Unique(Some(NameConstraint(table)), BY_NAME),
                                   Unique(Some(TenantNameConstraint(table)), BY_TENANT_AND_NAME)], map[])
    ensures Consistent(t) && Conventional(table, t) && NameConstraints(t.uniques) == 1
    ensures Has(Scoped(table, WithTenant(table, t)).0, BY_NAME)
  {
    var us := t.uniques;
    assert us == [us[0]] + [us[1]];
    NameConstraintsAdd([us[0]], [us[1]]);
    OneConstraint(us[0]);
    OneConstraint(us[1]);
    assert us[0].columns == BY_NAME && us[1].columns == BY_TENANT_AND_NAME;
    DifferentNames(table);
    UpgradeLiftsUniquenessIff(table, t);
  }

  lemma DifferentNames(table: string)
    ensures NameConstraint(table) != TenantNameConstraint(table)
  {
    assert |NameConstraint(table)| != |TenantNameConstraint(table)|;
  }

  /** A table that got its tenant column otherwise loses it in the round trip. */
  lemma ForeignColumnIsDropped(table: string, t: Table)
    requires Consistent(t) && Conventional(table, t) && NamesDiffer(t.rows) && t.hasTenant
    ensures !RoundTrip(table, t).hasTenant && !SameUpToNames(t, RoundTrip(table, t))
  {
    RoundTripIff(table, t);
  }

  predicate SameNames(a: seq<Row>, b: seq<Row>) {
    |a| == |b| && forall i | 0 <= i < |a| :: a[i].name == b[i].name
  }

  // ----- The revision over the whole database -----

  type Tables = map<string, Table>

  datatype Result = Result(tables: Tables, error: Option<Error>)

  type Change = (string, Table) -> (Table, Option<Error>)

  /** A loop over table names that skips missing tables and stops at the first error. */
  function Each(names: seq<string>, change: Change, db: Tables): Result {
    if names == [] then Result(db, None) else
    var n := |names| - 1;
    var r := Each(names[..n], change, db);
    if r.error.Some? || names[n] !in r.tables then r else
    var (t, e) := change(names[n], r.tables[names[n]]);
    Result(r.tables[names[n] := t], e)
  }

  predicate Distinct(names: seq<string>) {
    forall i, j | 0 <= i < j < |names| :: names[i] != names[j]
  }

  /** The loop works if and only if each table's change does, and then changes those tables alone. */
  lemma {:induction false} EachTable(names: seq<string>, change: Change, db: Tables)
    requires Distinct(names)
    ensures var r := Each(names, change, db);
            && r.tables.Keys == db.Keys
            && (forall k <- db | k !in names :: r.tables[k] == db[k])
            && (r.error.None? <==> forall k <- names | k in db :: change(k, db[k]).1.None?)
            && (r.error.None? ==> forall k <- names | k in db :: r.tables[k] == change(k, db[k]).0)
  {
    if names != [] {
      var n := |names| - 1;
      EachTable(names[..n], change, db);
      assert names == names[..n] + [names[n]];
      assert names[n] !in names[..n];
    }
  }

  const ALL_TABLES := ["roles", "groups", "identity_providers"]
  const NAMED_TABLES := ["roles", "groups"]
  const DOWN_TABLES := ["identity_providers", "groups", "roles"]
  const DOWN_NAMED_TABLES := ["groups", "roles"]

  function AddTenant(table: string, t: Table): (Table, Option<Error>) { (WithTenant(table, t), None) }
  function RemoveTenant(table: string, t: Table): (Table, Option<Error>) { (WithoutTenant(table, t), None) }

  function Upgraded(db: Tables): Result {
    Each(NAMED_TABLES, Scoped, Each(ALL_TABLES, AddTenant, db).tables)
  }

  /** The first table of `names` in which some name repeats. */
  function Repetition(names: seq<string>, db: Tables): Option<string> {
    if names == [] then None
    else if names[0] in db && !NamesDiffer(db[names[0]].rows) then Some(names[0])
    else Repetition(names[1..], db)
  }

  function Downgraded(db: Tables): Result {
    var r := Each(DOWN_NAMED_TABLES, Unscoped, db);
    if r.error.Some? then r else Each(DOWN_TABLES, RemoveTenant, r.tables)
  }

  ghost predicate Sound(db: Tables) {
    forall k <- ALL_TABLES | k in db :: Consistent(db[k]) && Conventional(k, db[k])
  }

  /** What the upgrade makes of one table. */
  function UpgradedTable(table: string, t: Table): (Table, Option<Error>) {
    if table in NAMED_TABLES then Scoped(table, WithTenant(table, t)) else (WithTenant(table, t), None)
  }

  lemma UpgradeIsPointwise(db: Tables)
    ensures var r := Upgraded(db);
            && r.tables.Keys == db.Keys
            && (r.error.None? <==> forall k <- NAMED_TABLES | k in db :: UpgradedTable(k, db[k]).1.None?)
            && (r.error.None? ==> forall k <- ALL_TABLES | k in db :: r.tables[k] == UpgradedTable(k, db[k]).0)
            && (r.error.None? ==> forall k <- db | k !in ALL_TABLES :: r.tables[k] == db[k])
  {
    EachTable(ALL_TABLES, AddTenant, db);
    var mid := Each(ALL_TABLES, AddTenant, db).tables;
    EachTable(NAMED_TABLES, Scoped, mid);
    assert forall k <- NAMED_TABLES :: k in ALL_TABLES;
    assert forall k <- ALL_TABLES | k in db :: mid[k] == WithTenant(k, db[k]);
  }

  predicate Scopes(table: string, t: Table, t': Table) {
    && Consistent(t') && Conventional(table, t') && SameRecords(t.rows, t'.rows)
    && (forall i | 0 <= i < |t.rows| :: t'.rows[i].tenant == if t.hasTenant then t.rows[i].tenant else Some(DEFAULT_TENANT))
    && (table in NAMED_TABLES ==> Has(t', BY_TENANT_AND_NAME) && TenantNamesDiffer(t'.rows))
  }

  lemma UpgradedTableScopes(table: string, t: Table)
    requires Consistent(t) && Conventional(table, t)
    ensures table in NAMED_TABLES ==>
              (UpgradedTable(table, t).1.None? <==> TenantNamesDiffer(WithTenant(table, t).rows))
    ensures UpgradedTable(table, t).1.None? ==> Scopes(table, t, UpgradedTable(table, t).0)
  {
    WithTenantKeepsRows(table, t);
    ScopedIff(table, WithTenant(table, t));
  }

  /** The upgrade keeps every record, gives each its tenant, and works exactly when no tenant would have
      a role or group name twice; it then leaves names unique per tenant. */
  lemma UpgradeScopesNames(db: Tables)
    requires Sound(db)
    ensures Upgraded(db).tables.Keys == db.Keys
    ensures Upgraded(db).error.None? <==>
            forall k <- NAMED_TABLES | k in db :: TenantNamesDiffer(WithTenant(k, db[k]).rows)
    ensures Upgraded(db).error.None? ==>
              && (forall k <- ALL_TABLES | k in db :: Scopes(k, db[k], Upgraded(db).tables[k]))
              && (forall k <- db | k !in ALL_TABLES :: Upgraded(db).tables[k] == db[k])
  {
    UpgradeIsPointwise(db);
    assert forall k <- NAMED_TABLES :: k in ALL_TABLES;
    forall k <- ALL_TABLES | k in db
      ensures k in NAMED_TABLES ==>
                (UpgradedTable(k, db[k]).1.None? <==> TenantNamesDiffer(WithTenant(k, db[k]).rows))
      ensures UpgradedTable(k, db[k]).1.None? ==> Scopes(k, db[k], UpgradedTable(k, db[k]).0)
    {
      UpgradedTableScopes(k, db[k]);
    }
  }

  /** From globally unique names the upgrade always works. */
  lemma UniqueNamesUpgrade(db: Tables)
    requires Sound(db)
    requires forall k <- NAMED_TABLES | k in db :: NamesDiffer(db[k].rows)
    ensures Upgraded(db).error.None?
  {
    assert forall k <- NAMED_TABLES :: k in ALL_TABLES;
    forall k <- NAMED_TABLES | k in db
      ensures TenantNamesDiffer(WithTenant(k, db[k]).rows)
    {
      WithTenantKeepsRows(k, db[k]);
    }
    UpgradeScopesNames(db);
  }

  lemma {:induction false} RepetitionIff(names: seq<string>, db: Tables)
    ensures var r := Repetition(names, db);
            && (r.None? <==> forall k <- names | k in db :: NamesDiffer(db[k].rows))
            && (r.Some? ==> r.value in names && r.value in db && !NamesDiffer(db[r.value].rows))
  {
    if names != [] {
      assert names == [names[0]] + names[1..];
      RepetitionIff(names[1..], db);
    }
  }

  /** Without a repeated name the downgrade works: every record stays, the tenant column goes, and names
      are unique again. */
  lemma DowngradeRestoresNames(db: Tables)
    requires Sound(db)
    requires forall k <- NAMED_TABLES | k in db :: NamesDiffer(db[k].rows)
    ensures Downgraded(db).error.None? && Downgraded(db).tables.Keys == db.Keys
    ensures forall k <- ALL_TABLES | k in db ::
              && SameRecords(db[k].rows, Downgraded(db).tables[k].rows)
              && !Downgraded(db).tables[k].hasTenant && Consistent(Downgraded(db).tables[k])
    ensures forall k <- NAMED_TABLES | k in db ::
              Has(Downgraded(db).tables[k], BY_NAME) && NamesDiffer(Downgraded(db).tables[k].rows)
  {
    var named, all := DOWN_NAMED_TABLES, DOWN_TABLES;
    EachTable(named, Unscoped, db);
    assert forall k :: k in named <==> k in NAMED_TABLES;
    assert forall k :: k in all <==> k in ALL_TABLES;
    forall k <- named | k in db
      ensures Unscoped(k, db[k]).1.None?
    {
      UnscopedRestoresNames(k, db[k]);
    }
    var mid := Each(named, Unscoped, db).tables;
    EachTable(all, RemoveTenant, mid);
    forall k <- all | k in db
      ensures Downgraded(db).tables[k] == WithoutTenant(k, mid[k])
      ensures SameRecords(db[k].rows, Downgraded(db).tables[k].rows)
      ensures !Downgraded(db).tables[k].hasTenant && Consistent(Downgraded(db).tables[k])
      ensures k in named ==> Has(Downgraded(db).tables[k], BY_NAME) && NamesDiffer(Downgraded(db).tables[k].rows)
    {
      if k in named {
        UnscopedRestoresNames(k, db[k]);
      }
      WithoutTenantKeepsRows(k, mid[k]);
    }
  }

  /** The downgrade as a whole: it looks for repeated names before it changes anything. */
  function DowngradeResult(db: Tables): Result {
    var repeated := Repetition(NAMED_TABLES, db);
    if repeated.Some? then Result(db, Some(RepeatedName(repeated.value))) else Downgraded(db)
  }

  predicate Named(table: string, t: Table, name: string) {
    exists i :: 0 <= i < |t.uniques| && NameOf(table, t.uniques[i]) == name
  }

  /** The exchange of constraints cannot be undone: what makes names unique per tenant does not go by the name
      that is dropped, or the name to be created is taken. */
  predicate Stuck(table: string, t: Table) {
    || (Has(t, BY_TENANT_AND_NAME) && !Named(table, t, TenantNameConstraint(table)))
    || (!Has(t, BY_NAME) && Named(table, t, NameConstraint(table)))
  }

  lemma UnscopedFailsIff(table: string, t: Table)
    requires NamesDiffer(t.rows)
    ensures Unscoped(table, t).1.Some? <==> Stuck(table, t)
  {
    DifferentNames(table);
    var us, i := t.uniques, FirstNamed(table, t.uniques, TenantNameConstraint(table));
    if Has(t, BY_TENANT_AND_NAME) && i < |us| {
      NamedAfterDrop(table, t, i, NameConstraint(table));
    }
  }

  lemma NamedAfterDrop(table: string, t: Table, i: nat, name: string)
    requires i < |t.uniques| && NameOf(table, t.uniques[i]) != name
    ensures Named(table, t.(uniques := Drop(t.uniques, i)), name) <==> Named(table, t, name)
  {
    var us := t.uniques;
    DropKeepsTheRest(us, i);
    if j :| 0 <= j < |us| && NameOf(table, us[j]) == name {
      assert Drop(us, i)[if j < i then j else j - 1] == us[j];
    }
  }

  lemma ConventionalIsNotStuck(table: string, t: Table)
    requires Conventional(table, t)
    ensures !Stuck(table, t)
  {
  }

  /** The downgrade fails exactly when a role or group name repeats, and then it has changed nothing, or when a
      table is stuck. */
  lemma DowngradeFailsIff(db: Tables)
    ensures DowngradeResult(db).error.Some? <==>
            exists k <- NAMED_TABLES :: k in db && (!NamesDiffer(db[k].rows) || Stuck(k, db[k]))
    ensures (exists k <- NAMED_TABLES :: k in db && !NamesDiffer(db[k].rows)) ==>
              DowngradeResult(db).error.value.RepeatedName? && DowngradeResult(db).tables == db
  {
    RepetitionIff(NAMED_TABLES, db);
    if Repetition(NAMED_TABLES, db).None? {
      forall k <- NAMED_TABLES | k in db
        ensures Unscoped(k, db[k]).1.Some? <==> Stuck(k, db[k])
      {
        UnscopedFailsIff(k, db[k]);
      }
      EachTable(DOWN_NAMED_TABLES, Unscoped, db);
      assert forall k :: k in DOWN_NAMED_TABLES <==> k in NAMED_TABLES;
      EachTable(DOWN_TABLES, RemoveTenant, Each(DOWN_NAMED_TABLES, Unscoped, db).tables);
    }
  }

  /** The constraint loop leaves the table as it is: nothing to drop by that name, and nothing to create or no
      way to. */
  predicate Untouched(table: string, t: Table) {
    && !(Has(t, BY_TENANT_AND_NAME) && Named(table, t, TenantNameConstraint(table)))
    && (Has(t, BY_NAME) || Stuck(table, t))
  }

  lemma UnscopedLeavesIff(table: string, t: Table)
    requires NamesDiffer(t.rows)
    ensures Unscoped(table, t).0 == t <==> Untouched(table, t)
  {
    UnscopedFailsIff(table, t);
    var us, t' := t.uniques, Unscoped(table, t).0;
    var i := FirstNamed(table, us, TenantNameConstraint(table));
    if !Has(t, BY_NAME) && Unscoped(table, t).1.None? {
      assert t'.uniques[|t'.uniques| - 1].columns == BY_NAME;
      assert Has(t', BY_NAME);
    } else if Has(t, BY_TENANT_AND_NAME) && i < |us| {
      assert |t'.uniques| == |us| - 1;
    }
  }

  /** The loop gets as far as this table: groups come before roles. */
  predicate Reached(db: Tables, k: string) {
    k == "groups" || "groups" !in db || !Stuck("groups", db["groups"])
  }

  lemma FirstGroupsThenRoles(db: Tables)
    ensures var groups := if "groups" in db then Unscoped("groups", db["groups"]) else (NoTable(), None);
            var db1 := if "groups" in db then db["groups" := groups.0] else db;
            Each(DOWN_NAMED_TABLES, Unscoped, db) ==
            if groups.1.Some? then Result(db1, groups.1)
            else if "roles" !in db then Result(db1, None)
            else Result(db1["roles" := Unscoped("roles", db["roles"]).0], Unscoped("roles", db["roles"]).1)
  {
    var names := DOWN_NAMED_TABLES;
    assert names[..1] == ["groups"] && names[1] == "roles" && ["groups"][..0] == [];
    assert Each([], Unscoped, db) == Result(db, None);
    assert Each(["groups"], Unscoped, db) == if "groups" in db
      then Result(db["groups" := Unscoped("groups", db["groups"]).0], Unscoped("groups", db["groups"]).1) else Result(db, None);
  }

  function NoTable(): Table {
    Table(false, [], [], map[])
  }

  /** The downgrade promises to fail before it changes any constraint. Where the database does not undo a failed
      migration, it keeps that promise exactly if a name repeats, or if every table that the constraint loop
      reaches is left as it is. */
  lemma FailedDowngradeChangesNothingIff(db: Tables)
    requires DowngradeResult(db).error.Some?
    ensures DowngradeResult(db).tables == db <==>
            || (exists k <- NAMED_TABLES :: k in db && !NamesDiffer(db[k].rows))
            || forall k <- DOWN_NAMED_TABLES | k in db && Reached(db, k) :: Untouched(k, db[k])
  {
    RepetitionIff(NAMED_TABLES, db);
    if Repetition(NAMED_TABLES, db).None? {
      assert "groups" in NAMED_TABLES && "roles" in NAMED_TABLES by {
        assert NAMED_TABLES[1] == "groups" && NAMED_TABLES[0] == "roles";
      }
      DowngradeStopsInTheFirstLoop(db);
      LoopChangesNothingIff(db);
    }
  }

  lemma LoopChangesNothingIff(db: Tables)
    requires "groups" in db ==> NamesDiffer(db["groups"].rows)
    requires "roles" in db ==> NamesDiffer(db["roles"].rows)
    ensures Each(DOWN_NAMED_TABLES, Unscoped, db).tables == db <==>
            forall k <- DOWN_NAMED_TABLES | k in db && Reached(db, k) :: Untouched(k, db[k])
  {
    FirstGroupsThenRoles(db);
    if "groups" in db {
      UnscopedFailsIff("groups", db["groups"]);
      UnscopedLeavesIff("groups", db["groups"]);
    }
    if "roles" in db {
      UnscopedLeavesIff("roles", db["roles"]);
    }
    assert forall k :: k in DOWN_NAMED_TABLES <==> k == "groups" || k == "roles";
  }

  lemma DowngradeStopsInTheFirstLoop(db: Tables)
    requires Repetition(NAMED_TABLES, db).None? && DowngradeResult(db).error.Some?
    ensures DowngradeResult(db) == Each(DOWN_NAMED_TABLES, Unscoped, db)
  {
    EachTable(DOWN_TABLES, RemoveTenant, Each(DOWN_NAMED_TABLES, Unscoped, db).tables);
  }

  /** A per-tenant constraint of another name is adopted by the upgrade; the downgrade cannot drop it, although
      no name repeats, and leaves the other table half way back. */
  lemma ForeignNameSticks(t: Table, usual: Table, db: Tables)
    requires t == Table(true, [], [Unique(Some("other"), BY_TENANT_AND_NAME)], map[])
    requires usual == Table(true, [], [Unique(Some(TenantNameConstraint("groups")), BY_TENANT_AND_NAME)], map[])
    requires db == map["roles" := t, "groups" := usual]
    ensures Scoped("roles", t) == (t, None)
    ensures DowngradeResult(db).error == Some(NoSuchConstraint)
    ensures DowngradeResult(db).tables != db
  {
    assert t.uniques[0].columns == BY_TENANT_AND_NAME && usual.uniques[0].columns == BY_TENANT_AND_NAME;
    assert Has(t, BY_TENANT_AND_NAME) && Has(usual, BY_TENANT_AND_NAME) && !Has(usual, BY_NAME);
    assert TenantNameConstraint("roles") != "other" by { assert |TenantNameConstraint("roles")| > 5; }
    assert !Named("roles", t, TenantNameConstraint("roles"));
    RepetitionIff(NAMED_TABLES, db);
    DifferentNames("groups");
    assert usual.uniques[0].name == Some(TenantNameConstraint("groups"));
    assert Named("groups", usual, TenantNameConstraint("groups")) && !Stuck("groups", usual);
    UnscopedFailsIff("groups", usual);
    FirstGroupsThenRoles(db);
    UnscopedLeavesIff("groups", usual);
    DowngradeStopsInTheFirstLoop(db);
  }

  lemma DowngradeIsPointwise(db: Tables)
    requires Downgraded(db).error.None?
    ensures var r := Downgraded(db).tables;
            && r.Keys == db.Keys
            && (forall k <- NAMED_TABLES | k in db :: r[k] == WithoutTenant(k, Unscoped(k, db[k]).0))
            && ("identity_providers" in db ==>
                  r["identity_providers"] == WithoutTenant("identity_providers", db["identity_providers"]))
            && (forall k <- db | k !in ALL_TABLES :: r[k] == db[k])
  {
    var named, all := DOWN_NAMED_TABLES, DOWN_TABLES;
    EachTable(named, Unscoped, db);
    EachTable(all, RemoveTenant, Each(named, Unscoped, db).tables);
    assert forall k :: k in named <==> k in NAMED_TABLES;
    assert forall k :: k in all <==> k in ALL_TABLES;
    assert "identity_providers" in all && "identity_providers" !in named;
  }

  lemma UpgradeKeepsNamesApart(db: Tables)
    requires Sound(db)
    requires forall k <- NAMED_TABLES | k in db :: NamesDiffer(db[k].rows)
    ensures var up := Upgraded(db);
            && up.error.None? && up.tables.Keys == db.Keys && Sound(up.tables)
            && (forall k <- ALL_TABLES | k in db :: up.tables[k] == UpgradedTable(k, db[k]).0)
            && (forall k <- db | k !in ALL_TABLES :: up.tables[k] == db[k])
            && forall k <- NAMED_TABLES | k in db :: NamesDiffer(up.tables[k].rows)
  {
    UniqueNamesUpgrade(db);
    UpgradeScopesNames(db);
    UpgradeIsPointwise(db);
    var up := Upgraded(db).tables;
    assert forall k <- NAMED_TABLES :: k in ALL_TABLES;
    forall k <- ALL_TABLES | k in db
      ensures Consistent(up[k]) && Conventional(k, up[k]) && SameRecords(db[k].rows, up[k].rows)
    {
      assert Scopes(k, db[k], up[k]);
    }
  }

  /** Upgrade, then downgrade: both work on a database with distinct names. Each named table comes back as its
      own round trip leaves it, the providers without their tenant column, everything else as it was. */
  lemma UpgradeThenDowngrade(db: Tables)
    requires Sound(db)
    requires forall k <- NAMED_TABLES | k in db :: NamesDiffer(db[k].rows)
    ensures Upgraded(db).error.None?
    ensures var r := DowngradeResult(Upgraded(db).tables);
            && r.error.None? && r.tables.Keys == db.Keys
            && (forall k <- NAMED_TABLES | k in db :: r.tables[k] == RoundTrip(k, db[k]))
            && ("identity_providers" in db ==>
                  var k := "identity_providers"; r.tables[k] == WithoutTenant(k, WithTenant(k, db[k])))
            && (forall k <- db | k !in ALL_TABLES :: r.tables[k] == db[k])
  {
    assert forall k <- NAMED_TABLES :: k in ALL_TABLES;
    UpgradeKeepsNamesApart(db);
    var up := Upgraded(db).tables;
    assert Repetition(NAMED_TABLES, up).None? by { RepetitionIff(NAMED_TABLES, up); }
    assert Downgraded(up).error.None? by { DowngradeRestoresNames(up); }
    DowngradeIsPointwise(up);
    TableKinds();
  }

  /** The table had no tenant column and no index for one. */
  predicate Tenantless(table: string, t: Table) {
    !t.hasTenant && TenantIndex(table) !in t.indexes
  }

  lemma ProvidersComeBackIff(table: string, t: Table)
    requires Consistent(t) && Conventional(table, t)
    ensures SameUpToNames(t, WithoutTenant(table, WithTenant(table, t))) <==> Tenantless(table, t)
  {
    if Tenantless(table, t) {
      TenantColumnComesAndGoes(table, t);
    }
  }

  /** The database comes back, up to the name and place of the constraints on `name`, if and only if no table
      of the revision had a tenant column or its index, and each named one has exactly one such constraint. */
  lemma DatabaseComesBackIff(db: Tables)
    requires Sound(db)
    requires forall k <- NAMED_TABLES | k in db :: NamesDiffer(db[k].rows)
    ensures DowngradeResult(Upgraded(db).tables).tables.Keys == db.Keys
    ensures (forall k <- db :: SameUpToNames(db[k], DowngradeResult(Upgraded(db).tables).tables[k]))
       <==> forall k <- ALL_TABLES | k in db ::
              Tenantless(k, db[k]) && (k in NAMED_TABLES ==> NameConstraints(db[k].uniques) == 1)
  {
    UpgradeThenDowngrade(db);
    TableKinds();
    assert forall k <- NAMED_TABLES :: k in ALL_TABLES;
    var back := DowngradeResult(Upgraded(db).tables).tables;
    forall k <- db
      ensures SameUpToNames(db[k], back[k]) <==>
              k !in ALL_TABLES || (Tenantless(k, db[k]) && (k in NAMED_TABLES ==> NameConstraints(db[k].uniques) == 1))
    {
      if k in NAMED_TABLES {
        RoundTripIff(k, db[k]);
      } else if k in ALL_TABLES {
        ProvidersComeBackIff(k, db[k]);
      }
    }
  }

  lemma TableKinds()
    ensures forall k :: k in ALL_TABLES && k !in NAMED_TABLES <==> k == "identity_providers"
  {
    assert ALL_TABLES[2] == "identity_providers" && ALL_TABLES[2] in ALL_TABLES;
    assert "identity_providers" !in NAMED_TABLES;
  }

  // ----- The revision's own loops -----

  class AccessDatabase {
    var tables: Tables

    constructor (tables: Tables)
      ensures this.tables == tables
    {
      this.tables := tables;
    }

    method AddTenantColumns()
      modifies this
      ensures tables == Each(ALL_TABLES, AddTenant, old(tables)).tables
    {
      ghost var db := tables;
      for n := 0 to |ALL_TABLES|
        invariant Each(ALL_TABLES[..n], AddTenant, db) == Result(tables, None)
      {
        var table := ALL_TABLES[n];
        assert ALL_TABLES[..n + 1][..n] == ALL_TABLES[..n];
        if table !in tables { continue; }
        var t := tables[table];
        if !t.hasTenant {
          t := t.(hasTenant := true, rows := SetTenant(t.rows, Some(DEFAULT_TENANT)));
        }
        if TenantIndex(table) !in t.indexes {
          t := t.(indexes := t.indexes[TenantIndex(table) := [TENANT_ID]]);
        }
        tables := tables[table := t];
      }
      assert ALL_TABLES[..|ALL_TABLES|] == ALL_TABLES;
    }

    /** Exchanges the constraints of one table that is there. */
    method ScopeNames(table: string) returns (error: Option<Error>)
      requires table in tables
      modifies this
      ensures var (t, e) := Scoped(table, old(tables)[table]); tables == old(tables)[table := t] && error == e
    {
      var t := tables[table];
      error := None;
      if Has(t, BY_TENANT_AND_NAME) {
        assert tables[table := t] == tables;
        return;
      }
      var i := FirstOn(t.uniques, BY_NAME);
      if i < |t.uniques| {
        var existing := t.uniques[i].name;
        var dropped := DropUnique(table, t, if existing.Some? then existing.value else NameConstraint(table));
        t, error := dropped.0, dropped.1;
      }
      if error.None? {
        var created := CreateUnique(table, t, TenantNameConstraint(table), BY_TENANT_AND_NAME);
        t, error := created.0, created.1;
      }
      tables := tables[table := t];
    }

    /** Revision 0010, upward. */
    method Upgrade() returns (error: Option<Error>)
      modifies this
      ensures Result(tables, error) == Upgraded(old(tables))
    {
      AddTenantColumns();
      ghost var db := tables;
      error := None;
      for n := 0 to |NAMED_TABLES|
        invariant Each(NAMED_TABLES[..n], Scoped, db) == Result(tables, None) && error.None?
      {
        var table := NAMED_TABLES[n];
        assert NAMED_TABLES[..n + 1][..n] == NAMED_TABLES[..n];
        if table !in tables { continue; }
        error := ScopeNames(table);
        if error.Some? {
          FirstErrorEnds(NAMED_TABLES, n + 1, Scoped, db);
          return;
        }
      }
      assert NAMED_TABLES[..|NAMED_TABLES|] == NAMED_TABLES;
    }

    method RemoveTenantColumns()
      modifies this
      ensures tables == Each(DOWN_TABLES, RemoveTenant, old(tables)).tables
    {
      ghost var db := tables;
      for n := 0 to |DOWN_TABLES|
        invariant Each(DOWN_TABLES[..n], RemoveTenant, db) == Result(tables, None)
      {
        var table := DOWN_TABLES[n];
        assert DOWN_TABLES[..n + 1][..n] == DOWN_TABLES[..n];
        if table !in tables { continue; }
        var t := tables[table];
        if TenantIndex(table) in t.indexes {
          t := t.(indexes := t.indexes - {TenantIndex(table)});
        }
        assert t.indexes == tables[table].indexes - {TenantIndex(table)};
        if t.hasTenant {
          t := t.(hasTenant := false, rows := SetTenant(t.rows, None), uniques := Without(t.uniques, TENANT_ID),
                  indexes := map n | n in t.indexes && TENANT_ID !in t.indexes[n] :: t.indexes[n]);
        }
        tables := tables[table := t];
      }
      assert DOWN_TABLES[..|DOWN_TABLES|] == DOWN_TABLES;
    }

    method SwapConstraintsBack() returns (error: Option<Error>)
      modifies this
      ensures Result(tables, error) == Each(DOWN_NAMED_TABLES, Unscoped, old(tables))
    {
      ghost var db := tables;
      for n := 0 to |DOWN_NAMED_TABLES|
        invariant Each(DOWN_NAMED_TABLES[..n], Unscoped, db) == Result(tables, None)
      {
        var table := DOWN_NAMED_TABLES[n];
        assert DOWN_NAMED_TABLES[..n + 1][..n] == DOWN_NAMED_TABLES[..n];
        if table !in tables { continue; }
        var t := tables[table];
        var namesUnique := Has(t, BY_NAME);
        error := None;
        if Has(t, BY_TENANT_AND_NAME) {
          var dropped := DropUnique(table, t, TenantNameConstraint(table));
          t, error := dropped.0, dropped.1;
        }
        if error.None? && !namesUnique {
          var created := CreateUnique(table, t, NameConstraint(table), BY_NAME);
          t, error := created.0, created.1;
        }
        tables := tables[table := t];
        if error.Some? {
          FirstErrorEnds(DOWN_NAMED_TABLES, n + 1, Unscoped, db);
          return;
        }
      }
      assert DOWN_NAMED_TABLES[..|DOWN_NAMED_TABLES|] == DOWN_NAMED_TABLES;
      error := None;
    }

    /** Revision 0010, downward: repeated names stop it before any change. */
    method Downgrade() returns (error: Option<Error>)
      modifies this
      ensures Result(tables, error) == DowngradeResult(old(tables))
    {
      for n := 0 to |NAMED_TABLES|
        invariant tables == old(tables)
        invariant Repetition(NAMED_TABLES, tables) == Repetition(NAMED_TABLES[n..], tables)
      {
        var table := NAMED_TABLES[n];
        assert NAMED_TABLES[n..][1..] == NAMED_TABLES[n + 1..];
        if table in tables && !NamesDiffer(tables[table].rows) {
          return Some(RepeatedName(table));
        }
      }
      error := SwapConstraintsBack();
      if error.Some? { return; }
      EachTable(DOWN_TABLES, RemoveTenant, tables);
      RemoveTenantColumns();
    }
  }

  lemma {:induction false} FirstErrorEnds(names: seq<string>, n: nat, change: Change, db: Tables)
    requires n <= |names| && Each(names[..n], change, db).error.Some?
    ensures Each(names, change, db) == Each(names[..n], change, db)
    decreases |names|
  {
    if n == |names| {
      assert names[..n] == names;
    } else {
      assert names[..|names| - 1][..n] == names[..n];
      FirstErrorEnds(names[..|names| - 1], n, change, db);
    }
  }
}
