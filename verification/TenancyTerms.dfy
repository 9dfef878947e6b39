/** What revision 0010 does, said of columns, constraints and indexes by their names. */
module TenancyTerms {
  import opened Collections
  import opened Tenancy

  ghost predicate HasUnique(t: Table, columns: seq<string>) {
    exists i :: 0 <= i < |t.uniques| && t.uniques[i].columns == columns
  }

  predicate IsTable(k: string) {
    k == "roles" || k == "groups" || k == "identity_providers"
  }

  predicate IsNamedTable(k: string) {
    k == "roles" || k == "groups"
  }

  lemma TablesAre(k: string)
    ensures k in ALL_TABLES <==> IsTable(k)
    ensures k in NAMED_TABLES <==> IsNamedTable(k)
  {
    assert ALL_TABLES[0] == "roles" && ALL_TABLES[1] == "groups" && ALL_TABLES[2] == "identity_providers";
    assert NAMED_TABLES[0] == "roles" && NAMED_TABLES[1] == "groups";
  }

  // ----- Upwards -----

  /** The table has a tenant column with its index; a new column holds the default tenant; all other columns and
      indexes are as they were. */
  ghost predicate GivesTenants(k: string, t: Table, t': Table) {
    && t'.hasTenant && |t'.rows| == |t.rows|
    && (forall i | 0 <= i < |t.rows| ::
          && t'.rows[i].id == t.rows[i].id && t'.rows[i].name == t.rows[i].name
          && t'.rows[i].tenant == if t.hasTenant then t.rows[i].tenant else Some("default"))
    && "ix_" + k + "_tenant_id" in t'.indexes
    && ("ix_" + k + "_tenant_id" !in t.indexes ==> t'.indexes["ix_" + k + "_tenant_id"] == ["tenant_id"])
    && (forall n <- t.indexes :: n in t'.indexes && t'.indexes[n] == t.indexes[n])
  }

  /** Names are unique per tenant; a new constraint goes by the conventional name; no constraint is lost but one
      on the name alone. */
  ghost predicate MakesNamesLocal(k: string, t: Table, t': Table) {
    && HasUnique(t', ["tenant_id", "name"])
    && (!HasUnique(t, ["tenant_id", "name"]) ==> Unique(Some("uq_" + k + "_tenant_name"), ["tenant_id", "name"]) in t'.uniques)
    && (forall u <- t.uniques | u.columns != ["name"] :: u in t'.uniques)
  }

  lemma TenantsGiven(k: string, t: Table)
    requires Consistent(t)
    ensures GivesTenants(k, t, WithTenant(k, t)) && WithTenant(k, t).uniques == t.uniques
  {
  }

  lemma NamesMadeLocal(k: string, t: Table)
    requires Consistent(t) && Conventional(k, t) && t.hasTenant && Scoped(k, t).1.None?
    ensures var t' := Scoped(k, t).0;
            MakesNamesLocal(k, t, t') && t'.rows == t.rows && t'.indexes == t.indexes && t'.hasTenant
  {
    ScopedIff(k, t);
    if !Has(t, BY_TENANT_AND_NAME) {
      var i := FirstOn(t.uniques, BY_NAME);
      var added := Unique(Some("uq_" + k + "_tenant_name"), ["tenant_id", "name"]);
      if i < |t.uniques| {
        DroppedNameConstraint(k, t, i);
        AddedConstraint(k, t.(uniques := Drop(t.uniques, i)), TenantNameConstraint(k), BY_TENANT_AND_NAME);
        assert Scoped(k, t).0.uniques == Drop(t.uniques, i) + [added];
        OthersStay(t.uniques, i);
      } else {
        AddedConstraint(k, t, TenantNameConstraint(k), BY_TENANT_AND_NAME);
        assert Scoped(k, t).0.uniques == t.uniques + [added];
      }
      assert Scoped(k, t).0.uniques[|Scoped(k, t).0.uniques| - 1] == added;
    }
  }

  lemma OthersStay(us: seq<Unique>, i: nat)
    requires i < |us|
    ensures forall u <- us | u != us[i] :: u in Drop(us, i)
  {
    DropKeepsTheRest(us, i);
    forall u <- us | u != us[i]
      ensures u in Drop(us, i)
    {
      var j :| 0 <= j < |us| && us[j] == u;
      assert us[j] in Drop(us, i);
    }
  }

  /** The upgrade of one table, where it works. */
  lemma UpgradeMeans(db: Tables, k: string)
    requires Sound(db) && Upgraded(db).error.None? && k in db && IsTable(k)
    ensures k in Upgraded(db).tables && GivesTenants(k, db[k], Upgraded(db).tables[k])
    ensures IsNamedTable(k) ==> MakesNamesLocal(k, db[k], Upgraded(db).tables[k])
  {
    TablesAre(k);
    UpgradeIsPointwise(db);
    var t, t1 := db[k], WithTenant(k, db[k]);
    TenantsGiven(k, t);
    WithTenantKeepsRows(k, t);
    if IsNamedTable(k) {
      NamesMadeLocal(k, t1);
    }
  }

  // ----- Downwards -----

  /** The tenant column and its index are gone, and with them whatever needs the column; all other columns and
      indexes are as they were. */
  ghost predicate TakesTenants(k: string, t: Table, t': Table) {
    && !t'.hasTenant && |t'.rows| == |t.rows|
    && (forall i | 0 <= i < |t.rows| :: t'.rows[i].id == t.rows[i].id && t'.rows[i].name == t.rows[i].name)
    && "ix_" + k + "_tenant_id" !in t'.indexes
    && (forall n <- t.indexes | n != "ix_" + k + "_tenant_id" && !(t.hasTenant && "tenant_id" in t.indexes[n]) ::
          n in t'.indexes && t'.indexes[n] == t.indexes[n])
  }

  /** Names are unique in the whole installation; a new constraint goes by the conventional name; no constraint
      is lost that does not need the tenant column. */
  ghost predicate MakesNamesGlobal(k: string, t: Table, t': Table) {
    && HasUnique(t', ["name"])
    && (!HasUnique(t, ["name"]) ==> Unique(Some("uq_" + k + "_name"), ["name"]) in t'.uniques)
    && (forall u <- t.uniques | "tenant_id" !in u.columns :: u in t'.uniques)
  }

  lemma TenantsTaken(k: string, t: Table)
    requires Consistent(t)
    ensures TakesTenants(k, t, WithoutTenant(k, t))
    ensures forall u <- t.uniques | "tenant_id" !in u.columns :: u in WithoutTenant(k, t).uniques
  {
    WithoutIsAFilter(t.uniques, TENANT_ID);
    WithoutTenantKeepsRows(k, t);
  }

  lemma NamesMadeGlobal(k: string, t: Table)
    requires Consistent(t) && Conventional(k, t) && NamesDiffer(t.rows)
    ensures var t' := Unscoped(k, t).0;
            && (!HasUnique(t, ["name"]) ==> Unique(Some("uq_" + k + "_name"), ["name"]) in t'.uniques)
            && (forall u <- t.uniques | "tenant_id" !in u.columns :: u in t'.uniques)
            && t'.rows == t.rows && t'.indexes == t.indexes && t'.hasTenant == t.hasTenant
  {
    UnscopedRestoresNames(k, t);
    assert BY_TENANT_AND_NAME[0] == "tenant_id";
    var t1 := t;
    if Has(t, BY_TENANT_AND_NAME) {
      DroppedTenantConstraint(k, t);
      t1 := DropUnique(k, t, TenantNameConstraint(k)).0;
      var i := FirstNamed(k, t.uniques, TenantNameConstraint(k));
      OthersStay(t.uniques, i);
      assert t.uniques[i].columns == BY_TENANT_AND_NAME;
    }
    if !Has(t, BY_NAME) {
      AddedConstraint(k, t1, NameConstraint(k), BY_NAME);
      var added := Unique(Some("uq_" + k + "_name"), ["name"]);
      assert Unscoped(k, t).0.uniques == t1.uniques + [added];
    }
  }

  /** The downgrade of one table of a database in which no name repeats. */
  lemma DowngradeMeans(db: Tables, k: string)
    requires Sound(db) && k in db && IsTable(k)
    requires forall n <- NAMED_TABLES | n in db :: NamesDiffer(db[n].rows)
    ensures k in DowngradeResult(db).tables && TakesTenants(k, db[k], DowngradeResult(db).tables[k])
    ensures IsNamedTable(k) ==> MakesNamesGlobal(k, db[k], DowngradeResult(db).tables[k])
  {
    TablesAre(k);
    assert Repetition(NAMED_TABLES, db).None? by { RepetitionIff(NAMED_TABLES, db); }
    DowngradeRestoresNames(db);
    DowngradeIsPointwise(db);
    var t := db[k];
    if IsNamedTable(k) {
      var t1 := Unscoped(k, t).0;
      UnscopedRestoresNames(k, t);
      NamesMadeGlobal(k, t);
      TenantsTaken(k, t1);
    } else {
      TenantsTaken(k, t);
    }
  }

  /** An unnamed constraint goes by the table and its first column. */
  lemma UnnamedConstraint(k: string)
    ensures NameOf(k, Unique(None, ["name"])) == "uq_" + k + "_name"
    ensures NameOf(k, Unique(None, ["tenant_id", "name"])) == "uq_" + k + "_tenant_id"
    ensures NameOf(k, Unique(Some("given"), ["name"])) == "given"
  {
  }
}
