/** Upgrades written as guarded steps, each of which inspects the schema and issues at most one
    operation: revisions 0006, 0011 and 0012. The point is resumption: wherever a run was cut off, a
    fresh run ends as if it had never been. */
module GuardedUpgrades {
  import opened Collections
  import opened Schema

  // ----- Guarded steps -----

  /** `checked` tells whether the guard also asks for the indexed columns, as 0011 does. */
  datatype Step =
    | EnsureTable(table: string, def: Table, references: set<string>)
    | EnsureColumn(table: string, column: Column)
    | EnsureIndex(name: string, table: string, columns: seq<string>, checked: bool)
    | RemoveIndex(name: string, table: string)

  predicate HasColumns(s: Schema, t: string, columns: seq<string>)
    requires t in s
  {
    forall c <- columns :: c in Names(s[t].columns)
  }

  function Exec(step: Step, s: Schema): Outcome {
    match step
    case EnsureTable(t, def, references) =>
      if t in s then Outcome(s, None) else CreateTable(s, t, def, references)
    case EnsureColumn(t, c) =>
      if t !in s || c.name in Names(s[t].columns) then Outcome(s, None) else AddColumn(s, t, c)
    case EnsureIndex(n, t, columns, checked) =>
      if t !in s || (checked && !HasColumns(s, t, columns)) || n in s[t].indexes then Outcome(s, None)
      else CreateIndex(s, n, t, columns)
    case RemoveIndex(n, t) =>
      if t in s && n in s[t].indexes then DropIndex(s, n, t) else Outcome(s, None)
  }

  /** The steps in order, up to the first one that raises. */
  function Run(steps: seq<Step>, s: Schema): Outcome
    decreases |steps|
  {
    if steps == [] then Outcome(s, None) else
    var o := Exec(steps[0], s);
    if o.error.Some? then o else Run(steps[1..], o.schema)
  }

  lemma {:induction false} RunAppend(a: seq<Step>, b: seq<Step>, s: Schema)
    ensures Run(a + b, s) == if Run(a, s).error.Some? then Run(a, s) else Run(b, Run(a, s).schema)
    decreases |a|
  {
    if a == [] {
      assert a + b == b;
    } else {
      assert (a + b)[0] == a[0] && (a + b)[1..] == a[1..] + b;
      RunAppend(a[1..], b, Exec(a[0], s).schema);
    }
  }

  // ----- Resumption -----

  /** The step has nothing left to do. */
  predicate Settled(step: Step, s: Schema) {
    Exec(step, s) == Outcome(s, None)
  }

  /** `later` could give `earlier` something to do again. */
  predicate Disturbs(later: Step, earlier: Step) {
    match later
    case EnsureTable(t, _, _) => !earlier.EnsureTable? && earlier.table == t
    case EnsureColumn(t, c) => earlier.EnsureIndex? && earlier.table == t && c.name in earlier.columns
    case EnsureIndex(n, t, _, _) => earlier.RemoveIndex? && earlier.table == t && earlier.name == n
    case RemoveIndex(n, t) => earlier.EnsureIndex? && earlier.table == t && earlier.name == n
  }

  /** No step undoes the effect of an earlier one. */
  predicate Ordered(steps: seq<Step>) {
    forall i, j | 0 <= i < j < |steps| :: !Disturbs(steps[j], steps[i])
  }

  lemma ExecSettles(step: Step, s: Schema)
    requires Exec(step, s).error.None?
    ensures Settled(step, Exec(step, s).schema)
  {
    var s' := Exec(step, s).schema;
    if step.EnsureColumn? && s' != s {
      assert s'[step.table].columns[|s[step.table].columns|] == step.column;
    }
  }

  lemma RaisingChangesNothing(step: Step, s: Schema)
    requires Exec(step, s).error.Some?
    ensures Exec(step, s).schema == s
  {
  }

  lemma SettledIsKept(earlier: Step, later: Step, s: Schema)
    requires Settled(earlier, s) && !Disturbs(later, earlier) && Exec(later, s).error.None?
    ensures Settled(earlier, Exec(later, s).schema)
  {
    var s' := Exec(later, s).schema;
    if later.EnsureColumn? && s' != s {
      var columns := s[later.table].columns;
      assert s'[later.table].columns == columns + [later.column];
      assert forall c <- columns + [later.column] :: c in columns || c == later.column;
      assert Names(columns + [later.column]) == Names(columns) + {later.column.name};
      if earlier.EnsureIndex? && earlier.table == later.table && earlier.checked &&
         !HasColumns(s, later.table, earlier.columns) {
        var c :| c in earlier.columns && c !in Names(columns);
        assert c != later.column.name;
        assert !HasColumns(s', later.table, earlier.columns);
      }
    }
  }

  ghost predicate AllSettled(steps: seq<Step>, s: Schema) {
    forall i | 0 <= i < |steps| :: Settled(steps[i], s)
  }

  lemma {:induction false} SettledRunIsIdle(steps: seq<Step>, s: Schema)
    requires AllSettled(steps, s)
    ensures Run(steps, s) == Outcome(s, None)
    decreases |steps|
  {
    if steps != [] {
      assert Settled(steps[0], s);
      forall i | 0 <= i < |steps[1..]|
        ensures Settled(steps[1..][i], s)
      {
        assert steps[1..][i] == steps[i + 1];
      }
      SettledRunIsIdle(steps[1..], s);
    }
  }

  /** After an ordered run every one of its steps is settled: tables that are there carry every column
      and every index asked for, and none of the removed ones. */
  lemma {:induction false} RunSettlesAll(steps: seq<Step>, s: Schema)
    requires Ordered(steps) && Run(steps, s).error.None?
    ensures AllSettled(steps, Run(steps, s).schema)
    decreases |steps|
  {
    if steps != [] {
      var n := |steps| - 1;
      var before, last := steps[..n], steps[n];
      assert steps == before + [last];
      RunAppend(before, [last], s);
      var mid := Run(before, s).schema;
      assert Run([last], mid) == Exec(last, mid) by { assert [last][1..] == []; }
      RunSettlesAll(before, s);
      forall i | 0 <= i < |steps|
        ensures Settled(steps[i], Run(steps, s).schema)
      {
        if i < n {
          assert Settled(before[i], mid);
          assert !Disturbs(steps[n], steps[i]);
          SettledIsKept(steps[i], last, mid);
        } else {
          ExecSettles(last, mid);
        }
      }
    }
  }

  /** Starting again from the schema left by the first `k` steps of a run, whether it was cut off there
      or raised before, comes to the same end as one clean run: same schema, same error if any. */
  lemma {:induction false} Resumes(steps: seq<Step>, k: nat, s: Schema)
    requires Ordered(steps) && k <= |steps|
    ensures Run(steps, Run(steps[..k], s).schema) == Run(steps, s)
    decreases k
  {
    var done, rest := steps[..k], steps[k..];
    assert steps == done + rest;
    var left := Run(done, s).schema;
    if Run(done, s).error.None? {
      RunSettlesAll(done, s);
      SettledRunIsIdle(done, left);
      RunAppend(done, rest, s);
      RunAppend(done, rest, left);
    } else {
      assert done == steps[..k - 1] + [steps[k - 1]];
      RunAppend(steps[..k - 1], [steps[k - 1]], s);
      var mid := Run(steps[..k - 1], s);
      if mid.error.None? {
        assert [steps[k - 1]][1..] == [];
        assert Run([steps[k - 1]], mid.schema).schema == Exec(steps[k - 1], mid.schema).schema;
        RaisingChangesNothing(steps[k - 1], mid.schema);
      }
      assert left == mid.schema;
      Resumes(steps, k - 1, s);
    }
  }

  /** The schema after a number of attempts, attempt `i` ending after `cuts[i]` steps at the latest. */
  ghost function Attempts(steps: seq<Step>, cuts: seq<nat>, s: Schema): Schema
    requires forall i | 0 <= i < |cuts| :: cuts[i] <= |steps|
    decreases |cuts|
  {
    if cuts == [] then s else
    Attempts(steps, cuts[1..], Run(steps[..cuts[0]], s).schema)
  }

  /** Any number of interrupted attempts, each cut off anywhere, leave no trace in the end result. */
  lemma {:induction false} InterruptionsDoNotMatter(steps: seq<Step>, cuts: seq<nat>, s: Schema)
    requires Ordered(steps) && forall i | 0 <= i < |cuts| :: cuts[i] <= |steps|
    ensures Run(steps, Attempts(steps, cuts, s)) == Run(steps, s)
    decreases |cuts|
  {
    if cuts != [] {
      Resumes(steps, cuts[0], s);
      InterruptionsDoNotMatter(steps, cuts[1..], Run(steps[..cuts[0]], s).schema);
    }
  }

  /** Running an ordered upgrade twice is running it once. */
  lemma RunIsIdempotent(steps: seq<Step>, s: Schema)
    requires Ordered(steps) && Run(steps, s).error.None?
    ensures Run(steps, Run(steps, s).schema) == Run(steps, s)
  {
    RunSettlesAll(steps, s);
    SettledRunIsIdle(steps, Run(steps, s).schema);
  }

  // ----- What a run leaves alone, and what it adds -----

  ghost predicate AsksForColumn(steps: seq<Step>, t: string, c: Column) {
    EnsureColumn(t, c) in steps || exists def, references :: EnsureTable(t, def, references) in steps && c in def.columns
  }

  ghost predicate AsksForIndex(steps: seq<Step>, t: string, n: string, columns: seq<string>) {
    || EnsureIndex(n, t, columns, true) in steps || EnsureIndex(n, t, columns, false) in steps
    || exists def, references :: EnsureTable(t, def, references) in steps && n in def.indexes && def.indexes[n] == columns
  }

  ghost predicate AsksForTable(steps: seq<Step>, t: string) {
    exists def, references :: EnsureTable(t, def, references) in steps
  }

  /** Tables stay, columns stay in their order, an index is lost only to a RemoveIndex step, and whatever
      is new was asked for by some step, down to the indexed columns. */
  ghost predicate Extends(steps: seq<Step>, s: Schema, s': Schema) {
    && s.Keys <= s'.Keys
    && (forall t <- s' :: t in s || AsksForTable(steps, t))
    && (forall t <- s :: s[t].columns <= s'[t].columns)
    && (forall t <- s, n <- s[t].indexes ::
          RemoveIndex(n, t) in steps || (n in s'[t].indexes && s'[t].indexes[n] == s[t].indexes[n]))
    && (forall t <- s', c <- s'[t].columns :: (t in s && c in s[t].columns) || AsksForColumn(steps, t, c))
    && (forall t <- s', n <- s'[t].indexes ::
          (t in s && n in s[t].indexes && s[t].indexes[n] == s'[t].indexes[n])
          || AsksForIndex(steps, t, n, s'[t].indexes[n]))
  }

  lemma TableStepExtends(steps: seq<Step>, step: Step, s: Schema)
    requires step in steps && step.EnsureTable?
    ensures Extends(steps, s, Exec(step, s).schema)
  {
    var s' := Exec(step, s).schema;
    forall t <- s'
      ensures t in s ==> s'[t] == s[t]
      ensures t !in s ==> EnsureTable(t, s'[t], step.references) in steps
    {
    }
  }

  lemma ColumnStepExtends(steps: seq<Step>, step: Step, s: Schema)
    requires step in steps && step.EnsureColumn?
    ensures Extends(steps, s, Exec(step, s).schema)
  {
    var s' := Exec(step, s).schema;
    forall t <- s'
      ensures t in s && s'[t].indexes == s[t].indexes && s[t].columns <= s'[t].columns
      ensures forall c <- s'[t].columns :: c in s[t].columns || EnsureColumn(t, c) in steps
    {
    }
  }

  lemma IndexStepExtends(steps: seq<Step>, step: Step, s: Schema)
    requires step in steps && step.EnsureIndex?
    ensures Extends(steps, s, Exec(step, s).schema)
  {
    var s' := Exec(step, s).schema;
    assert step == EnsureIndex(step.name, step.table, step.columns, step.checked);
    assert step.checked == true || step.checked == false;
    forall t <- s'
      ensures t in s && s'[t].columns == s[t].columns
      ensures forall n <- s[t].indexes :: n in s'[t].indexes && s'[t].indexes[n] == s[t].indexes[n]
      ensures forall n <- s'[t].indexes :: (n in s[t].indexes && s[t].indexes[n] == s'[t].indexes[n])
                                           || AsksForIndex(steps, t, n, s'[t].indexes[n])
    {
    }
  }

  lemma RemovalExtends(steps: seq<Step>, step: Step, s: Schema)
    requires step in steps && step.RemoveIndex?
    ensures Extends(steps, s, Exec(step, s).schema)
  {
    var s' := Exec(step, s).schema;
    forall t <- s'
      ensures t in s && s'[t].columns == s[t].columns
      ensures forall n <- s'[t].indexes :: n in s[t].indexes && s[t].indexes[n] == s'[t].indexes[n]
      ensures forall n <- s[t].indexes :: RemoveIndex(n, t) in steps || n in s'[t].indexes
    {
    }
  }

  lemma StepExtends(steps: seq<Step>, step: Step, s: Schema)
    requires step in steps
    ensures Extends(steps, s, Exec(step, s).schema)
  {
    match step
    case EnsureTable(_, _, _) => TableStepExtends(steps, step, s);
    case EnsureColumn(_, _) => ColumnStepExtends(steps, step, s);
    case EnsureIndex(_, _, _, _) => IndexStepExtends(steps, step, s);
    case RemoveIndex(_, _) => RemovalExtends(steps, step, s);
  }

  lemma ExtendsIsTransitive(steps: seq<Step>, s: Schema, s1: Schema, s2: Schema)
    requires Extends(steps, s, s1) && Extends(steps, s1, s2)
    ensures Extends(steps, s, s2)
  {
    forall t <- s
      ensures s[t].columns <= s2[t].columns
    {
      assert t in s1 && s[t].columns <= s1[t].columns;
    }
  }

  lemma {:induction false} SuffixExtends(steps: seq<Step>, from: nat, s: Schema)
    requires from <= |steps|
    ensures Extends(steps, s, Run(steps[from..], s).schema)
    decreases |steps| - from
  {
    if from < |steps| {
      assert steps[from..][0] == steps[from] && steps[from..][1..] == steps[from + 1..];
      var s1 := Exec(steps[from], s).schema;
      StepExtends(steps, steps[from], s);
      SuffixExtends(steps, from + 1, s1);
      ExtendsIsTransitive(steps, s, s1, Run(steps[from + 1..], s1).schema);
    }
  }

  lemma RunExtends(steps: seq<Step>, s: Schema)
    ensures Extends(steps, s, Run(steps, s).schema)
  {
    SuffixExtends(steps, 0, s);
    assert steps[0..] == steps;
  }

  // ----- What a run achieves, said of the schema alone -----

  predicate HasColumn(s: Schema, t: string, column: string) {
    t in s && exists i :: 0 <= i < |s[t].columns| && s[t].columns[i].name == column
  }

  /** The step's aim is met: the table is there; the column or the index is there if its table is, and for a
      checked index if its columns are; the index is gone. */
  ghost predicate Done(step: Step, s: Schema) {
    match step
    case EnsureTable(t, _, _) => t in s
    case EnsureColumn(t, c) => t in s ==> HasColumn(s, t, c.name)
    case EnsureIndex(n, t, columns, checked) =>
      t in s && (checked ==> forall c <- columns :: HasColumn(s, t, c)) ==> n in s[t].indexes
    case RemoveIndex(n, t) => t in s ==> n !in s[t].indexes
  }

  lemma HasColumnIff(s: Schema, t: string, column: string)
    requires t in s
    ensures HasColumn(s, t, column) <==> column in Names(s[t].columns)
  {
    if c :| c in s[t].columns && c.name == column {
      var i :| 0 <= i < |s[t].columns| && s[t].columns[i] == c;
    }
  }

  lemma SettledIsDone(step: Step, s: Schema)
    requires Settled(step, s)
    ensures Done(step, s)
  {
    match step
    case EnsureTable(_, _, _) =>
    case EnsureColumn(t, c) =>
      if t in s {
        HasColumnIff(s, t, c.name);
        var added := s[t := s[t].(columns := s[t].columns + [c])];
        assert |added[t].columns| == |s[t].columns| + 1;
      }
    case EnsureIndex(n, t, columns, checked) =>
      if t in s {
        forall c <- columns
          ensures HasColumn(s, t, c) <==> c in Names(s[t].columns)
        {
          HasColumnIff(s, t, c);
        }
        var added := s[t := s[t].(indexes := s[t].indexes[n := columns])];
        assert n in added[t].indexes;
      }
    case RemoveIndex(_, _) =>
  }

  /** An ordered run without an error leaves the aim of every step met. */
  lemma RunIsDone(steps: seq<Step>, s: Schema)
    requires Ordered(steps) && Run(steps, s).error.None?
    ensures forall step <- steps :: Done(step, Run(steps, s).schema)
  {
    RunSettlesAll(steps, s);
    forall step <- steps
      ensures Done(step, Run(steps, s).schema)
    {
      var i :| 0 <= i < |steps| && steps[i] == step;
      SettledIsDone(steps[i], Run(steps, s).schema);
    }
  }

  /** When a step raises: a referenced table is missing; an unchecked index asks for a missing column; or the
      name of the index is taken in another table. */
  lemma RaisesIff(step: Step, s: Schema)
    ensures Exec(step, s).error.Some? <==>
            || (step.EnsureTable? && step.table !in s && exists t <- step.references :: t !in s)
            || (step.EnsureIndex? && step.table in s && step.name !in s[step.table].indexes
                && (if exists c <- step.columns :: !HasColumn(s, step.table, c) then !step.checked
                    else exists t <- s :: step.name in s[t].indexes))
  {
    if step.EnsureIndex? && step.table in s {
      forall c <- step.columns
        ensures HasColumn(s, step.table, c) <==> c in Names(s[step.table].columns)
      {
        HasColumnIff(s, step.table, c);
      }
    }
  }

  /** What a relational schema guarantees: no name twice among the columns of a table or the indexes of all. */
  ghost predicate WellFormed(s: Schema) {
    && (forall t <- s, i, j | 0 <= i < j < |s[t].columns| :: s[t].columns[i].name != s[t].columns[j].name)
    && (forall t <- s, u <- s, n | n in s[t].indexes && n in s[u].indexes :: t == u)
    && (forall t <- s, n <- s[t].indexes, c <- s[t].indexes[n] :: HasColumn(s, t, c))
  }

  /** A table that a step may create is well formed by itself, and brings no index. */
  ghost predicate Creatable(step: Step) {
    step.EnsureTable? ==>
      && step.def.indexes == map[]
      && forall i, j | 0 <= i < j < |step.def.columns| :: step.def.columns[i].name != step.def.columns[j].name
  }

  lemma ColumnStepIsWellFormed(step: Step, s: Schema)
    requires WellFormed(s) && step.EnsureColumn?
    ensures WellFormed(Exec(step, s).schema)
  {
    var s' := Exec(step, s).schema;
    if s' != s {
      var t := step.table;
      assert s'[t].columns == s[t].columns + [step.column];
      forall u <- s', c | HasColumn(s, u, c)
        ensures HasColumn(s', u, c)
      {
        var i :| 0 <= i < |s[u].columns| && s[u].columns[i].name == c;
        assert s'[u].columns[i].name == c;
      }
    }
  }

  lemma IndexStepIsWellFormed(step: Step, s: Schema)
    requires WellFormed(s) && (step.EnsureIndex? || step.RemoveIndex?)
    ensures WellFormed(Exec(step, s).schema)
  {
    var s' := Exec(step, s).schema;
    forall u <- s, c
      ensures HasColumn(s, u, c) ==> HasColumn(s', u, c)
    {
    }
    if step.EnsureIndex? && s' != s {
      forall c <- step.columns
        ensures HasColumn(s', step.table, c)
      {
        HasColumnIff(s, step.table, c);
      }
    }
  }

  lemma TableStepIsWellFormed(step: Step, s: Schema)
    requires WellFormed(s) && step.EnsureTable? && Creatable(step)
    ensures WellFormed(Exec(step, s).schema)
  {
    forall u <- s, c
      ensures HasColumn(s, u, c) ==> HasColumn(Exec(step, s).schema, u, c)
    {
    }
  }

  lemma StepIsWellFormed(step: Step, s: Schema)
    requires WellFormed(s) && Creatable(step)
    ensures WellFormed(Exec(step, s).schema)
  {
    match step
    case EnsureTable(_, _, _) => TableStepIsWellFormed(step, s);
    case EnsureColumn(_, _) => ColumnStepIsWellFormed(step, s);
    case EnsureIndex(_, _, _, _) => IndexStepIsWellFormed(step, s);
    case RemoveIndex(_, _) => IndexStepIsWellFormed(step, s);
  }

  /** A run keeps the schema well formed. */
  lemma {:induction false} RunIsWellFormed(steps: seq<Step>, s: Schema)
    requires WellFormed(s) && forall step <- steps :: Creatable(step)
    ensures WellFormed(Run(steps, s).schema)
    decreases |steps|
  {
    if steps != [] {
      assert steps[0] in steps;
      StepIsWellFormed(steps[0], s);
      RunIsWellFormed(steps[1..], Exec(steps[0], s).schema);
    }
  }

  /** A table that a run creates has all its columns, as they were asked for. */
  lemma {:induction false} CreatedWhole(steps: seq<Step>, s: Schema, k: nat)
    requires k < |steps| && steps[k].EnsureTable? && Run(steps, s).error.None?
    requires steps[k].table !in s && forall j | 0 <= j < k && steps[j].EnsureTable? :: steps[j].table != steps[k].table
    ensures steps[k].table in Run(steps, s).schema
    ensures steps[k].def.columns <= Run(steps, s).schema[steps[k].table].columns
    decreases k
  {
    var s1 := Exec(steps[0], s).schema;
    if k == 0 {
      SuffixExtends(steps, 1, s1);
      assert steps[1..] == steps[1..];
    } else {
      assert steps[1..][k - 1] == steps[k];
      CreatedWhole(steps[1..], s1, k - 1);
    }
  }
}
