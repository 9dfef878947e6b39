/** The Advisor tool around the fetches: which subscriptions a query may touch, and what the answer counts.
    Lower-casing and the row filter are parameters. */
module AdvisorQuery {
  import opened Collections

  const MAX_SUBSCRIPTIONS := 25

  // ----- Selecting subscriptions -----

  datatype Subscription = Subscription(id: string, name: string)

  datatype Refusal = OutsideScope | NothingInScope

  /** `low` is `str.lower`; an empty `allowed` list and an absent scope do not restrict. */
  datatype Query = Query(
    low: string -> string, visible: seq<Subscription>, allowed: seq<string>, scope: Option<seq<string>>,
    requested: seq<string>)

  datatype Selection = Refused(why: Refusal) | Selected(targets: seq<string>, omitted: seq<string>)

  function Lows(q: Query, ids: seq<string>): set<string> {
    set s <- ids :: q.low(s)
  }

  function VisibleIds(visible: seq<Subscription>): (ids: seq<string>)
    ensures forall id :: id in ids <==> id != "" && exists i :: 0 <= i < |visible| && visible[i].id == id
  {
    if visible == [] then [] else
    var n := |visible| - 1;
    VisibleIds(visible[..n]) + if visible[n].id != "" then [visible[n].id] else []
  }

  /** `{low(id): id}`: a later spelling of the same id wins. */
  function ByLow(low: string -> string, ids: seq<string>): (m: map<string, string>)
    ensures forall k <- m :: low(m[k]) == k && m[k] in ids
    ensures forall id <- ids :: low(id) in m
  {
    if ids == [] then map[] else
    var n := |ids| - 1;
    ByLow(low, ids[..n])[low(ids[n]) := ids[n]]
  }

  /** The subscriptions (up to case) that a query may touch before any are requested. */
  ghost predicate Permitted(q: Query, k: string) {
    && k in Lows(q, VisibleIds(q.visible))
    && (q.allowed != [] ==> k in Lows(q, q.allowed))
    && (q.scope.Some? ==> k in Lows(q, q.scope.value))
  }

  /** The visible spellings of the allowed ids that are visible. */
  method AllowedIds(q: Query, visibleIds: seq<string>) returns (base: seq<string>)
    ensures forall s <- base :: s in visibleIds
    ensures forall k :: k in Lows(q, base) <==> k in Lows(q, visibleIds) && k in Lows(q, q.allowed)
  {
    var byId := ByLow(q.low, visibleIds);
    base := [];
    for i := 0 to |q.allowed|
      invariant forall s <- base :: s in visibleIds
      invariant forall k :: k in Lows(q, base) <==> k in Lows(q, visibleIds) && k in Lows(q, q.allowed[..i])
    {
      var s := q.allowed[i];
      assert q.allowed[..i + 1] == q.allowed[..i] + [s];
      LowsGrow(q, q.allowed[..i], s);
      if q.low(s) in byId {
        LowsGrow(q, base, byId[q.low(s)]);
        base := base + [byId[q.low(s)]];
      }
    }
    assert q.allowed[..|q.allowed|] == q.allowed;
  }

  /** The ids that lie in a scope, in order. */
  method IdsWithin(q: Query, before: seq<string>, scope: seq<string>) returns (base: seq<string>)
    ensures forall s <- base :: s in before
    ensures forall k :: k in Lows(q, base) <==> k in Lows(q, before) && k in Lows(q, scope)
  {
    var scoped := Lows(q, scope);
    base := [];
    for i := 0 to |before|
      invariant forall s <- base :: s in before
      invariant forall k :: k in Lows(q, base) <==> k in Lows(q, before[..i]) && k in scoped
    {
      assert before[..i + 1] == before[..i] + [before[i]];
      LowsGrow(q, before[..i], before[i]);
      if q.low(before[i]) in scoped {
        LowsGrow(q, base, before[i]);
        base := base + [before[i]];
      }
    }
    assert before[..|before|] == before;
  }

  /** The ids of the base list, in order, that pass the scope. */
  method ScopedIds(q: Query) returns (base: seq<string>)
    ensures forall s <- base :: s in VisibleIds(q.visible)
    ensures forall k :: k in Lows(q, base) <==> Permitted(q, k)
  {
    base := VisibleIds(q.visible);
    if q.allowed != [] {
      base := AllowedIds(q, base);
    }
    if q.scope.Some? {
      base := IdsWithin(q, base, q.scope.value);
    }
  }

  lemma LowsGrow(q: Query, ids: seq<string>, id: string)
    ensures Lows(q, ids + [id]) == Lows(q, ids) + {q.low(id)}
  {
    assert forall x :: x in ids + [id] <==> x in ids || x == id;
  }

  /** `list(dict.fromkeys(...))` of the permitted spellings of the requested ids. */
  method Narrow(q: Query, base: seq<string>) returns (narrowed: Option<seq<string>>)
    ensures narrowed.None? <==> exists s <- q.requested :: q.low(s) !in Lows(q, base)
    ensures narrowed.Some? ==>
              && (forall s <- narrowed.value :: s in base)
              && (forall i, j | 0 <= i < j < |narrowed.value| :: narrowed.value[i] != narrowed.value[j])
              && Lows(q, narrowed.value) == Lows(q, q.requested)
  {
    var permitted := ByLow(q.low, base);
    assert forall k :: k in permitted <==> k in Lows(q, base);
    var ids: seq<string> := [];
    for i := 0 to |q.requested|
      invariant forall s <- q.requested[..i] :: q.low(s) in Lows(q, base)
      invariant forall s <- ids :: s in base
      invariant forall a, b | 0 <= a < b < |ids| :: ids[a] != ids[b]
      invariant Lows(q, ids) == Lows(q, q.requested[..i])
    {
      var s := q.requested[i];
      assert q.requested[..i + 1] == q.requested[..i] + [s];
      LowsGrow(q, q.requested[..i], s);
      if q.low(s) !in permitted {
        assert s in q.requested;
        return None;
      }
      var id := permitted[q.low(s)];
      if id !in ids {
        LowsGrow(q, ids, id);
        ids := ids + [id];
      } else {
        assert Lows(q, ids) == Lows(q, ids) + {q.low(id)};
      }
    }
    assert q.requested[..|q.requested|] == q.requested;
    narrowed := Some(ids);
  }

  /** The subscriptions (up to case) the whole query selects. */
  ghost predicate Wanted(q: Query, k: string) {
    Permitted(q, k) && (q.requested != [] ==> k in Lows(q, q.requested))
  }

  /** `targets` are queried, `omitted` are left out for their number; together they are what is wanted. */
  ghost predicate Selects(q: Query, targets: seq<string>, omitted: seq<string>) {
    && targets != [] && |targets| <= MAX_SUBSCRIPTIONS
    && (omitted != [] ==> |targets| == MAX_SUBSCRIPTIONS)
    && (forall s <- targets + omitted :: s in VisibleIds(q.visible))
    && (forall k :: k in Lows(q, targets + omitted) <==> Wanted(q, k))
  }

  /** Every subscription of a selection is in the allowed list if and only if that list is not empty: an empty
      one does not restrict. */
  lemma AllowedListRestrictsIff(q: Query, targets: seq<string>, omitted: seq<string>)
    requires Selects(q, targets, omitted)
    ensures Lows(q, targets + omitted) <= Lows(q, q.allowed) <==> q.allowed != []
  {
    if q.allowed == [] {
      assert targets[0] in targets + omitted;
      assert q.low(targets[0]) in Lows(q, targets + omitted);
    }
  }

  /** Up to case, `id` is among these. */
  predicate Among(low: string -> string, id: string, ids: seq<string>) {
    exists i :: 0 <= i < |ids| && low(ids[i]) == low(id)
  }

  /** Every subscription of a selection is a visible one, allowed, in scope and requested, where there is such a
      list at all. */
  lemma SelectedMeans(q: Query, targets: seq<string>, omitted: seq<string>, s: string)
    requires Selects(q, targets, omitted) && s in targets + omitted
    ensures s != "" && exists i :: 0 <= i < |q.visible| && q.visible[i].id == s
    ensures q.allowed != [] ==> Among(q.low, s, q.allowed)
    ensures q.scope.Some? ==> Among(q.low, s, q.scope.value)
    ensures q.requested != [] ==> Among(q.low, s, q.requested)
  {
    assert q.low(s) in Lows(q, targets + omitted);
    assert Wanted(q, q.low(s));
    AmongIff(q, s, q.allowed);
    AmongIff(q, s, q.requested);
    if q.scope.Some? { AmongIff(q, s, q.scope.value); }
  }

  /** And every such subscription is selected. */
  lemma SelectedIsAll(q: Query, targets: seq<string>, omitted: seq<string>, i: nat)
    requires Selects(q, targets, omitted) && i < |q.visible| && q.visible[i].id != ""
    requires q.allowed != [] ==> Among(q.low, q.visible[i].id, q.allowed)
    requires q.scope.Some? ==> Among(q.low, q.visible[i].id, q.scope.value)
    requires q.requested != [] ==> Among(q.low, q.visible[i].id, q.requested)
    ensures Among(q.low, q.visible[i].id, targets + omitted)
  {
    var s := q.visible[i].id;
    assert s in VisibleIds(q.visible) && q.low(s) in Lows(q, VisibleIds(q.visible));
    AmongIff(q, s, q.allowed);
    AmongIff(q, s, q.requested);
    if q.scope.Some? { AmongIff(q, s, q.scope.value); }
    assert Wanted(q, q.low(s));
    AmongIff(q, s, targets + omitted);
  }

  lemma AmongIff(q: Query, s: string, ids: seq<string>)
    ensures q.low(s) in Lows(q, ids) <==> Among(q.low, s, ids)
  {
    if x :| x in ids && q.low(x) == q.low(s) {
      var i :| 0 <= i < |ids| && ids[i] == x;
    }
  }

  /** A concrete query: nothing is allowed by name, and the one visible subscription is selected. */
  lemma NothingAllowedSelectsAll(q: Query)
    requires q == Query(s => s, [Subscription("s1", "One")], [], None, [])
    ensures Wanted(q, "s1") && "s1" !in Lows(q, q.allowed)
  {
    assert q.visible[0].id == "s1";
    assert "s1" in VisibleIds(q.visible);
    assert q.low("s1") == "s1";
  }

  /** Queried and omitted subscriptions together are exactly what is visible, allowed, in scope and
      requested, and a request for anything else is refused. */
  method Select(q: Query) returns (r: Selection)
    ensures r == Refused(OutsideScope) <==> exists s <- q.requested :: !Permitted(q, q.low(s))
    ensures r == Refused(NothingInScope) ==> forall k :: !Wanted(q, k)
    ensures r.Selected? ==> Selects(q, r.targets, r.omitted)
  {
    var base := ScopedIds(q);
    if q.requested != [] {
      var narrowed := Narrow(q, base);
      if narrowed.None? {
        return Refused(OutsideScope);
      }
      assert q.requested[0] in q.requested;
      base := narrowed.value;
    }
    if base == [] {
      return Refused(NothingInScope);
    }
    assert base[0] in base;
    var cut := if |base| <= MAX_SUBSCRIPTIONS then |base| else MAX_SUBSCRIPTIONS;
    assert base == base[..cut] + base[cut..];
    r := Selected(base[..cut], base[cut..]);
  }

  /** `subscription_ids_from_workload`, over the candidates in the order they are met. */
  method DistinctIds(low: string -> string, candidates: seq<string>) returns (found: seq<string>)
    ensures forall s <- found :: s in candidates
    ensures forall c <- candidates :: exists s <- found :: low(s) == low(c)
    ensures forall i, j | 0 <= i < j < |found| :: low(found[i]) != low(found[j])
  {
    found := [];
    var seen: set<string> := {};
    for n := 0 to |candidates|
      invariant forall s <- found :: s in candidates
      invariant forall k :: k in seen <==> exists s <- found :: low(s) == k
      invariant forall c <- candidates[..n] :: low(c) in seen
      invariant forall i, j | 0 <= i < j < |found| :: low(found[i]) != low(found[j])
    {
      var c := candidates[n];
      assert candidates[..n + 1] == candidates[..n] + [c];
      if low(c) !in seen {
        seen := seen + {low(c)};
        assert forall s :: s in found + [c] <==> s in found || s == c;
        forall i | 0 <= i < |found|
          ensures low(found[i]) != low(c)
        {
          assert found[i] in found;
        }
        found := found + [c];
      }
    }
    assert candidates[..|candidates|] == candidates;
  }

  // ----- Counting -----

  ghost function Total(m: map<string, nat>): nat
    decreases |m|
  {
    if m == map[] then 0 else
    assert |m.Keys| > 0;
    var k := Any(m.Keys);
    m[k] + Total(m - {k})
  }

  lemma {:induction false} TotalWithout(m: map<string, nat>, k: string)
    requires k in m
    ensures Total(m) == m[k] + Total(m - {k})
    decreases |m|
  {
    var j := Any(m.Keys);
    if j != k {
      TotalWithout(m - {j}, k);
      assert k in m - {j} && j in m - {k};
      TotalWithout(m - {k}, j);
      assert m - {j} - {k} == m - {k} - {j};
    }
  }

  /** One more of `k` is one more in all. */
  lemma TotalPlusOne(m: map<string, nat>, k: string)
    ensures Total(Increment(m, k)) == Total(m) + 1
  {
    var m' := Increment(m, k);
    TotalWithout(m', k);
    if k in m {
      TotalWithout(m, k);
      assert m' - {k} == m - {k};
    } else {
      assert m' - {k} == m;
    }
  }

  function Increment(m: map<string, nat>, k: string): map<string, nat> {
    m[k := (if k in m then m[k] else 0) + 1]
  }

  function Occurrences(keys: seq<string>, k: string): nat {
    if keys == [] then 0 else Occurrences(keys[..|keys| - 1], k) + if keys[|keys| - 1] == k then 1 else 0
  }

  /** The places where a key stands. */
  ghost function Places(keys: seq<string>, k: string): set<int> {
    set i | 0 <= i < |keys| && keys[i] == k
  }

  lemma {:induction false} OccurrencesAreCounted(keys: seq<string>, k: string)
    ensures Occurrences(keys, k) == |Places(keys, k)|
  {
    if keys == [] {
      assert Places(keys, k) == {};
    } else {
      var n := |keys| - 1;
      OccurrencesAreCounted(keys[..n], k);
      assert Places(keys, k) == Places(keys[..n], k) + if keys[n] == k then {n} else {};
    }
  }

  /** What a counter says of a key. */
  function CountOf(counts: map<string, nat>, k: string): nat {
    if k in counts then counts[k] else 0
  }

  lemma {:induction false} TotalOfZeros(m: map<string, nat>)
    requires forall k <- m :: m[k] == 0
    ensures Total(m) == 0
    decreases |m|
  {
    if m != map[] {
      assert |m.Keys| > 0;
      TotalOfZeros(m - {Any(m.Keys)});
    }
  }

  /** `Counter`, started from zeroes for the given names: it counts each key and loses none. */
  method Tally(zeroes: set<string>, keys: seq<string>) returns (counts: map<string, nat>)
    ensures Total(counts) == |keys|
    ensures zeroes <= counts.Keys
    ensures forall k :: CountOf(counts, k) == |Places(keys, k)|
  {
    counts := map k | k in zeroes :: 0;
    TotalOfZeros(counts);
    for i := 0 to |keys|
      invariant Total(counts) == i && zeroes <= counts.Keys
      invariant forall k :: Occurrences(keys[..i], k) == if k in counts then counts[k] else 0
    {
      assert keys[..i + 1][..i] == keys[..i];
      TotalPlusOne(counts, keys[i]);
      counts := Increment(counts, keys[i]);
    }
    assert keys[..|keys|] == keys;
    forall k
      ensures CountOf(counts, k) == |Places(keys, k)|
    {
      OccurrencesAreCounted(keys, k);
    }
  }

  // ----- Aggregating -----

  datatype Row = Row(typeId: string, category: string, impact: string, problem: string, solution: string, resourceId: string)

  datatype Result = Result(subscription: string, rows: seq<Row>, error: string)

  datatype Recommendation = Recommendation(subscription: string, row: Row, subscriptionName: string)

  /** Two rows are one recommendation. */
  predicate Agree(low: string -> string, subscription: string, row: Row, subscription': string, row': Row) {
    && low(subscription) == low(subscription') && low(row.typeId) == low(row'.typeId)
    && low(row.resourceId) == low(row'.resourceId) && low(row.problem) == low(row'.problem)
  }

  /** The tuple that the tool remembers for a row. */
  datatype Identity = Identity(subscription: string, typeId: string, resourceId: string, problem: string)

  function IdentityOf(low: string -> string, subscription: string, row: Row): Identity {
    Identity(low(subscription), low(row.typeId), low(row.resourceId), low(row.problem))
  }

  lemma IdentitiesAgree(low: string -> string, subscription: string, row: Row, subscription': string, row': Row)
    ensures IdentityOf(low, subscription, row) == IdentityOf(low, subscription', row') <==>
            Agree(low, subscription, row, subscription', row')
  {
  }

  /** Row `j` of result `m` is wanted, and its result is no error. */
  predicate Counted(wanted: Row -> bool, results: seq<Result>, m: nat, j: nat) {
    m < |results| && results[m].error == "" && j < |results[m].rows| && wanted(results[m].rows[j])
  }

  /** Row `j` of result `m` comes before row `i` of result `n`. */
  predicate Before(m: nat, j: nat, n: nat, i: nat) {
    m < n || (m == n && j < i)
  }

  ghost predicate IsFirst(low: string -> string, wanted: Row -> bool, results: seq<Result>, m: nat, j: nat) {
    && Counted(wanted, results, m, j)
    && forall m': nat, j': nat | Counted(wanted, results, m', j') && Before(m', j', m, j) ::
         !Agree(low, results[m'].subscription, results[m'].rows[j'], results[m].subscription, results[m].rows[j])
  }

  /** `recs` are the first of their kind among the rows before row `i` of result `n`, in their order; `at`
      says where they stand. */
  ghost predicate MergedUpTo(low: string -> string, wanted: Row -> bool, results: seq<Result>, n: nat, i: nat,
                             recs: seq<Recommendation>, at: seq<(nat, nat)>)
  {
    && |at| == |recs|
    && (forall a, b | 0 <= a < b < |at| :: Before(at[a].0, at[a].1, at[b].0, at[b].1))
    && (forall a | 0 <= a < |at| ::
          && Before(at[a].0, at[a].1, n, i) && IsFirst(low, wanted, results, at[a].0, at[a].1)
          && recs[a].subscription == results[at[a].0].subscription && recs[a].row == results[at[a].0].rows[at[a].1])
    && (forall m: nat, j: nat | IsFirst(low, wanted, results, m, j) && Before(m, j, n, i) :: (m, j) in at)
  }

  ghost predicate IsMerged(low: string -> string, wanted: Row -> bool, results: seq<Result>, recs: seq<Recommendation>) {
    exists at: seq<(nat, nat)> :: MergedUpTo(low, wanted, results, |results|, 0, recs, at)
  }

  /** `seen` holds the identities of all wanted rows before row `i` of result `n`. */
  ghost predicate Seen(low: string -> string, wanted: Row -> bool, results: seq<Result>, n: nat, i: nat, seen: set<Identity>) {
    && (forall m: nat, j: nat | Counted(wanted, results, m, j) && Before(m, j, n, i) ::
          IdentityOf(low, results[m].subscription, results[m].rows[j]) in seen)
    && (forall id <- seen :: exists m: nat, j: nat ::
          Counted(wanted, results, m, j) && Before(m, j, n, i) && IdentityOf(low, results[m].subscription, results[m].rows[j]) == id)
  }

  lemma SeenOneMore(low: string -> string, wanted: Row -> bool, results: seq<Result>, n: nat, i: nat, seen: set<Identity>)
    requires n < |results| && results[n].error == "" && i < |results[n].rows| && Seen(low, wanted, results, n, i, seen)
    ensures var id := IdentityOf(low, results[n].subscription, results[n].rows[i]);
            Seen(low, wanted, results, n, i + 1, if wanted(results[n].rows[i]) then seen + {id} else seen)
  {
    var row := results[n].rows[i];
    var seen' := if wanted(row) then seen + {IdentityOf(low, results[n].subscription, row)} else seen;
    forall id <- seen'
      ensures exists m: nat, j: nat ::
                Counted(wanted, results, m, j) && Before(m, j, n, i + 1) && IdentityOf(low, results[m].subscription, results[m].rows[j]) == id
    {
      if id in seen {
        var m: nat, j: nat :|
          Counted(wanted, results, m, j) && Before(m, j, n, i) && IdentityOf(low, results[m].subscription, results[m].rows[j]) == id;
        assert Before(m, j, n, i + 1);
      } else {
        assert Counted(wanted, results, n, i) && Before(n, i, n, i + 1);
      }
    }
  }

  lemma FirstIff(low: string -> string, wanted: Row -> bool, results: seq<Result>, n: nat, i: nat, seen: set<Identity>)
    requires Counted(wanted, results, n, i) && Seen(low, wanted, results, n, i, seen)
    ensures IsFirst(low, wanted, results, n, i) <==> IdentityOf(low, results[n].subscription, results[n].rows[i]) !in seen
  {
    var subscription, row := results[n].subscription, results[n].rows[i];
    forall m: nat, j: nat | Counted(wanted, results, m, j)
      ensures IdentityOf(low, results[m].subscription, results[m].rows[j]) == IdentityOf(low, subscription, row) <==>
              Agree(low, results[m].subscription, results[m].rows[j], subscription, row)
    {
      IdentitiesAgree(low, results[m].subscription, results[m].rows[j], subscription, row);
    }
  }

  lemma MergedOneMore(low: string -> string, wanted: Row -> bool, results: seq<Result>, n: nat, i: nat,
                      recs: seq<Recommendation>, at: seq<(nat, nat)>, r: Recommendation)
    requires n < |results| && i < |results[n].rows| && MergedUpTo(low, wanted, results, n, i, recs, at)
    ensures !IsFirst(low, wanted, results, n, i) ==> MergedUpTo(low, wanted, results, n, i + 1, recs, at)
    ensures IsFirst(low, wanted, results, n, i) && r.subscription == results[n].subscription && r.row == results[n].rows[i] ==>
              MergedUpTo(low, wanted, results, n, i + 1, recs + [r], at + [(n, i)])
  {
    assert forall x :: x in at + [(n, i)] <==> x in at || x == (n, i);
  }

  lemma NextResult(low: string -> string, wanted: Row -> bool, results: seq<Result>, n: nat, i: nat,
                   recs: seq<Recommendation>, at: seq<(nat, nat)>, seen: set<Identity>)
    requires n < |results| && (results[n].error != "" || i == |results[n].rows|)
    requires MergedUpTo(low, wanted, results, n, i, recs, at) && Seen(low, wanted, results, n, i, seen)
    ensures MergedUpTo(low, wanted, results, n + 1, 0, recs, at) && Seen(low, wanted, results, n + 1, 0, seen)
  {
    forall m: nat, j: nat | Counted(wanted, results, m, j)
      ensures Before(m, j, n + 1, 0) <==> Before(m, j, n, i)
    {
    }
    forall id <- seen
      ensures exists m: nat, j: nat ::
                Counted(wanted, results, m, j) && Before(m, j, n + 1, 0) && IdentityOf(low, results[m].subscription, results[m].rows[j]) == id
    {
      var m: nat, j: nat :|
        Counted(wanted, results, m, j) && Before(m, j, n, i) && IdentityOf(low, results[m].subscription, results[m].rows[j]) == id;
      assert Before(m, j, n + 1, 0);
    }
  }

  function NameFor(names: map<string, string>, low: string -> string, id: string): string {
    if low(id) in names then names[low(id)] else id
  }

  /** Each recommendation bears the name of its subscription, or its id if that has no name. */
  predicate WellNamed(low: string -> string, names: map<string, string>, recs: seq<Recommendation>) {
    forall i | 0 <= i < |recs| ::
      var id := recs[i].subscription;
      && (low(id) in names ==> recs[i].subscriptionName == names[low(id)])
      && (low(id) !in names ==> recs[i].subscriptionName == id)
  }

  /** What the loops keep. */
  ghost predicate Merging(low: string -> string, wanted: Row -> bool, names: map<string, string>, results: seq<Result>,
                          n: nat, i: nat, recs: seq<Recommendation>, seen: set<Identity>, at: seq<(nat, nat)>)
  {
    && MergedUpTo(low, wanted, results, n, i, recs, at) && Seen(low, wanted, results, n, i, seen)
    && WellNamed(low, names, recs)
  }

  lemma MergingOneMore(low: string -> string, wanted: Row -> bool, names: map<string, string>, results: seq<Result>,
                       n: nat, i: nat, recs: seq<Recommendation>, seen: set<Identity>, at: seq<(nat, nat)>, r: Recommendation)
    requires n < |results| && results[n].error == "" && i < |results[n].rows|
    requires Merging(low, wanted, names, results, n, i, recs, seen, at)
    requires r == Recommendation(results[n].subscription, results[n].rows[i], NameFor(names, low, results[n].subscription))
    ensures var (row, id) := (results[n].rows[i], IdentityOf(low, results[n].subscription, results[n].rows[i]));
            if wanted(row) && id !in seen then Merging(low, wanted, names, results, n, i + 1, recs + [r], seen + {id}, at + [(n, i)])
            else Merging(low, wanted, names, results, n, i + 1, recs, seen, at)
  {
    var row, id := results[n].rows[i], IdentityOf(low, results[n].subscription, results[n].rows[i]);
    SeenOneMore(low, wanted, results, n, i, seen);
    MergedOneMore(low, wanted, results, n, i, recs, at, r);
    if wanted(row) {
      FirstIff(low, wanted, results, n, i, seen);
      assert id in seen ==> seen + {id} == seen;
    }
  }

  /** One row: kept if it is wanted and new. */
  method MergeRow(low: string -> string, wanted: Row -> bool, names: map<string, string>, name: string, subscription: string, row: Row,
                  before: seq<Recommendation>, known: set<Identity>,
                  ghost results: seq<Result>, ghost n: nat, ghost i: nat, ghost at: seq<(nat, nat)>)
    returns (recs: seq<Recommendation>, seen: set<Identity>, ghost at': seq<(nat, nat)>)
    requires n < |results| && results[n].error == "" && i < |results[n].rows|
    requires subscription == results[n].subscription && row == results[n].rows[i] && name == NameFor(names, low, subscription)
    requires Merging(low, wanted, names, results, n, i, before, known, at)
    ensures Merging(low, wanted, names, results, n, i + 1, recs, seen, at')
  {
    MergingOneMore(low, wanted, names, results, n, i, before, known, at, Recommendation(subscription, row, name));
    if !wanted(row) {
      return before, known, at;
    }
    var identity := IdentityOf(low, subscription, row);
    if identity in known {
      return before, known, at;
    }
    seen, recs, at' := known + {identity}, before + [Recommendation(subscription, row, name)], at + [(n, i)];
  }

  /** The rows of one subscription. */
  method MergeRows(low: string -> string, wanted: Row -> bool, names: map<string, string>, r: Result,
                   before: seq<Recommendation>, known: set<Identity>,
                   ghost results: seq<Result>, ghost n: nat, ghost at: seq<(nat, nat)>)
    returns (recs: seq<Recommendation>, seen: set<Identity>, ghost at': seq<(nat, nat)>)
    requires n < |results| && results[n] == r && r.error == ""
    requires Merging(low, wanted, names, results, n, 0, before, known, at)
    ensures Merging(low, wanted, names, results, n, |r.rows|, recs, seen, at')
  {
    recs, seen, at' := before, known, at;
    var name := NameFor(names, low, r.subscription);
    for i := 0 to |r.rows|
      invariant Merging(low, wanted, names, results, n, i, recs, seen, at')
    {
      recs, seen, at' := MergeRow(low, wanted, names, name, r.subscription, r.rows[i], recs, seen, results, n, i, at');
    }
  }

  /** The failed subscriptions with their errors, in order. */
  function ErrorsOf(results: seq<Result>): seq<(string, string)> {
    if results == [] then [] else
    var n := |results| - 1;
    if results[n].error != "" then ErrorsOf(results[..n]) + [(results[n].subscription, results[n].error)]
    else ErrorsOf(results[..n])
  }

  function HasFailed(r: Result): bool {
    r.error != ""
  }

  function ErrorOf(r: Result): (string, string) {
    (r.subscription, r.error)
  }

  lemma {:induction false} ErrorsAre(results: seq<Result>)
    ensures Picked(results, HasFailed, ErrorOf, ErrorsOf(results))
  {
    if results == [] {
      PickedNone(HasFailed, ErrorOf);
    } else {
      var n := |results| - 1;
      ErrorsAre(results[..n]);
      PickedOneMore(results[..n], HasFailed, ErrorOf, ErrorsOf(results[..n]), results[n]);
      SplitLast(results);
    }
  }

  lemma SplitLast(results: seq<Result>)
    requires results != []
    ensures results == results[..|results| - 1] + [results[|results| - 1]]
  {
  }

  ghost function Failed(results: seq<Result>): set<int> {
    set n | 0 <= n < |results| && results[n].error != ""
  }

  lemma FailedOneMore(results: seq<Result>)
    requires results != []
    ensures var n := |results| - 1;
            Failed(results) == if results[n].error != "" then Failed(results[..n]) + {n} else Failed(results[..n])
  {
  }

  lemma {:induction false} ErrorsCount(results: seq<Result>)
    ensures |ErrorsOf(results)| == |Failed(results)| <= |results|
    ensures ErrorsOf(results) == [] <==> forall n | 0 <= n < |results| :: results[n].error == ""
  {
    if results == [] {
      assert Failed(results) == {};
    } else {
      ErrorsCount(results[..|results| - 1]);
      FailedOneMore(results);
    }
  }

  /** Filters and de-duplicates the gathered rows. What stays is the first row of each recommendation. */
  method Merge(low: string -> string, wanted: Row -> bool, names: map<string, string>, results: seq<Result>)
    returns (recs: seq<Recommendation>, errors: seq<(string, string)>)
    ensures IsMerged(low, wanted, results, recs) && WellNamed(low, names, recs)
    ensures errors == ErrorsOf(results)
  {
    var seen: set<Identity> := {};
    ghost var at: seq<(nat, nat)> := [];
    recs, errors := [], [];
    for n := 0 to |results|
      invariant Merging(low, wanted, names, results, n, 0, recs, seen, at)
      invariant errors == ErrorsOf(results[..n])
    {
      var r := results[n];
      assert results[..n + 1][..n] == results[..n];
      if r.error != "" {
        errors := errors + [(r.subscription, r.error)];
        NextResult(low, wanted, results, n, 0, recs, at, seen);
      } else {
        recs, seen, at := MergeRows(low, wanted, names, r, recs, seen, results, n, at);
        NextResult(low, wanted, results, n, |r.rows|, recs, at, seen);
      }
    }
    assert results[..|results|] == results;
  }

  // ----- What merging means, row by row -----

  lemma {:induction false} FirstOfItsKind(low: string -> string, wanted: Row -> bool, results: seq<Result>, m: nat, j: nat)
    returns (n: nat, i: nat)
    requires Counted(wanted, results, m, j)
    ensures IsFirst(low, wanted, results, n, i)
    ensures Agree(low, results[n].subscription, results[n].rows[i], results[m].subscription, results[m].rows[j])
    decreases m, j
  {
    if IsFirst(low, wanted, results, m, j) {
      n, i := m, j;
    } else {
      var m': nat, j': nat :| Counted(wanted, results, m', j') && Before(m', j', m, j) &&
        Agree(low, results[m'].subscription, results[m'].rows[j'], results[m].subscription, results[m].rows[j]);
      n, i := FirstOfItsKind(low, wanted, results, m', j');
    }
  }

  /** Every wanted row of a subscription that did not fail has a recommendation that agrees with it in
      subscription, type, resource and problem, up to case. */
  lemma MergedLosesNothing(low: string -> string, wanted: Row -> bool, results: seq<Result>, recs: seq<Recommendation>, m: nat, j: nat)
    returns (r: Recommendation)
    requires IsMerged(low, wanted, results, recs)
    requires m < |results| && results[m].error == "" && j < |results[m].rows| && wanted(results[m].rows[j])
    ensures r in recs
    ensures low(r.subscription) == low(results[m].subscription) && low(r.row.typeId) == low(results[m].rows[j].typeId)
    ensures low(r.row.resourceId) == low(results[m].rows[j].resourceId) && low(r.row.problem) == low(results[m].rows[j].problem)
  {
    var at: seq<(nat, nat)> :| MergedUpTo(low, wanted, results, |results|, 0, recs, at);
    var n, i := FirstOfItsKind(low, wanted, results, m, j);
    assert Before(n, i, |results|, 0);
    var a :| 0 <= a < |at| && at[a] == (n, i);
    r := recs[a];
  }

  /** No two recommendations agree in all four. */
  lemma MergedRepeatsNothing(low: string -> string, wanted: Row -> bool, results: seq<Result>, recs: seq<Recommendation>, a: nat, b: nat)
    requires IsMerged(low, wanted, results, recs) && a < b < |recs|
    ensures || low(recs[a].subscription) != low(recs[b].subscription) || low(recs[a].row.typeId) != low(recs[b].row.typeId)
            || low(recs[a].row.resourceId) != low(recs[b].row.resourceId) || low(recs[a].row.problem) != low(recs[b].row.problem)
  {
    var at: seq<(nat, nat)> :| MergedUpTo(low, wanted, results, |results|, 0, recs, at);
    assert IsFirst(low, wanted, results, at[a].0, at[a].1) && IsFirst(low, wanted, results, at[b].0, at[b].1);
    assert Before(at[a].0, at[a].1, at[b].0, at[b].1);
  }

  /** Every recommendation is one of those rows, of that subscription. */
  lemma MergedAddsNothing(low: string -> string, wanted: Row -> bool, results: seq<Result>, recs: seq<Recommendation>, a: nat)
    returns (m: nat, j: nat)
    requires IsMerged(low, wanted, results, recs) && a < |recs|
    ensures m < |results| && results[m].error == "" && j < |results[m].rows| && wanted(results[m].rows[j])
    ensures recs[a].subscription == results[m].subscription && recs[a].row == results[m].rows[j]
  {
    var at: seq<(nat, nat)> :| MergedUpTo(low, wanted, results, |results|, 0, recs, at);
    m, j := at[a].0, at[a].1;
    assert IsFirst(low, wanted, results, m, j);
  }

  datatype Answer = Answer(
    total: nat, returned: nat, truncated: bool, byCategory: map<string, nat>, byImpact: map<string, nat>,
    bySubscription: map<string, nat>, queried: nat, succeeded: int, failed: nat, omitted: nat, complete: bool)

  function Clamp(top: int): nat {
    if top < 1 then 1 else if top > 100 then 100 else top
  }

  /** The three tables count the recommendations by category, impact and subscription name. */
  ghost predicate Counts(recs: seq<Recommendation>, byCategory: map<string, nat>, byImpact: map<string, nat>, bySubscription: map<string, nat>) {
    && (forall k :: CountOf(byCategory, k) == |set i | 0 <= i < |recs| && recs[i].row.category == k|)
    && (forall k :: CountOf(byImpact, k) == |set i | 0 <= i < |recs| && recs[i].row.impact == k|)
    && (forall k :: CountOf(bySubscription, k) == |set i | 0 <= i < |recs| && recs[i].subscriptionName == k|)
    && Total(byCategory) == Total(byImpact) == Total(bySubscription) == |recs|
  }

  function Categories(recs: seq<Recommendation>): seq<string> {
    seq(|recs|, i requires 0 <= i < |recs| => recs[i].row.category)
  }

  function Impacts(recs: seq<Recommendation>): seq<string> {
    seq(|recs|, i requires 0 <= i < |recs| => recs[i].row.impact)
  }

  function SubscriptionNames(recs: seq<Recommendation>): seq<string> {
    seq(|recs|, i requires 0 <= i < |recs| => recs[i].subscriptionName)
  }

  method CountTables(recs: seq<Recommendation>, subscriptions: set<string>)
    returns (byCategory: map<string, nat>, byImpact: map<string, nat>, bySubscription: map<string, nat>)
    ensures Counts(recs, byCategory, byImpact, bySubscription)
    ensures subscriptions <= bySubscription.Keys
  {
    byCategory := Tally({}, Categories(recs));
    byImpact := Tally({}, Impacts(recs));
    bySubscription := Tally(subscriptions, SubscriptionNames(recs));
    PlacesAre(recs);
  }

  lemma PlacesAre(recs: seq<Recommendation>)
    ensures forall k :: Places(Categories(recs), k) == set i | 0 <= i < |recs| && recs[i].row.category == k
    ensures forall k :: Places(Impacts(recs), k) == set i | 0 <= i < |recs| && recs[i].row.impact == k
    ensures forall k :: Places(SubscriptionNames(recs), k) == set i | 0 <= i < |recs| && recs[i].subscriptionName == k
  {
  }

  /** The counts of the answer: each of the three tables counts the distinct recommendations, none left out,
      and every queried subscription either succeeded or failed. */
  method Summarise(low: string -> string, wanted: Row -> bool, names: map<string, string>, results: seq<Result>,
                   omitted: nat, top: int)
    returns (answer: Answer, ghost recs: seq<Recommendation>)
    ensures IsMerged(low, wanted, results, recs) && WellNamed(low, names, recs) && answer.total == |recs|
    ensures Counts(recs, answer.byCategory, answer.byImpact, answer.bySubscription)
    ensures forall i | 0 <= i < |results| ::
              var id := results[i].subscription; (if low(id) in names then names[low(id)] else id) in answer.bySubscription
    ensures answer.queried == |results| && answer.succeeded + answer.failed == answer.queried
    ensures answer.failed == |set n | 0 <= n < |results| && results[n].error != ""| && answer.omitted == omitted
    ensures answer.complete <==> omitted == 0 && forall i | 0 <= i < |results| :: results[i].error == ""
    ensures answer.returned <= answer.total && answer.returned <= 100 && (answer.truncated <==> answer.returned < answer.total)
    ensures 1 <= top <= 100 ==> answer.returned == if top < answer.total then top else answer.total
    ensures answer.total > 0 ==> answer.returned > 0
  {
    var found, errors := Merge(low, wanted, names, results);
    var subscriptions := set i | 0 <= i < |results| :: NameFor(names, low, results[i].subscription);
    var byCategory, byImpact, bySubscription := CountTables(found, subscriptions);
    ErrorsCount(results);
    var limit := Clamp(top);
    answer := Answer(|found|, if limit < |found| then limit else |found|, |found| > limit, byCategory, byImpact, bySubscription,
                     |results|, |results| - |errors|, |errors|, omitted, errors == [] && omitted == 0);
    recs := found;
  }
}
