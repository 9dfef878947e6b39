/** Whole runs of sign-ins. A completion reads the pending pair, waits while its code is exchanged, and
    clears whatever pair is pending then; other completions, new sign-ins and sign-outs may come in
    between. */
module SignInRuns {
  import opened Collections
  import opened TokenStore

  /** A code exchange under way: the pair it uses, and whether the pending pair has been replaced or cleared
      since it started. */
  datatype Exchange = Exchange(pair: Pending, overlapped: bool)

  /** `spent` holds the pairs that a sign-in has succeeded with. */
  datatype Flow = Flow(pending: Option<Pending>, exchanging: map<nat, Exchange>, spent: set<Pending>)

  datatype Event =
    | Begin(pair: Pending, writeOk: bool)
    | StartExchange(id: nat, callback: Callback, readOk: bool)
    | EndExchange(id: nat, granted: bool, deleteOk: bool)
    | Forget(deleteOk: bool)

  function Overlap(exchanging: map<nat, Exchange>): map<nat, Exchange> {
    map id | id in exchanging :: exchanging[id].(overlapped := true)
  }

  function After(f: Flow, e: Event): Flow {
    match e
    case Begin(pair, writeOk) =>
      if writeOk then Flow(Some(pair), Overlap(f.exchanging), f.spent) else f
    case StartExchange(id, callback, readOk) =>
      if id !in f.exchanging && readOk && Exchanges(f.pending, callback)
      then f.(exchanging := f.exchanging[id := Exchange(f.pending.value, false)]) else f
    case EndExchange(id, granted, deleteOk) =>
      if id !in f.exchanging then f else
      var rest := f.exchanging - {id};
      if !granted then f.(exchanging := rest) else
      var spent := f.spent + {f.exchanging[id].pair};
      if deleteOk then Flow(None, Overlap(rest), spent) else Flow(f.pending, rest, spent)
    case Forget(deleteOk) => if deleteOk then Flow(None, Overlap(f.exchanging), f.spent) else f
  }

  /** The event completes a sign-in. */
  predicate Succeeds(f: Flow, e: Event) {
    e.EndExchange? && e.id in f.exchanging && e.granted
  }

  // ----- Each pair is used once, and cleared by its own sign-in -----

  /** A new pair is unlike any that is known: its verifier is random. */
  predicate Fresh(f: Flow, e: Event) {
    e.Begin? ==>
      && f.pending != Some(e.pair) && e.pair !in f.spent
      && forall id <- f.exchanging :: f.exchanging[id].pair != e.pair
  }

  predicate DeletesWork(f: Flow, e: Event) {
    Succeeds(f, e) ==> e.deleteOk
  }

  /** An exchange is overlapped exactly when the pair it uses is not the pending one any more. */
  ghost predicate Inv(f: Flow) {
    && (forall id <- f.exchanging :: !f.exchanging[id].overlapped <==> f.pending == Some(f.exchanging[id].pair))
    && (f.pending.Some? ==> f.pending.value !in f.spent)
  }

  lemma StepKeepsInv(f: Flow, e: Event)
    requires Inv(f) && Fresh(f, e) && DeletesWork(f, e)
    ensures Inv(After(f, e))
  {
  }

  ghost predicate AllFresh(f: Flow, events: seq<Event>)
    decreases |events|
  {
    events != [] ==> Fresh(f, events[0]) && AllFresh(After(f, events[0]), events[1..])
  }

  ghost predicate AllDelete(f: Flow, events: seq<Event>)
    decreases |events|
  {
    events != [] ==> DeletesWork(f, events[0]) && AllDelete(After(f, events[0]), events[1..])
  }

  /** A sign-in that succeeds does so with a pair not used before, and clears that pair and no other. */
  predicate Proper(f: Flow, e: Event) {
    Succeeds(f, e) ==>
      var pair := f.exchanging[e.id].pair;
      pair !in f.spent && f.pending == Some(pair) && After(f, e).pending == None
  }

  ghost predicate AllProper(f: Flow, events: seq<Event>)
    decreases |events|
  {
    events != [] ==> Proper(f, events[0]) && AllProper(After(f, events[0]), events[1..])
  }

  /** No exchange that succeeds was overlapped by a new sign-in, a sign-out or another success. */
  predicate Apart(f: Flow, e: Event) {
    Succeeds(f, e) ==> !f.exchanging[e.id].overlapped
  }

  ghost predicate AllApart(f: Flow, events: seq<Event>)
    decreases |events|
  {
    events != [] ==> Apart(f, events[0]) && AllApart(After(f, events[0]), events[1..])
  }

  /** Over any run with fresh pairs: every sign-in that succeeds uses a pair of its own and clears that pair
      alone, if and only if no exchange that succeeds was overlapped and none fails to delete its pair. */
  lemma {:induction false} SignInsAreProperIff(f: Flow, events: seq<Event>)
    requires Inv(f) && AllFresh(f, events)
    ensures AllProper(f, events) <==> AllApart(f, events) && AllDelete(f, events)
    decreases |events|
  {
    if events != [] && DeletesWork(f, events[0]) {
      StepKeepsInv(f, events[0]);
      SignInsAreProperIff(After(f, events[0]), events[1..]);
    }
  }

  // ----- Counting -----

  function AfterAll(f: Flow, events: seq<Event>): Flow
    decreases |events|
  {
    if events == [] then f else AfterAll(After(f, events[0]), events[1..])
  }

  function Count(f: Flow, events: seq<Event>, counts: (Flow, Event) -> bool): nat
    decreases |events|
  {
    if events == [] then 0
    else (if counts(f, events[0]) then 1 else 0) + Count(After(f, events[0]), events[1..], counts)
  }

  predicate Begins(f: Flow, e: Event) {
    e.Begin?
  }

  /** A success that cannot delete the pair it has used. */
  predicate LeavesPair(f: Flow, e: Event) {
    Succeeds(f, e) && !e.deleteOk
  }

  predicate SucceedsOverlapped(f: Flow, e: Event) {
    !Apart(f, e)
  }

  function Waiting(f: Flow): nat {
    if f.pending.Some? then 1 else 0
  }

  ghost predicate PendingUnlessOverlapped(f: Flow) {
    forall id <- f.exchanging :: !f.exchanging[id].overlapped ==> f.pending == Some(f.exchanging[id].pair)
  }

  /** Over every run, whatever fails: no more sign-ins succeed than were begun, one pending at the start
      included, but for successes that were overlapped and pairs that could not be deleted. */
  lemma {:induction false} SuccessesAreBegun(f: Flow, events: seq<Event>)
    requires PendingUnlessOverlapped(f)
    ensures Count(f, events, Succeeds) + Waiting(AfterAll(f, events)) <=
            Waiting(f) + Count(f, events, Begins) + Count(f, events, LeavesPair) + Count(f, events, SucceedsOverlapped)
    decreases |events|
  {
    if events != [] {
      SuccessesAreBegun(After(f, events[0]), events[1..]);
    }
  }

  lemma {:induction false} NothingToExcept(f: Flow, events: seq<Event>)
    ensures AllApart(f, events) <==> Count(f, events, SucceedsOverlapped) == 0
    ensures AllDelete(f, events) <==> Count(f, events, LeavesPair) == 0
    decreases |events|
  {
    if events != [] {
      NothingToExcept(After(f, events[0]), events[1..]);
    }
  }

  /** So runs in which every sign-in is proper have no more successes than sign-ins begun. */
  lemma ProperSuccessesAreBegun(f: Flow, events: seq<Event>)
    requires Inv(f) && AllFresh(f, events) && AllProper(f, events)
    ensures Count(f, events, Succeeds) + Waiting(AfterAll(f, events)) <= Waiting(f) + Count(f, events, Begins)
  {
    SignInsAreProperIff(f, events);
    NothingToExcept(f, events);
    SuccessesAreBegun(f, events);
  }

  // ----- What an overlap does -----

  const P := Pending("verifier", "state")
  const Q := Pending("another verifier", "another state")

  lemma First(f: Flow, e: Event, rest: seq<Event>)
    ensures var f', events := After(f, e), [e] + rest;
            && AfterAll(f, events) == AfterAll(f', rest)
            && (AllFresh(f, events) <==> Fresh(f, e) && AllFresh(f', rest))
            && (AllDelete(f, events) <==> DeletesWork(f, e) && AllDelete(f', rest))
            && (AllProper(f, events) <==> Proper(f, e) && AllProper(f', rest))
  {
    assert ([e] + rest)[1..] == rest;
  }

  lemma FirstCounts(f: Flow, e: Event, rest: seq<Event>, counts: (Flow, Event) -> bool)
    ensures Count(f, [e] + rest, counts) == (if counts(f, e) then 1 else 0) + Count(After(f, e), rest, counts)
  {
    assert ([e] + rest)[1..] == rest;
  }

  lemma CountsFive(f: Flow, e0: Event, e1: Event, e2: Event, e3: Event, e4: Event, counts: (Flow, Event) -> bool)
    ensures var f1 := After(f, e0);
            var f2 := After(f1, e1);
            var f3 := After(f2, e2);
            var f4 := After(f3, e3);
            Count(f, [e0, e1, e2, e3, e4], counts) ==
            (if counts(f, e0) then 1 else 0) + (if counts(f1, e1) then 1 else 0) + (if counts(f2, e2) then 1 else 0)
            + (if counts(f3, e3) then 1 else 0) + (if counts(f4, e4) then 1 else 0)
  {
    var f1 := After(f, e0);
    var f2 := After(f1, e1);
    var f3 := After(f2, e2);
    var f4 := After(f3, e3);
    FirstCounts(f4, e4, [], counts);
    FirstCounts(f3, e3, [e4] + [], counts);
    FirstCounts(f2, e2, [e3] + ([e4] + []), counts);
    FirstCounts(f1, e1, [e2] + ([e3] + ([e4] + [])), counts);
    FirstCounts(f, e0, [e1] + ([e2] + ([e3] + ([e4] + []))), counts);
    assert [e0, e1, e2, e3, e4] == [e0] + ([e1] + ([e2] + ([e3] + ([e4] + []))));
  }

  /** A concrete run: two completions read one pair, and both succeed. */
  lemma TwoCompletionsSpendOnePair(f: Flow, events: seq<Event>)
    requires f == Flow(None, map[], {})
    requires var callback := Callback("code", "state");
             events == [Begin(P, true), StartExchange(0, callback, true), StartExchange(1, callback, true),
                        EndExchange(0, true, true), EndExchange(1, true, true)]
    ensures AllFresh(f, events) && AllDelete(f, events) && !AllProper(f, events)
    ensures Count(f, events, Succeeds) == 2 && Count(f, events, Begins) == 1 && Count(f, events, LeavesPair) == 0
  {
    var e0, e1, e2, e3, e4 := events[0], events[1], events[2], events[3], events[4];
    var f1 := After(f, e0);
    var f2 := After(f1, e1);
    var f3 := After(f2, e2);
    var f4 := After(f3, e3);
    assert f4 == Flow(None, map[1 := Exchange(P, true)], {P});
    First(f4, e4, []);
    First(f3, e3, [e4] + []);
    First(f2, e2, [e3] + ([e4] + []));
    First(f1, e1, [e2] + ([e3] + ([e4] + [])));
    First(f, e0, [e1] + ([e2] + ([e3] + ([e4] + []))));
    assert events == [e0] + ([e1] + ([e2] + ([e3] + ([e4] + []))));
    assert !Proper(f4, e4);
    CountsFive(f, e0, e1, e2, e3, e4, Succeeds);
    CountsFive(f, e0, e1, e2, e3, e4, Begins);
    CountsFive(f, e0, e1, e2, e3, e4, LeavesPair);
    assert events == [e0, e1, e2, e3, e4];
  }

  /** A concrete run: a sign-in begun during an exchange has its pair cleared by it, and cannot complete. */
  lemma NewSignInIsCleared(f: Flow, events: seq<Event>)
    requires f == Flow(None, map[], {})
    requires events == [Begin(P, true), StartExchange(0, Callback("code", "state"), true), Begin(Q, true),
                        EndExchange(0, true, true)]
    ensures AllFresh(f, events) && AllDelete(f, events) && !AllProper(f, events)
    ensures AfterAll(f, events).pending == None && Q !in AfterAll(f, events).spent
  {
    var e0, e1, e2, e3 := events[0], events[1], events[2], events[3];
    var f1 := After(f, e0);
    var f2 := After(f1, e1);
    var f3 := After(f2, e2);
    assert f3 == Flow(Some(Q), map[0 := Exchange(P, true)], {});
    First(f3, e3, []);
    First(f2, e2, [e3] + []);
    First(f1, e1, [e2] + ([e3] + []));
    First(f, e0, [e1] + ([e2] + ([e3] + [])));
    assert events == [e0] + ([e1] + ([e2] + ([e3] + [])));
    assert P != Q && !Proper(f3, e3);
  }
}
