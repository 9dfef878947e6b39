/** The fan-out over subscriptions: one task each, a semaphore with four permits, and results gathered in
    the order of the targets. A step is one admission, one call to the service, or one release. */
module AdvisorPool {
  import opened AdvisorFetch

  datatype Target<!R> = Target(service: Service<R>, url: string)

  datatype Task<R> = Queued | Running(fetch: Fetch<R>) | Done(outcome: Outcome<R>)

  datatype Pool<R> = Pool(tasks: seq<Task<R>>, permits: nat)

  datatype Step = Admit(task: nat) | Work(task: nat) | Leave(task: nat)

  function Initial<R>(targets: seq<Target<R>>): Pool<R> {
    Pool(seq(|targets|, _ => Queued), CONCURRENCY)
  }

  predicate Enabled<R>(p: Pool<R>, s: Step) {
    s.task < |p.tasks| &&
    var t := p.tasks[s.task];
    match s
    case Admit(_) => t.Queued? && p.permits > 0
    case Work(_) => t.Running? && t.fetch.Fetching?
    case Leave(_) => t.Running? && t.fetch.Finished?
  }

  function After<R>(targets: seq<Target<R>>, p: Pool<R>, s: Step): Pool<R>
    requires Enabled(p, s) && |targets| == |p.tasks|
  {
    var i := s.task;
    match s
    case Admit(_) => Pool(p.tasks[i := Running(Start(targets[i].url))], p.permits - 1)
    case Work(_) => Pool(p.tasks[i := Running(Call(targets[i].service, p.tasks[i].fetch))], p.permits)
    case Leave(_) => Pool(p.tasks[i := Done(p.tasks[i].fetch.outcome)], p.permits + 1)
  }

  ghost predicate Leads<R(!new)>(targets: seq<Target<R>>, p: Pool<R>, steps: seq<Step>, q: Pool<R>)
    requires |targets| == |p.tasks|
    decreases |steps|
  {
    if steps == [] then p == q
    else Enabled(p, steps[0]) && Leads(targets, After(targets, p, steps[0]), steps[1..], q)
  }

  function InFlight<R>(tasks: seq<Task<R>>): nat {
    if tasks == [] then 0 else (if tasks[0].Running? then 1 else 0) + InFlight(tasks[1..])
  }

  lemma {:induction false} InFlightAfter<R>(tasks: seq<Task<R>>, i: nat, t: Task<R>)
    requires i < |tasks|
    ensures InFlight(tasks[i := t]) ==
            InFlight(tasks) + (if t.Running? then 1 else 0) - (if tasks[i].Running? then 1 else 0)
  {
    if i > 0 {
      InFlightAfter(tasks[1..], i - 1, t);
      assert tasks[i := t][1..] == tasks[1..][i - 1 := t];
    } else {
      assert tasks[i := t][1..] == tasks[1..];
    }
  }

  /** What the fetch of a target comes to when nothing else runs. */
  function Alone<R>(t: Target<R>): Outcome<R> {
    Complete(t.service, Start(t.url)).outcome
  }

  ghost predicate OnTrack<R>(target: Target<R>, t: Task<R>) {
    && (t.Running? ==> Valid(t.fetch) && Complete(target.service, t.fetch).outcome == Alone(target))
    && (t.Done? ==> t.outcome == Alone(target))
  }

  ghost predicate Inv<R>(targets: seq<Target<R>>, p: Pool<R>) {
    && |targets| == |p.tasks|
    && p.permits + InFlight(p.tasks) == CONCURRENCY
    && forall i | 0 <= i < |targets| :: OnTrack(targets[i], p.tasks[i])
  }

  lemma StepKeepsInv<R>(targets: seq<Target<R>>, p: Pool<R>, s: Step)
    requires Inv(targets, p) && Enabled(p, s)
    ensures Inv(targets, After(targets, p, s))
  {
    var i := s.task;
    var q := After(targets, p, s);
    InFlightAfter(p.tasks, i, q.tasks[i]);
    assert OnTrack(targets[i], p.tasks[i]);
    if s.Work? {
      CallKeepsValid(targets[i].service, p.tasks[i].fetch);
    }
  }

  lemma {:induction false} InitialInv<R>(targets: seq<Target<R>>)
    ensures Inv(targets, Initial(targets))
  {
    NoneInFlight(Initial(targets).tasks);
  }

  lemma {:induction false} NoneInFlight<R>(tasks: seq<Task<R>>)
    requires forall i | 0 <= i < |tasks| :: !tasks[i].Running?
    ensures InFlight(tasks) == 0
  {
    if tasks != [] {
      NoneInFlight(tasks[1..]);
    }
  }

  lemma {:induction false} RunKeepsInv<R(!new)>(targets: seq<Target<R>>, p: Pool<R>, steps: seq<Step>, q: Pool<R>)
    requires Inv(targets, p) && Leads(targets, p, steps, q)
    ensures Inv(targets, q)
    decreases |steps|
  {
    if steps != [] {
      StepKeepsInv(targets, p, steps[0]);
      RunKeepsInv(targets, After(targets, p, steps[0]), steps[1..], q);
    }
  }

  /** For every interleaving and completion order: never more than four fetches are in flight, and each
      task that is done holds, at its target's place, what that fetch comes to alone. */
  lemma AnyOrderIsAsGoodAsOneByOne<R(!new)>(targets: seq<Target<R>>, steps: seq<Step>, q: Pool<R>)
    requires Leads(targets, Initial(targets), steps, q)
    ensures InFlight(q.tasks) <= CONCURRENCY && |q.tasks| == |targets|
    ensures forall i | 0 <= i < |targets| && q.tasks[i].Done? :: q.tasks[i].outcome == Alone(targets[i])
  {
    InitialInv(targets);
    RunKeepsInv(targets, Initial(targets), steps, q);
    assert forall i | 0 <= i < |targets| :: OnTrack(targets[i], q.tasks[i]);
  }

  /** The gathered answer, whatever the schedule of faults and of tasks: a target whose pages all get
      through holds the first 500 rows of its first five pages, or the mark of an unreadable page; a target
      with a page that does not get through holds an error and no rows. */
  lemma EachResultIsFaultFree<R(!new)>(targets: seq<Target<R>>, steps: seq<Step>, q: Pool<R>, i: nat)
    requires Leads(targets, Initial(targets), steps, q) && i < |targets| && |q.tasks| == |targets| && q.tasks[i].Done?
    ensures var Target(s, url) := targets[i];
            var outcome, held := q.tasks[i].outcome, Gathered(s.content, url, MAX_PAGES, []);
            if Broken(s, url, MAX_PAGES, [], 0) then outcome.error != "" && outcome.rows == []
            else outcome == held && (held.error == "" ==> held.rows == First(PagesOf(s.content, url, MAX_PAGES)))
  {
    AnyOrderIsAsGoodAsOneByOne(targets, steps, q);
    var Target(s, url) := targets[i];
    FaultsDoNotMatter(s, url);
    if Gathered(s.content, url, MAX_PAGES, []).error == "" {
      GatheredIsThePrefix(s.content, url, MAX_PAGES, []);
      assert [] + PagesOf(s.content, url, MAX_PAGES) == PagesOf(s.content, url, MAX_PAGES);
    }
  }

  // ----- The fan-out ends -----

  function Left<R>(t: Task<R>): nat
    requires t.Running? ==> Valid(t.fetch)
  {
    match t
    case Queued => MAX_ATTEMPTS * MAX_PAGES + 2
    case Running(f) => Budget(f) + 1
    case Done(_) => 0
  }

  predicate TasksValid<R>(tasks: seq<Task<R>>) {
    forall i | 0 <= i < |tasks| :: tasks[i].Running? ==> Valid(tasks[i].fetch)
  }

  function Remaining<R>(tasks: seq<Task<R>>): nat
    requires TasksValid(tasks)
  {
    if tasks == [] then 0 else Left(tasks[0]) + Remaining(tasks[1..])
  }

  lemma {:induction false} RemainingAfter<R>(tasks: seq<Task<R>>, i: nat, t: Task<R>)
    requires i < |tasks| && TasksValid(tasks)
    requires t.Running? ==> Valid(t.fetch)
    ensures TasksValid(tasks[i := t])
    ensures Remaining(tasks[i := t]) == Remaining(tasks) + Left(t) - Left(tasks[i])
  {
    if i > 0 {
      RemainingAfter(tasks[1..], i - 1, t);
      assert tasks[i := t][1..] == tasks[1..][i - 1 := t];
    } else {
      assert tasks[i := t][1..] == tasks[1..];
    }
  }

  lemma AllValid<R>(targets: seq<Target<R>>, p: Pool<R>)
    requires Inv(targets, p)
    ensures TasksValid(p.tasks)
  {
    assert forall i | 0 <= i < |targets| :: OnTrack(targets[i], p.tasks[i]);
  }

  lemma {:induction false} StepsAreBounded<R(!new)>(targets: seq<Target<R>>, p: Pool<R>, steps: seq<Step>, q: Pool<R>)
    requires Inv(targets, p) && Leads(targets, p, steps, q)
    ensures (AllValid(targets, p); |steps| <= Remaining(p.tasks))
    decreases |steps|
  {
    AllValid(targets, p);
    if steps != [] {
      var s := steps[0];
      var p' := After(targets, p, s);
      StepKeepsInv(targets, p, s);
      AllValid(targets, p');
      RemainingAfter(p.tasks, s.task, p'.tasks[s.task]);
      StepsAreBounded(targets, p', steps[1..], q);
    }
  }

  lemma {:induction false} RemainingOfQueued<R>(tasks: seq<Task<R>>)
    requires forall i | 0 <= i < |tasks| :: tasks[i] == Queued
    ensures Remaining(tasks) == 22 * |tasks|
  {
    if tasks != [] {
      RemainingOfQueued(tasks[1..]);
    }
  }

  lemma SomeStepIsPossible<R>(targets: seq<Target<R>>, q: Pool<R>)
    requires Inv(targets, q)
    ensures (forall i | 0 <= i < |q.tasks| :: q.tasks[i].Done?) || exists s :: Enabled(q, s)
  {
    if i :| 0 <= i < |q.tasks| && q.tasks[i].Running? {
      assert Enabled(q, if q.tasks[i].fetch.Fetching? then Work(i) else Leave(i));
    } else {
      NoneInFlight(q.tasks);
      if i :| 0 <= i < |q.tasks| && !q.tasks[i].Done? {
        assert Enabled(q, Admit(i));
      }
    }
  }

  lemma RunsAreShort<R(!new)>(targets: seq<Target<R>>, steps: seq<Step>, q: Pool<R>)
    requires Leads(targets, Initial(targets), steps, q)
    ensures |steps| <= 22 * |targets|
  {
    InitialInv(targets);
    StepsAreBounded(targets, Initial(targets), steps, q);
    RemainingOfQueued(Initial(targets).tasks);
  }

  /** Every schedule ends: at most 22 steps per subscription, and until all are done some step is
      possible. */
  lemma EveryScheduleEnds<R(!new)>(targets: seq<Target<R>>, steps: seq<Step>, q: Pool<R>)
    requires Leads(targets, Initial(targets), steps, q)
    ensures |steps| <= 22 * |targets|
    ensures (forall i | 0 <= i < |q.tasks| :: q.tasks[i].Done?) || exists s :: Enabled(q, s)
  {
    RunsAreShort(targets, steps, q);
    InitialInv(targets);
    RunKeepsInv(targets, Initial(targets), steps, q);
    SomeStepIsPossible(targets, q);
  }
}
