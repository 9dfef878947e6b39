/** The Advisor tool from the pool to the payload: what the answer counts is what the subscriptions hold,
    whatever the schedule of faults and of tasks. */
module AdvisorAnswer {
  import opened Collections
  import opened AdvisorFetch
  import opened AdvisorPool
  import opened AdvisorQuery

  type Content = string -> Option<Payload<Row>>

  function Url(id: string): string {
    "https://management.azure.com/subscriptions/" + id
    + "/providers/Microsoft.Advisor/recommendations?api-version=2023-01-01"
  }

  /** Every subscription is asked at an address of its own. */
  lemma UrlsDiffer(a: string, b: string)
    requires Url(a) == Url(b)
    ensures a == b
  {
    var front := "https://management.azure.com/subscriptions/";
    assert Url(a)[|front|..|front| + |a|] == a && Url(b)[|front|..|front| + |b|] == b;
  }

  /** `errors(i)` is the schedule of error texts that subscription `i` meets; Azure's own test on a text
      decides whether a call is repeated. */
  function TargetsOf(ids: seq<string>, content: Content, errors: nat -> nat -> string): seq<Target<Row>> {
    seq(|ids|, i requires 0 <= i < |ids| => Target(Azure(content, errors(i)), Url(ids[i])))
  }

  predicate AllDone(tasks: seq<Task<Row>>) {
    forall i | 0 <= i < |tasks| :: tasks[i].Done?
  }

  /** What `gather` returns. */
  function Results(ids: seq<string>, tasks: seq<Task<Row>>): seq<Result>
    requires |ids| == |tasks| && AllDone(tasks)
  {
    seq(|ids|, i requires 0 <= i < |ids| => Result(ids[i], tasks[i].outcome.rows, tasks[i].outcome.error))
  }

  /** What a fault-free sequential run returns. */
  function Held(ids: seq<string>, content: Content): seq<Result> {
    seq(|ids|, i requires 0 <= i < |ids| =>
      var outcome := Gathered(content, Url(ids[i]), MAX_PAGES, []); Result(ids[i], outcome.rows, outcome.error))
  }

  /** Subscription `i` has a page that does not get through. */
  ghost predicate Unlucky(ids: seq<string>, content: Content, errors: nat -> nat -> string, i: nat)
    requires i < |ids|
  {
    Broken(Azure(content, errors(i)), Url(ids[i]), MAX_PAGES, [], 0)
  }

  /** Each result is what the subscription holds, or an error without rows exactly where a page does not get
      through. */
  lemma ResultIsHeld(ids: seq<string>, content: Content, errors: nat -> nat -> string, steps: seq<Step>, q: Pool<Row>, i: nat)
    requires var targets := TargetsOf(ids, content, errors); Leads(targets, Initial(targets), steps, q)
    requires |q.tasks| == |ids| && AllDone(q.tasks) && i < |ids|
    ensures if Unlucky(ids, content, errors, i) then Results(ids, q.tasks)[i].error != "" && Results(ids, q.tasks)[i].rows == []
            else Results(ids, q.tasks)[i] == Held(ids, content)[i]
  {
    var targets := TargetsOf(ids, content, errors);
    assert targets[i] == Target(Azure(content, errors(i)), Url(ids[i]));
    EachResultIsFaultFree(targets, steps, q, i);
  }

  lemma ResultsAreHeld(ids: seq<string>, content: Content, errors: nat -> nat -> string, steps: seq<Step>, q: Pool<Row>)
    requires var targets := TargetsOf(ids, content, errors); Leads(targets, Initial(targets), steps, q)
    requires |q.tasks| == |ids| && AllDone(q.tasks)
    requires forall i | 0 <= i < |ids| :: !Unlucky(ids, content, errors, i)
    ensures Results(ids, q.tasks) == Held(ids, content)
  {
    forall i | 0 <= i < |ids|
      ensures Results(ids, q.tasks)[i] == Held(ids, content)[i]
    {
      ResultIsHeld(ids, content, errors, steps, q, i);
    }
  }

  /** The answer to a query. Unless some page does not get through, it depends on what the subscriptions hold
      and not on the schedule: the distinct wanted recommendations among the first 500 rows of the first five
      pages of each. */
  method Answer(low: string -> string, wanted: Row -> bool, names: map<string, string>, ids: seq<string>, content: Content,
                ghost errors: nat -> nat -> string, ghost steps: seq<Step>, q: Pool<Row>, omitted: nat, top: int)
    returns (answer: AdvisorQuery.Answer, ghost recs: seq<Recommendation>)
    requires var targets := TargetsOf(ids, content, errors); Leads(targets, Initial(targets), steps, q)
    requires |q.tasks| == |ids| && AllDone(q.tasks)
    ensures answer.queried == |ids| && answer.succeeded + answer.failed == answer.queried && answer.omitted == omitted
    ensures Counts(recs, answer.byCategory, answer.byImpact, answer.bySubscription) && answer.total == |recs|
    ensures (forall i | 0 <= i < |ids| :: !Unlucky(ids, content, errors, i)) ==>
              && IsMerged(low, wanted, Held(ids, content), recs)
              && answer.failed == |set n | 0 <= n < |ids| && Held(ids, content)[n].error != ""|
    ensures answer.complete ==> omitted == 0 && forall i | 0 <= i < |ids| :: !Unlucky(ids, content, errors, i)
  {
    var results := Results(ids, q.tasks);
    answer, recs := Summarise(low, wanted, names, results, omitted, top);
    forall i | 0 <= i < |ids|
      ensures Unlucky(ids, content, errors, i) ==> results[i].error != ""
    {
      ResultIsHeld(ids, content, errors, steps, q, i);
    }
    if forall i | 0 <= i < |ids| :: !Unlucky(ids, content, errors, i) {
      ResultsAreHeld(ids, content, errors, steps, q);
      assert |results| == |ids|;
    }
  }
}
