/** Small vocabulary shared by the other modules. */
module Collections {

  datatype Option<+T> = None | Some(value: T)

  newtype byte = x: int | 0 <= x < 256

  ghost function Any<T>(s: set<T>): (x: T)
    requires s != {}
    ensures x in s
  {
    assert |s| > 0;
    var x :| x in s; x
  }

  function Concat(chunks: seq<string>): string {
    if chunks == [] then "" else Concat(chunks[..|chunks| - 1]) + chunks[|chunks| - 1]
  }

  /** `ys` are the images under `f` of those of the `xs` that `keep` accepts, in their order; `at` says where
      they stand. */
  ghost predicate PickedAt<T, U>(xs: seq<T>, keep: T -> bool, f: T -> U, ys: seq<U>, at: seq<nat>) {
    && |at| == |ys|
    && (forall a, b | 0 <= a < b < |at| :: at[a] < at[b])
    && (forall a | 0 <= a < |at| :: at[a] < |xs| && keep(xs[at[a]]) && ys[a] == f(xs[at[a]]))
    && (forall k | 0 <= k < |xs| && keep(xs[k]) :: k in at)
  }

  ghost predicate Picked<T(!new), U(!new)>(xs: seq<T>, keep: T -> bool, f: T -> U, ys: seq<U>) {
    exists at: seq<nat> :: PickedAt(xs, keep, f, ys, at)
  }

  lemma PickedNone<T(!new), U(!new)>(keep: T -> bool, f: T -> U)
    ensures Picked([], keep, f, [])
  {
    assert PickedAt([], keep, f, [], []);
  }

  lemma PickedAnother<T(!new), U(!new)>(xs: seq<T>, keep: T -> bool, f: T -> U, ys: seq<U>, x: T, at: seq<nat>)
    requires PickedAt(xs, keep, f, ys, at) && keep(x)
    ensures PickedAt(xs + [x], keep, f, ys + [f(x)], at + [|xs|])
  {
    assert forall k: nat :: k in at + [|xs|] <==> k in at || k == |xs|;
  }

  lemma PickedOneMore<T(!new), U(!new)>(xs: seq<T>, keep: T -> bool, f: T -> U, ys: seq<U>, x: T)
    requires Picked(xs, keep, f, ys)
    ensures keep(x) ==> Picked(xs + [x], keep, f, ys + [f(x)])
    ensures !keep(x) ==> Picked(xs + [x], keep, f, ys)
  {
    var at: seq<nat> :| PickedAt(xs, keep, f, ys, at);
    if keep(x) {
      PickedAnother(xs, keep, f, ys, x, at);
    } else {
      assert PickedAt(xs + [x], keep, f, ys, at);
    }
  }
}
