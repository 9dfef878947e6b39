/** Keys of imported alerts: a key that is taken gets a numeric suffix, and every candidate is cut to 64
    characters. The cut is what decides whether the search for a free suffix ends. */
module CatalogKeys {
  import opened Collections
  import opened Numerals

  const KEY_LENGTH := 64

  function Cut(s: string): string {
    if |s| <= KEY_LENGTH then s else s[..KEY_LENGTH]
  }

  /** The key tried with suffix `n`. */
  function Candidate(base: string, n: nat): string {
    Cut(base + "_" + Decimal(n))
  }

  /** A candidate is the base, an underscore and the number, cut to 64 characters. */
  lemma CandidateIs(base: string, n: nat)
    ensures Candidate(base, n) <= base + ['_'] + Decimal(n)
    ensures |Candidate(base, n)| == if |base| + 1 + |Decimal(n)| < 64 then |base| + 1 + |Decimal(n)| else 64
  {
  }

  lemma TheFirstCandidate()
    ensures Candidate("cpu", 2) == "cpu_2"
  {
    assert Decimal(2) == "2" && "cpu" + "_" + "2" == "cpu_2";
  }

  /** Some suffix from 2 on gives a key not in use. */
  ghost predicate SomeFree(base: string, used: set<string>) {
    exists n: nat :: n >= 2 && Candidate(base, n) !in used
  }

  // ----- When the search ends -----

  /** The last suffix that can bring a new candidate: beyond it the cut only repeats earlier ones. */
  function LastUseful(base: string): nat {
    if |base| + 1 >= KEY_LENGTH then 2 else Pow10(KEY_LENGTH - 1 - |base|)
  }

  lemma CutDropsTheLastDigit(base: string, n: nat)
    requires n >= 10 && |base| + 1 + |Decimal(n / 10)| >= KEY_LENGTH
    ensures Candidate(base, n) == Candidate(base, n / 10)
  {
    var shorter := base + "_" + Decimal(n / 10);
    assert base + "_" + Decimal(n) == shorter + [Digit(n % 10)];
    assert (shorter + [Digit(n % 10)])[..KEY_LENGTH] == shorter[..KEY_LENGTH];
    assert |shorter| == KEY_LENGTH ==> shorter[..KEY_LENGTH] == shorter;
  }

  /** Every candidate already appears among those with a suffix up to `LastUseful`. */
  lemma {:induction false} CandidatesRepeat(base: string, n: nat) returns (k: nat)
    requires n >= 2 && |base| <= KEY_LENGTH
    ensures 2 <= k <= LastUseful(base) && Candidate(base, k) == Candidate(base, n)
  {
    var room := KEY_LENGTH - 1 - |base|;
    if room <= 0 {
      k := 2;
      assert (base + "_")[..KEY_LENGTH] == (base + "_" + Decimal(n))[..KEY_LENGTH] == (base + "_" + Decimal(2))[..KEY_LENGTH];
    } else if n <= LastUseful(base) {
      k := n;
    } else {
      PowersGrow(1, room);
      DecimalLength(n / 10, room);
      if |Decimal(n / 10)| < room {
        if room > 1 { DecimalLength(n / 10, room - 1); }
        DecimalLength(n, room);
        assert false;
      }
      CutDropsTheLastDigit(base, n);
      if n / 10 >= 2 {
        k := CandidatesRepeat(base, n / 10);
      } else {
        CutDropsTheLastDigit(base, 10);
        k := 10;
      }
    }
  }

  /** The search for a suffix ends if and only if a free key is found among finitely many candidates: the
      suffixes up to the last useful one. */
  lemma SearchEndsIff(base: string, used: set<string>)
    requires |base| <= KEY_LENGTH
    ensures SomeFree(base, used) <==> exists n: nat :: 2 <= n <= LastUseful(base) && Candidate(base, n) !in used
  {
    if n: nat :| n >= 2 && Candidate(base, n) !in used {
      var k := CandidatesRepeat(base, n);
      assert Candidate(base, k) !in used;
    }
  }

  /** A taken key of the full length never gets a successor. */
  lemma FullLengthNeverEnds(base: string, used: set<string>)
    requires |base| == KEY_LENGTH && base in used
    ensures !SomeFree(base, used)
  {
    forall n: nat
      ensures Candidate(base, n) == base
    {
      assert (base + "_" + Decimal(n))[..KEY_LENGTH] == base;
    }
  }

  // ----- Pigeonhole -----

  /** The suffix written after the base fits without a cut. */
  predicate Fits(base: string, n: nat) {
    |base| + 1 + |Decimal(n)| <= KEY_LENGTH
  }

  lemma FittingCandidatesDiffer(base: string, m: nat, n: nat)
    requires Fits(base, m) && Fits(base, n) && Candidate(base, m) == Candidate(base, n)
    ensures m == n
  {
    assert (base + "_" + Decimal(m))[|base| + 1..] == Decimal(m);
    assert (base + "_" + Decimal(n))[|base| + 1..] == Decimal(n);
    ReadingBack(m);
    ReadingBack(n);
  }

  lemma {:induction false} SmallerFits(base: string, m: nat, n: nat)
    requires m <= n && Fits(base, n)
    ensures Fits(base, m)
  {
    var e := |Decimal(n)|;
    DecimalLength(n, e);
    DecimalLength(m, e);
  }

  ghost function Candidates(base: string, hi: nat): set<string> {
    set n: nat | 2 <= n <= hi :: Candidate(base, n)
  }

  lemma {:induction false} AsManyCandidates(base: string, hi: nat)
    requires hi >= 1 && Fits(base, hi)
    ensures |Candidates(base, hi)| == hi - 1
  {
    if hi == 1 {
      assert Candidates(base, 1) == {};
    } else {
      SmallerFits(base, hi - 1, hi);
      AsManyCandidates(base, hi - 1);
      var before, last := Candidates(base, hi - 1), Candidate(base, hi);
      forall n: nat | 2 <= n <= hi - 1
        ensures Candidate(base, n) != last
      {
        SmallerFits(base, n, hi);
        if Candidate(base, n) == last { FittingCandidatesDiffer(base, n, hi); }
      }
      assert Candidates(base, hi) == before + {last};
      assert last !in before;
    }
  }

  lemma {:induction false} SubsetIsNoLarger<T>(a: set<T>, b: set<T>)
    requires a <= b
    ensures |a| <= |b|
    decreases a
  {
    if a != {} {
      var x := Any(a);
      SubsetIsNoLarger(a - {x}, b - {x});
    }
  }

  /** With room for the suffix, a taken key finds a successor within as many tries as there are keys in
      use: one of the suffixes 2 up to `|used| + 1` is free. */
  lemma OneOfThemIsFree(base: string, used: set<string>)
    requires base in used && Fits(base, |used| + 1)
    ensures exists n: nat :: 2 <= n <= |used| + 1 && Candidate(base, n) !in used
  {
    var all := Candidates(base, |used| + 1);
    AsManyCandidates(base, |used| + 1);
    if forall n: nat | 2 <= n <= |used| + 1 :: Candidate(base, n) in used {
      forall n: nat | 2 <= n <= |used| + 1
        ensures Candidate(base, n) != base
      {
        SmallerFits(base, n, |used| + 1);
      }
      assert all <= used - {base};
      SubsetIsNoLarger(all, used - {base});
      assert false;
    }
  }

  // ----- The importer's loop -----

  /** The key an alert ends up with: its own if free, else the first free candidate. */
  ghost predicate IsKeyFor(key: string, base: string, used: set<string>) {
    && key !in used
    && (base !in used ==> key == base)
    && (base in used ==> exists n: nat ::
          n >= 2 && key == Candidate(base, n) && forall m: nat | 2 <= m < n :: Candidate(base, m) in used)
  }

  /** The key is free, or one of finitely many candidates is. */
  ghost predicate HasKey(base: string, used: set<string>) {
    base !in used || exists n: nat :: 2 <= n <= LastUseful(base) && Candidate(base, n) !in used
  }

  lemma {:induction false} FirstFree(base: string, used: set<string>, from: nat, n: nat) returns (first: nat)
    requires from <= n && Candidate(base, n) !in used
    ensures from <= first <= n && Candidate(base, first) !in used && forall m: nat | from <= m < first :: Candidate(base, m) in used
    decreases n - from
  {
    if Candidate(base, from) !in used {
      first := from;
    } else {
      first := FirstFree(base, used, from + 1, n);
    }
  }

  /** An alert gets a key exactly if its base or one of those candidates is free, and it gets one only. */
  lemma KeyExistsIff(base: string, used: set<string>)
    requires |base| <= KEY_LENGTH
    ensures (exists key :: IsKeyFor(key, base, used)) <==> HasKey(base, used)
    ensures forall k1, k2 | IsKeyFor(k1, base, used) && IsKeyFor(k2, base, used) :: k1 == k2
  {
    if base !in used {
      assert IsKeyFor(base, base, used);
    } else {
      SearchEndsIff(base, used);
      if n: nat :| n >= 2 && Candidate(base, n) !in used {
        var first := FirstFree(base, used, 2, n);
        assert IsKeyFor(Candidate(base, first), base, used);
      }
    }
  }

  method FreeKey(base: string, used: set<string>) returns (key: string)
    requires |base| <= KEY_LENGTH && HasKey(base, used)
    ensures IsKeyFor(key, base, used)
  {
    key := base;
    var suffix := 2;
    ghost var stop: nat := 2;
    if base in used {
      stop :| 2 <= stop <= LastUseful(base) && Candidate(base, stop) !in used;
    }
    while key in used
      invariant 2 <= suffix
      invariant base in used ==> suffix <= stop + 1
      invariant suffix == 2 ==> key == base
      invariant suffix > 2 ==> base in used && key == Candidate(base, suffix - 1)
      invariant base in used ==> forall m: nat | 2 <= m < suffix - 1 :: Candidate(base, m) in used
      decreases stop + 2 - suffix
    {
      key := Candidate(base, suffix);
      suffix := suffix + 1;
    }
    if base in used {
      assert suffix > 2;
    }
  }

  ghost function Used(keys: seq<string>): set<string> {
    set k <- keys
  }

  /** Keys are distinct, short enough, and each is the key for its base given those before it. */
  ghost predicate Assigned(bases: seq<string>, keys: seq<string>) {
    && |keys| <= |bases|
    && (forall i, j | 0 <= i < j < |keys| :: keys[i] != keys[j])
    && (forall i | 0 <= i < |keys| :: KeyAt(bases, keys, i))
  }

  ghost predicate KeyAt(bases: seq<string>, keys: seq<string>, i: nat)
    requires i < |keys| <= |bases|
  {
    |keys[i]| <= KEY_LENGTH && IsKeyFor(keys[i], bases[i], Used(keys[..i]))
  }

  lemma KeysStay(bases: seq<string>, keys: seq<string>, key: string, i: nat)
    requires i < |keys| < |bases| && KeyAt(bases, keys, i)
    ensures KeyAt(bases, keys + [key], i)
  {
    assert (keys + [key])[..i] == keys[..i];
  }

  lemma OneMoreKey(bases: seq<string>, keys: seq<string>, key: string)
    requires Assigned(bases, keys) && |keys| < |bases| && |bases[|keys|]| <= KEY_LENGTH
    requires IsKeyFor(key, bases[|keys|], Used(keys))
    ensures Assigned(bases, keys + [key]) && Used(keys + [key]) == Used(keys) + {key}
  {
    var all := keys + [key];
    assert forall k :: k in all <==> k in keys || k == key;
    assert all[..|keys|] == keys;
    KeyLength(key, bases[|keys|], Used(keys));
    assert KeyAt(bases, all, |keys|);
    forall i | 0 <= i < |keys|
      ensures KeyAt(bases, all, i)
    {
      KeysStay(bases, keys, key, i);
    }
    forall i | 0 <= i < |keys|
      ensures keys[i] != key
    {
      assert keys[i] in Used(keys);
    }
  }

  lemma KeyLength(key: string, base: string, used: set<string>)
    requires IsKeyFor(key, base, used) && |base| <= KEY_LENGTH
    ensures |key| <= KEY_LENGTH
  {
    if base in used {
      var n: nat :| n >= 2 && key == Candidate(base, n);
    }
  }

  // ----- All alerts of a type -----

  /** The keys of the alerts in order, as long as each alert finds one; None when the search for one does not
      end. */
  ghost function KeysOf(bases: seq<string>): (r: Option<seq<string>>)
    ensures r.Some? ==> |r.value| == |bases|
  {
    if bases == [] then Some([]) else
    var before, base := KeysOf(bases[..|bases| - 1]), bases[|bases| - 1];
    if before.None? || !exists key :: IsKeyFor(key, base, Used(before.value)) then None else
    var key :| IsKeyFor(key, base, Used(before.value));
    Some(before.value + [key])
  }

  predicate Short(bases: seq<string>) {
    forall i | 0 <= i < |bases| :: |bases[i]| <= KEY_LENGTH
  }

  /** The run over all alerts gets past one more of them exactly if that one has a key. */
  lemma RunEndsIff(bases: seq<string>)
    requires Short(bases) && bases != []
    ensures var before, base := KeysOf(bases[..|bases| - 1]), bases[|bases| - 1];
            KeysOf(bases).Some? <==> before.Some? && HasKey(base, Used(before.value))
  {
    var before, base := KeysOf(bases[..|bases| - 1]), bases[|bases| - 1];
    if before.Some? {
      KeyExistsIff(base, Used(before.value));
    }
  }

  lemma {:induction false} KeysAreAssigned(bases: seq<string>)
    requires Short(bases) && KeysOf(bases).Some?
    ensures Assigned(bases, KeysOf(bases).value)
  {
    if bases != [] {
      var n := |bases| - 1;
      KeysAreAssigned(bases[..n]);
      var keys := KeysOf(bases[..n]).value;
      WiderBases(bases[..n], bases, keys);
      OneMoreKey(bases, keys, KeysOf(bases).value[n]);
    }
  }

  lemma WiderBases(few: seq<string>, bases: seq<string>, keys: seq<string>)
    requires few <= bases && Assigned(few, keys)
    ensures Assigned(bases, keys)
  {
    forall i | 0 <= i < |keys|
      ensures KeyAt(bases, keys, i)
    {
      assert KeyAt(few, keys, i);
    }
  }

  lemma {:induction false} PrefixEnds(bases: seq<string>, n: nat)
    requires n <= |bases| && KeysOf(bases).Some?
    ensures KeysOf(bases[..n]).Some?
    decreases |bases|
  {
    if n == |bases| {
      assert bases[..n] == bases;
    } else {
      PrefixEnds(bases[..|bases| - 1], n);
      assert bases[..|bases| - 1][..n] == bases[..n];
    }
  }

  /** With room for the suffix in every base the run always ends. */
  lemma {:induction false} RoomIsEnough(bases: seq<string>, most: nat)
    requires |bases| <= most && forall i | 0 <= i < |bases| :: Fits(bases[i], most)
    ensures KeysOf(bases).Some?
    decreases |bases|
  {
    if bases != [] {
      var n := |bases| - 1;
      RoomIsEnough(bases[..n], most);
      KeysAreAssigned(bases[..n]);
      var used := Used(KeysOf(bases[..n]).value);
      AsManyAsKeys(KeysOf(bases[..n]).value);
      if bases[n] in used {
        SmallerFits(bases[n], |used| + 1, most);
        OneOfThemIsFree(bases[n], used);
        SearchEndsIff(bases[n], used);
      }
      RunEndsIff(bases);
    }
  }

  lemma {:induction false} AsManyAsKeys(keys: seq<string>)
    ensures |Used(keys)| <= |keys|
  {
    if keys != [] {
      var n := |keys| - 1;
      AsManyAsKeys(keys[..n]);
      assert keys == keys[..n] + [keys[n]];
      assert Used(keys) == Used(keys[..n]) + {keys[n]};
    }
  }

  /** One alert: its key is found and joins those in use. */
  method NextKey(bases: seq<string>, i: nat, ghost keys: seq<string>, used: set<string>) returns (key: string)
    requires Short(bases) && i < |bases| && KeysOf(bases).Some?
    requires KeysOf(bases[..i]) == Some(keys) && used == Used(keys)
    ensures KeysOf(bases[..i + 1]) == Some(keys + [key]) && Used(keys + [key]) == used + {key}
  {
    PrefixEnds(bases, i + 1);
    assert bases[..i + 1][..i] == bases[..i];
    RunEndsIff(bases[..i + 1]);
    KeyExistsIff(bases[i], used);
    key := FreeKey(bases[i], used);
    assert forall k :: k in keys + [key] <==> k in keys || k == key;
  }

  /** The keys of one resource type, whenever the run ends. */
  method AssignKeys(bases: seq<string>) returns (keys: seq<string>)
    requires Short(bases) && KeysOf(bases).Some?
    ensures KeysOf(bases) == Some(keys)
    ensures |keys| == |bases| && Assigned(bases, keys)
  {
    KeysAreAssigned(bases);
    var used: set<string> := {};
    keys := [];
    for i := 0 to |bases|
      invariant KeysOf(bases[..i]) == Some(keys) && used == Used(keys)
    {
      var key := NextKey(bases, i, keys, used);
      used := used + {key};
      keys := keys + [key];
    }
    assert bases[..|bases|] == bases;
  }
}
