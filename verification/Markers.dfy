/** The text markers that announce a tool call written as prose, and the finder that looks for them
    in lower-cased text. */
module Markers {

  const OPEN_CALLS := "<function_calls>"
  const OPEN_CALL := "<function_call>"
  const INVOKE := "<invoke name="
  const INVOKE_SPACED := "<invoke name ="

  const MARKERS: seq<string> := [OPEN_CALLS, OPEN_CALL, INVOKE, INVOKE_SPACED]

  /** Length of the longest marker, minus one. */
  const HOLDBACK: nat := 15

  const DOTTED_CAPITAL_I: char := '\U{0130}'
  const COMBINING_DOT: char := '\U{0307}'
  const KELVIN_SIGN: char := '\U{212A}'

  // ----- Lower-casing -----

  /** Lower-casing of one character. Only the characters whose lower case contains an ASCII letter
      change: no marker can tell the other letters apart. U+0130 is the one character that grows. */
  function LowerChar(c: char): string {
    if 'A' <= c <= 'Z' then [(c as int + 32) as char]
    else if c == DOTTED_CAPITAL_I then ['i', COMBINING_DOT]
    else if c == KELVIN_SIGN then ['k']
    else [c]
  }

  function Lower(s: string): string {
    if s == "" then "" else LowerChar(s[0]) + Lower(s[1..])
  }

  /** ASCII capitals become small letters, U+0130 becomes i and U+0307, the Kelvin sign becomes k, and no other
      character changes. */
  lemma LowerCharIs(c: char)
    ensures 'A' <= c <= 'Z' ==> |LowerChar(c)| == 1 && LowerChar(c)[0] as int == c as int + 32
    ensures c == '\U{0130}' ==> LowerChar(c) == "i\U{0307}"
    ensures c == '\U{212A}' ==> LowerChar(c) == "k"
    ensures !('A' <= c <= 'Z') && c != '\U{0130}' && c != '\U{212A}' ==> LowerChar(c) == [c]
  {
  }

  /** How many characters of `s` grow when lower-cased. */
  function Dotted(s: string): nat {
    if s == "" then 0 else (if s[0] == DOTTED_CAPITAL_I then 1 else 0) + Dotted(s[1..])
  }

  lemma {:induction false} LowerAppend(s: string, t: string)
    ensures Lower(s + t) == Lower(s) + Lower(t)
  {
    if s == "" {
      assert s + t == t;
    } else {
      assert (s + t)[1..] == s[1..] + t;
      LowerAppend(s[1..], t);
    }
  }

  /** Lower-casing adds one character per U+0130, and none otherwise. */
  lemma {:induction false} LowerLength(s: string)
    ensures |Lower(s)| == |s| + Dotted(s)
    ensures Dotted(s) == 0 <==> DOTTED_CAPITAL_I !in s
  {
    if s != "" {
      LowerLength(s[1..]);
      assert s == [s[0]] + s[1..];
    }
  }

  // ----- Markers as they stand in a text -----

  /** Marker `m` stands at position `p` of `text`, letters of either case. */
  predicate StandsAt(m: string, text: string, p: nat) {
    p + |m| <= |text| && Lower(text[p..p + |m|]) == m
  }

  predicate MarkerAt(text: string, p: nat) {
    exists m <- MARKERS :: StandsAt(m, text, p)
  }

  /** Markers are found in letters of either case, and are these four. */
  lemma MarkersAre(m: string)
    ensures m in MARKERS <==> m == "<function_calls>" || m == "<function_call>" || m == "<invoke name=" || m == "<invoke name ="
  {
    assert MARKERS[0] == "<function_calls>" && MARKERS[1] == "<function_call>";
    assert MARKERS[2] == "<invoke name=" && MARKERS[3] == "<invoke name =";
  }

  lemma {:induction false} AnyCase(s: string, t: string)
    requires |s| == |t|
    requires forall i | 0 <= i < |s| :: s[i] == t[i] || ('A' <= t[i] <= 'Z' && s[i] as int == t[i] as int + 32)
    requires forall i | 0 <= i < |s| :: LowerChar(s[i]) == [s[i]]
    ensures Lower(t) == s
  {
    if s != "" {
      AnyCase(s[1..], t[1..]);
    }
  }

  function FirstMarkerFrom(text: string, from: nat): (p: int)
    requires from <= |text|
    ensures -1 <= p < |text|
    decreases |text| - from
  {
    if from == |text| then -1
    else if MarkerAt(text, from) then from
    else FirstMarkerFrom(text, from + 1)
  }

  /** The position of the first marker of `text`, or -1. */
  function FirstMarker(text: string): (p: int)
    ensures -1 <= p < |text|
  {
    FirstMarkerFrom(text, 0)
  }

  lemma {:induction false} FirstMarkerFromIsFirst(text: string, from: nat)
    requires from <= |text|
    ensures var p := FirstMarkerFrom(text, from);
            && (p != -1 ==> from <= p && MarkerAt(text, p))
            && forall q: nat | from <= q && (p == -1 || q < p) :: !MarkerAt(text, q)
    decreases |text| - from
  {
    if from == |text| {
      HoldbackIsLongestLessOne();
    } else if !MarkerAt(text, from) {
      FirstMarkerFromIsFirst(text, from + 1);
    }
  }

  lemma FirstMarkerIsFirst(text: string)
    ensures FirstMarker(text) != -1 ==> MarkerAt(text, FirstMarker(text))
    ensures forall q: nat | FirstMarker(text) == -1 || q < FirstMarker(text) :: !MarkerAt(text, q)
  {
    FirstMarkerFromIsFirst(text, 0);
  }

  lemma HoldbackIsLongestLessOne()
    ensures forall m <- MARKERS :: 13 <= |m| <= HOLDBACK + 1
    ensures exists m <- MARKERS :: |m| == HOLDBACK + 1
  {
    assert OPEN_CALLS in MARKERS && |OPEN_CALLS| == HOLDBACK + 1;
  }

  /** Facts about the four literals that everything below rests on: `<` opens each of them and stands
      nowhere else in any, and lower-casing a U+0130 can never yield a part of one. */
  predicate Shaped(m: string) {
    && 13 <= |m| <= HOLDBACK + 1
    && m[0] == '<' && '<' !in m[1..]
    && COMBINING_DOT !in m && m[|m| - 1] != 'i'
  }

  lemma LongMarkersAreShaped()
    ensures Shaped(OPEN_CALLS) && Shaped(OPEN_CALL)
  {
  }

  lemma InvokeMarkersAreShaped()
    ensures Shaped(INVOKE) && Shaped(INVOKE_SPACED)
  {
  }

  lemma MarkerShape(m: string)
    requires m in MARKERS
    ensures Shaped(m)
  {
    LongMarkersAreShaped();
    InvokeMarkersAreShaped();
  }

  // ----- The finder -----

  predicate OccursAt(m: string, lowered: string, i: int) {
    0 <= i && i + |m| <= |lowered| && lowered[i..i + |m|] == m
  }

  /** `str.find`: the first place where `m` occurs at or after `from`, or -1. */
  function IndexFrom(lowered: string, m: string, from: nat): (i: int)
    requires from <= |lowered|
    ensures -1 <= i
    ensures i != -1 ==> from <= i && OccursAt(m, lowered, i)
    ensures forall j | from <= j && (i == -1 || j < i) :: !OccursAt(m, lowered, j)
    decreases |lowered| - from
  {
    if OccursAt(m, lowered, from) then from
    else if from == |lowered| then -1
    else IndexFrom(lowered, m, from + 1)
  }

  /** A character of the lower-cased text that is `<` comes from a `<` of the text itself. */
  lemma {:induction false} OpeningIsAligned(text: string, i: nat) returns (p: nat)
    requires i < |Lower(text)| && Lower(text)[i] == '<'
    ensures p < |text| && i == |Lower(text[..p])| && Lower(text)[i..] == Lower(text[p..])
  {
    var head := LowerChar(text[0]);
    if i < |head| {
      p := 0;
      assert text[..0] == "" && text[0..] == text;
    } else {
      var q := OpeningIsAligned(text[1..], i - |head|);
      p := q + 1;
      assert text[..p] == [text[0]] + text[1..][..q];
      LowerAppend([text[0]], text[1..][..q]);
      assert Lower([text[0]]) == head;
      assert text[p..] == text[1..][q..];
      assert Lower(text)[i..] == Lower(text[1..])[i - |head|..];
    }
  }

  predicate Clean(m: string) {
    COMBINING_DOT !in m && (m != "" ==> m[|m| - 1] != 'i')
  }

  /** A clean string that opens a lower-cased text was spelled with as many characters of the text. */
  lemma {:induction false} SpelledOut(m: string, text: string)
    requires Clean(m) && m <= Lower(text)
    ensures |m| <= |text| && Lower(text[..|m|]) == m
  {
    if m != "" {
      var head := LowerChar(text[0]);
      assert Lower(text) == head + Lower(text[1..]);
      assert m[0] == Lower(text)[0];
      assert |m| > 1 ==> m[1] == Lower(text)[1];
      if text[0] == DOTTED_CAPITAL_I {
        assert false;
      }
      assert |head| == 1;
      assert m[1..] <= Lower(text[1..]);
      SpelledOut(m[1..], text[1..]);
      assert text[..|m|] == [text[0]] + text[1..][..|m| - 1];
      assert Lower(text[..|m|]) == head + Lower(text[1..][..|m| - 1]);
    }
  }

  /** Where the finder's index for one literal lies: the true position, moved right by one for every
      U+0130 in front of it. */
  lemma OccurrenceIsShifted(m: string, text: string, i: nat) returns (p: nat)
    requires Shaped(m) && OccursAt(m, Lower(text), i)
    ensures StandsAt(m, text, p) && i == p + Dotted(text[..p])
  {
    OccurrenceOpens(m, Lower(text), i);
    p := OpeningIsAligned(text, i);
    LowerLength(text[..p]);
    assert m <= Lower(text[p..]);
    SpelledOutAt(m, text, p);
  }

  lemma SpelledOutAt(m: string, text: string, p: nat)
    requires p <= |text| && Clean(m) && m <= Lower(text[p..])
    ensures StandsAt(m, text, p)
  {
    SpelledOut(m, text[p..]);
    assert text[p..][..|m|] == text[p..p + |m|];
  }

  lemma OccurrenceOpens(m: string, lowered: string, i: nat)
    requires Shaped(m) && OccursAt(m, lowered, i)
    ensures i < |lowered| && lowered[i] == '<' && m <= lowered[i..]
  {
    assert lowered[i] == lowered[i..i + |m|][0];
    assert lowered[i..][..|m|] == lowered[i..i + |m|];
  }

  lemma StandingOccurs(m: string, text: string, p: nat)
    requires StandsAt(m, text, p)
    ensures OccursAt(m, Lower(text), p + Dotted(text[..p]))
  {
    var before, spelled, rest := text[..p], text[p..p + |m|], text[p + |m|..];
    assert text == before + spelled + rest;
    LowerAppend(before + spelled, rest);
    LowerAppend(before, spelled);
    LowerLength(before);
    Between(Lower(before), m, Lower(rest));
  }

  lemma Between(before: string, m: string, rest: string)
    ensures OccursAt(m, before + m + rest, |before|)
  {
  }

  lemma {:induction false} DottedAppend(s: string, t: string)
    ensures Dotted(s + t) == Dotted(s) + Dotted(t)
  {
    if s == "" {
      assert s + t == t;
    } else {
      assert (s + t)[1..] == s[1..] + t;
      DottedAppend(s[1..], t);
    }
  }

  lemma DottedMonotone(text: string, p: nat, q: nat)
    requires p <= q <= |text|
    ensures Dotted(text[..p]) <= Dotted(text[..q])
  {
    assert text[..q] == text[..p] + text[p..q];
    DottedAppend(text[..p], text[p..q]);
  }

  /** The index reported for `text` when its first marker stands at `p`. */
  function Reported(text: string, p: int): int
    requires -1 <= p <= |text|
  {
    if p == -1 then -1 else p + Dotted(text[..p])
  }

  /** The finder keeps the smallest index over the literals. What it returns is the position of the
      first marker, moved right by the number of U+0130 in front of that marker. */
  method FindFunctionCallMarker(text: string) returns (best: int)
    ensures best == Reported(text, FirstMarker(text))
  {
    var lowered := Lower(text);
    best := -1;
    for k := 0 to |MARKERS|
      invariant -1 <= best
      invariant best != -1 ==> exists m <- MARKERS[..k] :: OccursAt(m, lowered, best)
      invariant forall m, j | m in MARKERS[..k] && 0 <= j && (best == -1 || j < best) :: !OccursAt(m, lowered, j)
    {
      var i := IndexFrom(lowered, MARKERS[k], 0);
      assert MARKERS[..k + 1] == MARKERS[..k] + [MARKERS[k]];
      if i != -1 && (best == -1 || i < best) {
        assert MARKERS[k] in MARKERS[..k + 1];
        best := i;
      }
    }
    assert MARKERS[..|MARKERS|] == MARKERS;
    LeastOccurrence(text, best);
  }

  lemma LeastOccurrence(text: string, best: int)
    requires -1 <= best
    requires best != -1 ==> exists m <- MARKERS :: OccursAt(m, Lower(text), best)
    requires forall m, j | m in MARKERS && 0 <= j && (best == -1 || j < best) :: !OccursAt(m, Lower(text), j)
    ensures best == Reported(text, FirstMarker(text))
  {
    var p := FirstMarker(text);
    FirstMarkerIsFirst(text);
    if p != -1 {
      var m :| m in MARKERS && StandsAt(m, text, p);
      StandingOccurs(m, text, p);
    }
    if best != -1 {
      var m :| m in MARKERS && OccursAt(m, Lower(text), best);
      MarkerShape(m);
      var q := OccurrenceIsShifted(m, text, best);
      assert MarkerAt(text, q);
      assert p != -1 && p <= q;
      DottedMonotone(text, p, q);
    }
  }

  // ----- What more text can and cannot change -----

  lemma StandsInPrefix(m: string, text: string, more: string, p: nat)
    requires p + |m| <= |text|
    ensures StandsAt(m, text, p) <==> StandsAt(m, text + more, p)
  {
    assert text[p..p + |m|] == (text + more)[p..p + |m|];
  }

  /** A marker in place shows one `<`, in front. */
  lemma OpensWithBracket(m: string, text: string, p: nat)
    requires Shaped(m) && StandsAt(m, text, p)
    ensures p < |text| && text[p] == '<'
    ensures forall k | p < k < p + |m| :: text[k] != '<'
  {
    SpelledByLetters(m, text, p);
    forall k | p < k < p + |m|
      ensures text[k] != '<'
    {
      assert m[1..][k - p - 1] == m[k - p];
    }
  }

  lemma SpelledByLetters(m: string, text: string, p: nat)
    requires StandsAt(m, text, p)
    ensures forall k | p <= k < p + |m| :: m[k - p] == LowerChar(text[k])[0]
  {
    var spelled := text[p..p + |m|];
    SameLengthLower(spelled);
    forall k | p <= k < p + |m|
      ensures m[k - p] == LowerChar(text[k])[0]
    {
      assert spelled[k - p] == text[k];
    }
  }

  lemma {:induction false} SameLengthLower(s: string)
    requires |Lower(s)| == |s|
    ensures forall k | 0 <= k < |s| :: Lower(s)[k] == LowerChar(s[k])[0]
  {
    if s != "" {
      LowerLength(s);
      LowerLength(s[1..]);
      SameLengthLower(s[1..]);
    }
  }

  lemma NoLiteralOpensAnother(m: string, m': string)
    requires m in MARKERS && m' in MARKERS && m <= m'
    ensures m == m'
  {
    assert m[1] == m'[1];
    assert OPEN_CALLS[1] == OPEN_CALL[1] == 'f' && INVOKE[1] == INVOKE_SPACED[1] == 'i';
    assert OPEN_CALLS[14] == 's' && OPEN_CALL[14] == '>' && INVOKE[12] == '=' && INVOKE_SPACED[12] == ' ';
    assert |m| > 12 && m[12] == m'[12];
    assert |m| > 14 ==> m[14] == m'[14];
  }

  lemma OneLiteral(text: string, p: nat, m: string, m': string)
    requires m in MARKERS && m' in MARKERS && StandsAt(m, text, p) && StandsAt(m', text, p) && |m| <= |m'|
    ensures m == m'
  {
    assert text[p..p + |m'|] == text[p..p + |m|] + text[p + |m|..p + |m'|];
    LowerAppend(text[p..p + |m|], text[p + |m|..p + |m'|]);
    NoLiteralOpensAnother(m, m');
  }

  /** The literal that stands at `p`. */
  ghost function LiteralAt(text: string, p: nat): (m: string)
    requires MarkerAt(text, p)
    ensures m in MARKERS && StandsAt(m, text, p)
  {
    var m :| m in MARKERS && StandsAt(m, text, p); m
  }

  lemma LiteralIsFinal(text: string, more: string, p: nat)
    requires MarkerAt(text, p)
    ensures MarkerAt(text + more, p) && LiteralAt(text + more, p) == LiteralAt(text, p)
  {
    var m := LiteralAt(text, p);
    StandsInPrefix(m, text, more, p);
    assert MarkerAt(text + more, p);
    var m' := LiteralAt(text + more, p);
    if |m| <= |m'| {
      OneLiteral(text + more, p, m, m');
    } else {
      OneLiteral(text + more, p, m', m);
    }
  }

  /** Where the first marker ends. */
  ghost function MarkerEnd(text: string): (end: nat)
    requires FirstMarker(text) != -1
    ensures FirstMarker(text) < end <= |text| && MarkerAt(text, FirstMarker(text))
    ensures end == FirstMarker(text) + |LiteralAt(text, FirstMarker(text))|
  {
    FirstMarkerIsFirst(text);
    var p := FirstMarker(text);
    HoldbackIsLongestLessOne();
    p + |LiteralAt(text, p)|
  }

  /** Once a marker has been seen in full, no continuation moves the first one. */
  lemma FirstMarkerIsFinal(text: string, more: string)
    requires FirstMarker(text) != -1
    ensures FirstMarker(text + more) == FirstMarker(text)
  {
    var p, q := FirstMarker(text), FirstMarker(text + more);
    FirstMarkerIsFirst(text);
    FirstMarkerIsFirst(text + more);
    var m :| m in MARKERS && StandsAt(m, text, p);
    StandsInPrefix(m, text, more, p);
    assert MarkerAt(text + more, p);
    if q < p {
      assert !MarkerAt(text, q);
      var m' :| m' in MARKERS && StandsAt(m', text + more, q);
      if q + |m'| <= |text| {
        StandsInPrefix(m', text, more, q);
      } else {
        MarkerShape(m);
        MarkerShape(m');
        OpensWithBracket(m', text + more, q);
        OpensWithBracket(m, text + more, p);
      }
      assert false;
    }
  }

  lemma MarkerEndIsFinal(text: string, more: string)
    requires FirstMarker(text) != -1
    ensures FirstMarker(text + more) == FirstMarker(text) && MarkerEnd(text + more) == MarkerEnd(text)
    ensures Reported(text + more, FirstMarker(text)) == Reported(text, FirstMarker(text))
  {
    var p := FirstMarker(text);
    FirstMarkerIsFirst(text);
    FirstMarkerIsFinal(text, more);
    LiteralIsFinal(text, more, p);
    assert (text + more)[..p] == text[..p];
  }

  /** The marker is found as soon as its last character is there. */
  lemma FoundAtItsEnd(text: string)
    requires FirstMarker(text) != -1
    ensures FirstMarker(text[..MarkerEnd(text)]) == FirstMarker(text)
  {
    var p, seen, more := FirstMarker(text), text[..MarkerEnd(text)], text[MarkerEnd(text)..];
    assert text == seen + more;
    FirstMarkerIsFirst(text);
    StandsInPrefix(LiteralAt(text, p), seen, more, p);
    assert MarkerAt(seen, p);
    FirstMarkerIsFirst(seen);
    FirstMarkerIsFinal(seen, more);
  }

  /** A marker that a continuation completes begins inside the last HOLDBACK characters. */
  lemma LateMarkerIsHeldBack(text: string, more: string)
    requires FirstMarker(text) == -1 && FirstMarker(text + more) != -1
    ensures FirstMarker(text + more) >= |text| - HOLDBACK
  {
    var q := FirstMarker(text + more);
    FirstMarkerIsFirst(text);
    FirstMarkerIsFirst(text + more);
    var m :| m in MARKERS && StandsAt(m, text + more, q);
    MarkerShape(m);
    assert !MarkerAt(text, q);
    if q + |m| <= |text| {
      StandsInPrefix(m, text, more, q);
      assert false;
    }
  }
}
