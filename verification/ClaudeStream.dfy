/** The streamed answer of the Claude provider: text deltas pass through a holdback so that a tool call
    written as text is never shown, content blocks are assembled by index, and a first 401 restarts the
    whole turn. The HTTP exchange is a given pair of responses; JSON decoding and the parser of written
    calls are parameters. */
module ClaudeStream {
  import opened Collections
  import opened Markers
  import opened ContentBlocks

  // ----- What the service sends and what the turn yields -----

  /** A line of the event stream: one that carries no decodable event, or one event. */
  datatype Line = Noise | Data(event: Event)

  datatype Response = Response(status: int, lines: seq<Line>)

  datatype StreamEvent<A> =
    | Status(phase: string)
    | Token(text: string)
    | ToolCalls(calls: seq<Call<A>>)
    | Done(completionTokens: int)

  function TokenText<A>(out: seq<StreamEvent<A>>): string {
    if out == [] then "" else
    var last := out[|out| - 1];
    TokenText(out[..|out| - 1]) + if last.Token? then last.text else ""
  }

  function CallsIn<A>(out: seq<StreamEvent<A>>): seq<Call<A>> {
    if out == [] then [] else
    var last := out[|out| - 1];
    CallsIn(out[..|out| - 1]) + if last.ToolCalls? then last.calls else []
  }

  lemma Yielded<A>(out: seq<StreamEvent<A>>, e: StreamEvent<A>)
    ensures TokenText(out + [e]) == if e.Token? then TokenText(out) + e.text else TokenText(out)
    ensures CallsIn(out + [e]) == if e.ToolCalls? then CallsIn(out) + e.calls else CallsIn(out)
  {
    assert (out + [e])[..|out|] == out;
    assert TokenText(out) + "" == TokenText(out) && CallsIn(out) + [] == CallsIn(out);
  }

  method Yield<A>(out: seq<StreamEvent<A>>, e: StreamEvent<A>) returns (out': seq<StreamEvent<A>>)
    ensures out' == out + [e]
    ensures TokenText(out') == if e.Token? then TokenText(out) + e.text else TokenText(out)
    ensures CallsIn(out') == if e.ToolCalls? then CallsIn(out) + e.calls else CallsIn(out)
  {
    Yielded(out, e);
    out' := out + [e];
  }

  // ----- The holdback -----

  /** `text[a:b]` for `0 <= a`: bounds past the end are clamped. */
  function Slice(text: string, a: nat, b: nat): string {
    var hi := if b <= |text| then b else |text|;
    if a < hi then text[a..hi] else ""
  }

  datatype Holdback = Holdback(fullText: string, emittedLen: nat, markerIdx: int) {
    ghost predicate Valid() { -1 <= markerIdx }
  }

  /** One text delta: the state after it and the text it releases. */
  function Feed(s: Holdback, text: string): (r: (Holdback, string))
    requires s.Valid()
    ensures r.0.Valid()
  {
    if text == "" then (s, "") else
    var full := s.fullText + text;
    var marker := if s.markerIdx == -1 then Reported(full, FirstMarker(full)) else s.markerIdx;
    if marker != -1 then
      if marker > s.emittedLen
      then (Holdback(full, marker, marker), Slice(full, s.emittedLen, marker))
      else (Holdback(full, s.emittedLen, marker), "")
    else
      var safe := |full| - HOLDBACK;
      if safe > s.emittedLen
      then (Holdback(full, safe, -1), Slice(full, s.emittedLen, safe))
      else (Holdback(full, s.emittedLen, -1), "")
  }

  /** The state and the text released after a run of text deltas. */
  function Streamed(chunks: seq<string>): (r: (Holdback, string))
    ensures r.0.Valid()
  {
    if chunks == [] then (Holdback("", 0, -1), "") else
    var (s, out) := Streamed(chunks[..|chunks| - 1]);
    var (s', token) := Feed(s, chunks[|chunks| - 1]);
    (s', out + token)
  }

  lemma StreamedOne(chunks: seq<string>, text: string)
    ensures Concat(chunks + [text]) == Concat(chunks) + text
    ensures var (s, out) := Streamed(chunks);
            var (s', token) := Feed(s, text);
            Streamed(chunks + [text]) == (s', out + token)
  {
    assert (chunks + [text])[..|chunks|] == chunks;
  }

  /** A marker of `text` has lost none of its place when no U+0130 stands before it. */
  predicate Undisplaced(text: string) {
    FirstMarker(text) == -1 || DOTTED_CAPITAL_I !in text[..FirstMarker(text)]
  }

  /** How much can be out once the first marker is there: up to the reported index or, when that index
      lies beyond what had arrived when the marker was found, all that had arrived. */
  ghost predicate ReleasedUpTo(text: string, n: nat)
    requires FirstMarker(text) != -1
  {
    var i := Reported(text, FirstMarker(text));
    n == i || MarkerEnd(text) <= n < i
  }

  /** What has been released, for every way of cutting the text so far. Without a marker it is all but
      the last HOLDBACK characters. */
  ghost predicate Released(text: string, s: Holdback, out: string) {
    var p := FirstMarker(text);
    && s.fullText == text
    && out <= text
    && s.markerIdx == Reported(text, p)
    && (p == -1 ==> s.emittedLen == |out| == if |text| > HOLDBACK then |text| - HOLDBACK else 0)
    && (p != -1 ==>
          s.emittedLen == s.markerIdx && ReleasedUpTo(text, |out|))
  }

  lemma {:induction false} StreamedIsReleased(chunks: seq<string>)
    ensures Released(Concat(chunks), Streamed(chunks).0, Streamed(chunks).1)
  {
    if chunks != [] {
      var before, text := chunks[..|chunks| - 1], chunks[|chunks| - 1];
      StreamedIsReleased(before);
      var (s, out) := Streamed(before);
      if text == "" {
        assert Concat(before) + text == Concat(before);
        assert out + "" == out;
      } else {
        FeedIsReleased(s, out, text);
      }
    }
  }

  /** The next text delta, as the provider's loop handles it. */
  method Release(s: Holdback, text: string) returns (s': Holdback, shows: bool, token: string)
    requires s.Valid()
    ensures (s', token) == Feed(s, text) && s'.Valid()
    ensures !shows ==> token == ""
  {
    var fullText, emittedLen, markerIdx := s.fullText, s.emittedLen, s.markerIdx;
    shows, token := false, "";
    if text != "" {
      fullText := fullText + text;
      if markerIdx == -1 {
        markerIdx := FindFunctionCallMarker(fullText);
      }
      if markerIdx != -1 {
        if markerIdx > emittedLen {
          shows, token := true, Slice(fullText, emittedLen, markerIdx);
          emittedLen := markerIdx;
        }
      } else {
        var safe := |fullText| - HOLDBACK;
        if safe > emittedLen {
          shows, token := true, Slice(fullText, emittedLen, safe);
          emittedLen := safe;
        }
      }
    }
    s' := Holdback(fullText, emittedLen, markerIdx);
  }

  lemma FeedAfterMarker(s: Holdback, out: string, text: string)
    requires s.Valid() && Released(s.fullText, s, out) && text != "" && s.markerIdx != -1
    ensures Released(s.fullText + text, Feed(s, text).0, out + Feed(s, text).1)
  {
    var full, p := s.fullText + text, FirstMarker(s.fullText);
    MarkerEndIsFinal(s.fullText, text);
    assert Feed(s, text) == (Holdback(full, s.emittedLen, s.markerIdx), "");
    assert out + "" == out && out <= full;
  }

  lemma FeedMeetsMarker(s: Holdback, out: string, text: string)
    requires s.Valid() && Released(s.fullText, s, out) && text != "" && s.markerIdx == -1
    requires FirstMarker(s.fullText + text) != -1
    ensures Released(s.fullText + text, Feed(s, text).0, out + Feed(s, text).1)
  {
    var full := s.fullText + text;
    var p := FirstMarker(full);
    var i := Reported(full, p);
    LateMarkerIsHeldBack(s.fullText, text);
    assert out == full[..s.emittedLen];
    assert Feed(s, text) == if i > s.emittedLen then (Holdback(full, i, i), Slice(full, s.emittedLen, i))
                            else (Holdback(full, s.emittedLen, i), "");
  }

  lemma FeedMeetsNone(s: Holdback, out: string, text: string)
    requires s.Valid() && Released(s.fullText, s, out) && text != "" && s.markerIdx == -1
    requires FirstMarker(s.fullText + text) == -1
    ensures Released(s.fullText + text, Feed(s, text).0, out + Feed(s, text).1)
  {
    var full := s.fullText + text;
    var safe := |full| - HOLDBACK;
    assert out == full[..s.emittedLen];
    assert Feed(s, text) == if safe > s.emittedLen then (Holdback(full, safe, -1), Slice(full, s.emittedLen, safe))
                            else (Holdback(full, s.emittedLen, -1), "");
  }

  lemma FeedIsReleased(s: Holdback, out: string, text: string)
    requires s.Valid() && Released(s.fullText, s, out) && text != ""
    ensures Released(s.fullText + text, Feed(s, text).0, out + Feed(s, text).1)
  {
    if s.markerIdx != -1 {
      FeedAfterMarker(s, out, text);
    } else if FirstMarker(s.fullText + text) != -1 {
      FeedMeetsMarker(s, out, text);
    } else {
      FeedMeetsNone(s, out, text);
    }
  }

  /** At every moment of a stream, and for every continuation of the answer, the released text is an
      opening part of the completed answer that ends at or before its first marker, provided no U+0130
      stands before that marker. */
  lemma NoMarkerIsEverReleased(chunks: seq<string>, more: string)
    requires Undisplaced(Concat(chunks) + more)
    ensures Streamed(chunks).1 <= Concat(chunks) + more
    ensures FirstMarker(Concat(chunks) + more) != -1 ==>
              |Streamed(chunks).1| <= FirstMarker(Concat(chunks) + more)
  {
    StreamedIsReleased(chunks);
    var text := Concat(chunks);
    if FirstMarker(text) != -1 {
      FirstMarkerIsFinal(text, more);
      assert (text + more)[..FirstMarker(text)] == text[..FirstMarker(text)];
      LowerLength(text[..FirstMarker(text)]);
    } else if FirstMarker(text + more) != -1 {
      LateMarkerIsHeldBack(text, more);
    }
  }

  /** The condition is exact: once the marker has been streamed, however the text was cut, the released
      text stops in front of it if and only if no U+0130 precedes it. */
  lemma MarkerIsReleasedIff(chunks: seq<string>)
    requires FirstMarker(Concat(chunks)) != -1
    ensures |Streamed(chunks).1| <= FirstMarker(Concat(chunks)) <==> Undisplaced(Concat(chunks))
  {
    StreamedIsReleased(chunks);
    LowerLength(Concat(chunks)[..FirstMarker(Concat(chunks))]);
  }

  lemma {:induction false} LowerIsIdentity(s: string)
    requires forall c <- s :: LowerChar(c) == [c]
    ensures Lower(s) == s
  {
    if s != "" {
      assert s[0] in s && forall c <- s[1..] :: c in s;
      LowerIsIdentity(s[1..]);
    }
  }

  lemma OpenCallStandsAtOne(text: string)
    requires text == "\U{0130}<function_call>"
    ensures MarkerAt(text, 1)
  {
    assert text[1..1 + |OPEN_CALL|] == OPEN_CALL;
    LowerIsIdentity(OPEN_CALL);
    assert OPEN_CALL in MARKERS;
  }

  lemma BracketAfterADottedCapital(text: string)
    requires |text| > 1 && text[0] == DOTTED_CAPITAL_I && MarkerAt(text, 1)
    ensures FirstMarker(text) == 1 && Reported(text, 1) == 2
  {
    FirstMarkerIsFirst(text);
    if FirstMarker(text) == 0 {
      var m :| m in MARKERS && StandsAt(m, text, 0);
      MarkerShape(m);
      OpensWithBracket(m, text, 0);
      assert false;
    }
    assert text[..1] == [DOTTED_CAPITAL_I];
    LowerLength(text[..1]);
    assert |Lower(text[..1])| == |LowerChar(text[0])| + |Lower("")|;
  }

  /** A concrete answer whose marker shows: one U+0130 in front lets the opening bracket out. */
  lemma DottedCapitalLeaksABracket(text: string)
    requires text == "\U{0130}<function_call>"
    ensures Streamed([text]).1 == "\U{0130}<"
  {
    OpenCallStandsAtOne(text);
    BracketAfterADottedCapital(text);
    StreamedOne([], text);
    assert [] + [text] == [text];
    assert "" + text == text;
    assert Slice(text, 0, 2) == text[0..2] == "\U{0130}<";
  }

  // ----- The end of the stream -----

  /** The calls of the turn: the native ones or, without any, those parsed from the held-back tail. */
  function TurnCalls<A>(text: string, marker: int, native: seq<Call<A>>, parse: string -> seq<Call<A>>): seq<Call<A>>
    requires -1 <= marker
  {
    if native == [] && marker != -1 then parse(Slice(text, marker, |text|)) else native
  }

  /** All text shown by a turn whose text came in `chunks`. */
  function Shown<A>(chunks: seq<string>, native: seq<Call<A>>, parse: string -> seq<Call<A>>): string {
    var (s, out) := Streamed(chunks);
    if s.markerIdx == -1 || TurnCalls(s.fullText, s.markerIdx, native, parse) == []
    then out + Slice(s.fullText, s.emittedLen, |s.fullText|)
    else out
  }

  /** What a turn ought to show: the text before the first marker when calls result, else everything. */
  function Visible<A>(text: string, calls: seq<Call<A>>): string {
    var p := FirstMarker(text);
    if p == -1 || calls == [] then text else text[..p]
  }

  /** What the calls of a turn come to for a given answer, wherever it was cut. */
  function CallsFor<A>(text: string, native: seq<Call<A>>, parse: string -> seq<Call<A>>): seq<Call<A>> {
    TurnCalls(text, Reported(text, FirstMarker(text)), native, parse)
  }

  /** The reported index lies no further than the end of the marker, or nothing follows the marker. */
  ghost predicate Steady(text: string) {
    || FirstMarker(text) == -1
    || Reported(text, FirstMarker(text)) <= MarkerEnd(text)
    || |text| == MarkerEnd(text)
  }

  /** One U+0130 moves the index by one, so an answer is steady when no more of them precede its marker
      than the marker has characters. */
  lemma SteadyIff(text: string)
    requires FirstMarker(text) != -1
    ensures var p := FirstMarker(text);
            && MarkerAt(text, p)
            && (Steady(text) <==> Dotted(text[..p]) <= |LiteralAt(text, p)| || |text| == p + |LiteralAt(text, p)|)
    ensures Undisplaced(text) ==> Steady(text)
  {
    FirstMarkerIsFirst(text);
    LowerLength(text[..FirstMarker(text)]);
  }

  lemma SlicesMeet(text: string, i: nat)
    ensures Slice(text, 0, i) + Slice(text, i, |text|) == text
    ensures forall out | out <= text && |out| == (if i <= |text| then i else |text|) :: out == Slice(text, 0, i)
  {
  }

  /** The end of a stream in which a marker was found. */
  lemma ShownOnceFound<A>(chunks: seq<string>, text: string, out: string, native: seq<Call<A>>, parse: string -> seq<Call<A>>)
    requires FirstMarker(text) != -1
    requires var i := Reported(text, FirstMarker(text)); Streamed(chunks) == (Holdback(text, i, i), out)
    ensures Shown(chunks, native, parse) ==
            if CallsFor(text, native, parse) == [] then out + Slice(text, Reported(text, FirstMarker(text)), |text|) else out
  {
  }

  /** A steady answer shows the same text however it is cut: up to the reported index if there are calls,
      else all of it. */
  lemma ShownWhenSteady<A>(chunks: seq<string>, native: seq<Call<A>>, parse: string -> seq<Call<A>>)
    requires Steady(Concat(chunks))
    ensures var text := Concat(chunks);
            Shown(chunks, native, parse) ==
            if FirstMarker(text) == -1 || CallsFor(text, native, parse) == [] then text
            else Slice(text, 0, Reported(text, FirstMarker(text)))
  {
    StreamedIsReleased(chunks);
    var text := Concat(chunks);
    var (s, out) := Streamed(chunks);
    if FirstMarker(text) == -1 {
      assert out == text[..|out|] && text[..|out|] + text[|out|..] == text;
    } else {
      var i := Reported(text, FirstMarker(text));
      assert |out| == if i <= |text| then i else |text|;
      SlicesMeet(text, i);
      assert s == Holdback(text, i, i);
      ShownOnceFound(chunks, text, out, native, parse);
    }
  }

  /** The answer cut behind its first marker. */
  ghost function Pieces(text: string): (cut: seq<string>)
    requires FirstMarker(text) != -1
    ensures |cut| == 2 && cut[0] + cut[1] == text
  {
    [text[..MarkerEnd(text)], text[MarkerEnd(text)..]]
  }

  lemma LessIsShown(text: string, end: nat, i: nat)
    requires end < i && end < |text|
    ensures |text[..end] + Slice(text, i, |text|)| < |text| && end < |Slice(text, 0, i)|
  {
  }

  /** Any other answer shows less when it is cut behind its marker than when it comes in one piece. What
      has been skipped is not shown at the end either. */
  lemma CutBehindTheMarker<A>(text: string, native: seq<Call<A>>, parse: string -> seq<Call<A>>)
    requires !Steady(text)
    ensures Concat(Pieces(text)) == Concat([text]) == text
    ensures var (end, i, calls) := (MarkerEnd(text), Reported(text, FirstMarker(text)), CallsFor(text, native, parse));
            && Shown(Pieces(text), native, parse) == (if calls == [] then text[..end] + Slice(text, i, |text|) else text[..end])
            && Shown([text], native, parse) == (if calls == [] then text else Slice(text, 0, i))
    ensures |Shown(Pieces(text), native, parse)| < |Shown([text], native, parse)|
  {
    var end, i := MarkerEnd(text), Reported(text, FirstMarker(text));
    OneChunk(text);
    ShownOnceFound([text], text, Slice(text, 0, i), native, parse);
    TwoChunks(text);
    ShownOnceFound(Pieces(text), text, text[..end], native, parse);
    Meets(text, i);
    LessIsShown(text, end, i);
  }

  lemma Meets(text: string, i: nat)
    ensures Slice(text, 0, i) + Slice(text, i, |text|) == text
  {
    SlicesMeet(text, i);
  }

  lemma MoreAfterFound(chunks: seq<string>, seen: string, i: nat, out: string, more: string)
    requires Streamed(chunks) == (Holdback(seen, i, i), out) && more != ""
    ensures Streamed(chunks + [more]) == (Holdback(seen + more, i, i), out)
  {
    StreamedOne(chunks, more);
    assert Feed(Holdback(seen, i, i), more) == (Holdback(seen + more, i, i), "");
    assert out + "" == out;
  }

  /** An answer that arrives in two pieces, the first of which ends with the marker. */
  lemma TwoChunks(text: string)
    requires !Steady(text)
    ensures var (end, i) := (MarkerEnd(text), Reported(text, FirstMarker(text)));
            Concat(Pieces(text)) == text && Streamed(Pieces(text)) == (Holdback(text, i, i), text[..end])
  {
    var end, i := MarkerEnd(text), Reported(text, FirstMarker(text));
    var seen, more := text[..end], text[end..];
    assert seen + more == text;
    FirstChunk(text, seen);
    SecondChunk(seen, i, more);
    assert Pieces(text) == [seen] + [more];
  }

  lemma SecondChunk(seen: string, i: nat, more: string)
    requires more != "" && Concat([seen]) == seen && Streamed([seen]) == (Holdback(seen, i, i), seen)
    ensures Concat([seen] + [more]) == seen + more && Streamed([seen] + [more]) == (Holdback(seen + more, i, i), seen)
  {
    MoreAfterFound([seen], seen, i, seen, more);
    StreamedOne([seen], more);
  }

  lemma FirstChunk(text: string, seen: string)
    requires !Steady(text) && seen == text[..MarkerEnd(text)]
    ensures var i := Reported(text, FirstMarker(text));
            Concat([seen]) == seen && Streamed([seen]) == (Holdback(seen, i, i), seen)
  {
    FoundAtItsEnd(text);
    assert seen[..FirstMarker(text)] == text[..FirstMarker(text)];
    OneChunk(seen);
    assert Slice(seen, 0, Reported(text, FirstMarker(text))) == seen;
  }

  /** An answer that arrives in one piece, marker and all. */
  lemma OneChunk(text: string)
    requires FirstMarker(text) != -1
    ensures Concat([text]) == text
    ensures var i := Reported(text, FirstMarker(text)); Streamed([text]) == (Holdback(text, i, i), Slice(text, 0, i))
  {
    var i := Reported(text, FirstMarker(text));
    StreamedOne([], text);
    assert [] + [text] == [text] && "" + text == text;
    assert "" + Slice(text, 0, i) == Slice(text, 0, i);
  }

  /** All ways of cutting an answer show the same text if and only if the answer is steady. */
  lemma CuttingDoesNotMatterIff<A>(text: string, native: seq<Call<A>>, parse: string -> seq<Call<A>>)
    ensures (forall a, b | Concat(a) == text && Concat(b) == text :: Shown(a, native, parse) == Shown(b, native, parse))
       <==> Steady(text)
  {
    if Steady(text) {
      forall a | Concat(a) == text
        ensures Shown(a, native, parse) == if FirstMarker(text) == -1 || CallsFor(text, native, parse) == [] then text
                                           else Slice(text, 0, Reported(text, FirstMarker(text)))
      {
        ShownWhenSteady(a, native, parse);
      }
    } else {
      CutBehindTheMarker(text, native, parse);
      assert Shown(Pieces(text), native, parse) != Shown([text], native, parse);
    }
  }

  /** Every way of cutting an answer shows what it ought to if and only if the answer is steady, for a turn
      without calls, or no U+0130 precedes its marker, for a turn with calls. */
  lemma ShownIsVisibleIff<A>(text: string, native: seq<Call<A>>, parse: string -> seq<Call<A>>)
    ensures AlwaysVisible(text, native, parse) <==>
            if CallsFor(text, native, parse) == [] then Steady(text) else Undisplaced(text)
  {
    if FirstMarker(text) != -1 {
      SteadyIff(text);
    }
    if Steady(text) {
      SteadyIsVisibleIff(text, native, parse);
    } else {
      UnsteadyIsNotVisible(text, native, parse);
    }
  }

  ghost predicate AlwaysVisible<A>(text: string, native: seq<Call<A>>, parse: string -> seq<Call<A>>) {
    forall a | Concat(a) == text :: Shown(a, native, parse) == Visible(text, CallsFor(text, native, parse))
  }

  lemma SteadyIsVisibleIff<A>(text: string, native: seq<Call<A>>, parse: string -> seq<Call<A>>)
    requires Steady(text)
    ensures AlwaysVisible(text, native, parse) <==> CallsFor(text, native, parse) == [] || Undisplaced(text)
  {
    var p, calls := FirstMarker(text), CallsFor(text, native, parse);
    var shown := if p == -1 || calls == [] then text else Slice(text, 0, Reported(text, p));
    if p != -1 {
      LowerLength(text[..p]);
      assert Slice(text, 0, p) == text[..p];
    }
    assert shown == Visible(text, calls) <==> calls == [] || Undisplaced(text);
    forall a | Concat(a) == text
      ensures Shown(a, native, parse) == shown
    {
      ShownWhenSteady(a, native, parse);
    }
    WholeAnswer(text);
  }

  lemma UnsteadyIsNotVisible<A>(text: string, native: seq<Call<A>>, parse: string -> seq<Call<A>>)
    requires !Steady(text)
    ensures !AlwaysVisible(text, native, parse)
  {
    CutBehindTheMarker(text, native, parse);
    assert Shown(Pieces(text), native, parse) != Shown([text], native, parse);
  }

  lemma WholeAnswer(text: string)
    ensures Concat([text]) == text
  {
    assert Concat([]) + text == text;
    assert [text][..0] == [];
  }

  /** With calls in hand this holds of each way of cutting by itself. */
  lemma ShownWithCallsIff<A>(chunks: seq<string>, native: seq<Call<A>>, parse: string -> seq<Call<A>>)
    requires FirstMarker(Concat(chunks)) != -1 && CallsFor(Concat(chunks), native, parse) != []
    ensures Shown(chunks, native, parse) == Concat(chunks)[..FirstMarker(Concat(chunks))] <==> Undisplaced(Concat(chunks))
  {
    StreamedIsReleased(chunks);
    var text := Concat(chunks);
    LowerLength(text[..FirstMarker(text)]);
  }

  lemma NoEarlierMarker(pre: string, rest: string)
    requires '<' !in pre && MarkerAt(pre + rest, |pre|)
    ensures FirstMarker(pre + rest) == |pre|
  {
    var text := pre + rest;
    FirstMarkerIsFirst(text);
    var q := FirstMarker(text);
    if q < |pre| {
      var m :| m in MARKERS && StandsAt(m, text, q);
      MarkerShape(m);
      assert text[q] == pre[q];
      OpensWithBracket(m, text, q);
      assert false;
    }
  }

  lemma {:induction false} AllDotted(s: string)
    requires forall c <- s :: c == DOTTED_CAPITAL_I
    ensures Dotted(s) == |s|
  {
    if s != "" {
      assert s[0] in s && forall c <- s[1..] :: c in s;
      AllDotted(s[1..]);
    }
  }

  lemma InvokeBehind(pre: string, x: string)
    ensures MarkerAt(pre + INVOKE + x, |pre|) && LiteralAt(pre + INVOKE + x, |pre|) == INVOKE
  {
    var text := pre + INVOKE + x;
    assert text[|pre|..|pre| + |INVOKE|] == INVOKE;
    LowerIsIdentity(INVOKE);
    assert INVOKE in MARKERS && StandsAt(INVOKE, text, |pre|);
    var m := LiteralAt(text, |pre|);
    if |m| <= |INVOKE| {
      OneLiteral(text, |pre|, m, INVOKE);
    } else {
      OneLiteral(text, |pre|, INVOKE, m);
    }
  }

  /** A concrete answer that loses its last character when it is cut in front of it. */
  lemma CutLosesText<A>(pre: string, parse: string -> seq<Call<A>>)
    requires pre == seq(14, _ => DOTTED_CAPITAL_I) && parse("") == []
    ensures Shown([pre + INVOKE, "x"], [], parse) == pre + INVOKE
    ensures Shown([pre + INVOKE + "x"], [], parse) == pre + INVOKE + "x"
  {
    var text := pre + INVOKE + "x";
    InvokeBehind(pre, "x");
    DottedRunShifts(pre, INVOKE, "x", text);
    assert text[..|pre| + |INVOKE|] == pre + INVOKE && text[|pre| + |INVOKE|..] == "x";
    RestIsLost(text, parse);
  }

  lemma RestIsLost<A>(text: string, parse: string -> seq<Call<A>>)
    requires !Steady(text) && Reported(text, FirstMarker(text)) == |text| && parse("") == []
    ensures Shown(Pieces(text), [], parse) == text[..MarkerEnd(text)] && Shown([text], [], parse) == text
  {
    CutBehindTheMarker(text, [], parse);
    assert text[..MarkerEnd(text)] + "" == text[..MarkerEnd(text)];
  }

  /** Each U+0130 in front of a marker moves its reported index by one. */
  lemma DottedRunShifts(pre: string, m: string, x: string, text: string)
    requires (forall c <- pre :: c == DOTTED_CAPITAL_I) && text == pre + m + x
    requires MarkerAt(text, |pre|) && LiteralAt(text, |pre|) == m
    ensures FirstMarker(text) == |pre| && MarkerEnd(text) == |pre| + |m| && Reported(text, |pre|) == |pre| + |pre|
  {
    assert text == pre + (m + x);
    NoEarlierMarker(pre, m + x);
    assert text[..|pre|] == pre;
    AllDotted(pre);
  }

  // ----- The whole turn -----

  function Decoded(lines: seq<Line>): seq<Event> {
    if lines == [] then [] else
    var last := lines[|lines| - 1];
    Decoded(lines[..|lines| - 1]) + if last.Data? then [last.event] else []
  }

  /** The events before the first error. */
  function UpToError(events: seq<Event>): seq<Event> {
    if events == [] || events[0].ErrorEvent? then [] else [events[0]] + UpToError(events[1..])
  }

  function Texts(events: seq<Event>): seq<string> {
    if events == [] then [] else
    var last := events[|events| - 1];
    Texts(events[..|events| - 1]) +
    if last.BlockDelta? && last.delta.TextDelta? then [last.delta.text] else []
  }

  function Usage(events: seq<Event>): int {
    if events == [] then 0 else
    var last := events[|events| - 1];
    if last.MessageDelta? && last.outputTokens.Some? then last.outputTokens.value
    else Usage(events[..|events| - 1])
  }

  function IsText(e: Event): bool {
    e.BlockDelta? && e.delta.TextDelta?
  }

  function TextOf(e: Event): string {
    if IsText(e) then e.delta.text else ""
  }

  ghost predicate AreTexts(events: seq<Event>, texts: seq<string>) {
    Picked(events, IsText, TextOf, texts)
  }

  lemma OneMoreText(events: seq<Event>, texts: seq<string>, e: Event)
    requires AreTexts(events, texts)
    ensures AreTexts(events + [e], if IsText(e) then texts + [e.delta.text] else texts)
  {
    PickedOneMore(events, IsText, TextOf, texts, e);
  }

  /** The text deltas of every block, as they arrived. */
  lemma {:induction false} TextsAre(events: seq<Event>)
    ensures AreTexts(events, Texts(events))
  {
    if events == [] {
      NoTexts();
    } else {
      var before, last := events[..|events| - 1], events[|events| - 1];
      TextsAre(before);
      TextsOneMore(events);
      SplitLast(events);
      OneMoreText(before, Texts(before), last);
    }
  }

  lemma SplitLast(events: seq<Event>)
    requires events != []
    ensures events == events[..|events| - 1] + [events[|events| - 1]]
  {
  }

  lemma NoTexts()
    ensures AreTexts([], [])
  {
    PickedNone(IsText, TextOf);
  }

  lemma TextsOneMore(events: seq<Event>)
    requires events != []
    ensures var n := |events| - 1;
            Texts(events) == if IsText(events[n]) then Texts(events[..n]) + [events[n].delta.text] else Texts(events[..n])
  {
    assert Texts(events[..|events| - 1]) + [] == Texts(events[..|events| - 1]);
  }

  function IsData(l: Line): bool {
    l.Data?
  }

  function EventOf(l: Line): Event {
    if l.Data? then l.event else OtherEvent
  }

  ghost predicate AreEvents(lines: seq<Line>, events: seq<Event>) {
    Picked(lines, IsData, EventOf, events)
  }

  lemma NoEvents()
    ensures AreEvents([], [])
  {
    PickedNone(IsData, EventOf);
  }

  lemma EventsOneMore(lines: seq<Line>, events: seq<Event>, l: Line)
    requires AreEvents(lines, events)
    ensures AreEvents(lines + [l], if l.Data? then events + [l.event] else events)
  {
    PickedOneMore(lines, IsData, EventOf, events, l);
  }

  /** The events of the lines that carry one, as they arrived. */
  lemma {:induction false} DecodedAre(lines: seq<Line>)
    ensures AreEvents(lines, Decoded(lines))
  {
    if lines == [] {
      NoEvents();
    } else {
      var n := |lines| - 1;
      DecodedAre(lines[..n]);
      EventsOneMore(lines[..n], Decoded(lines[..n]), lines[n]);
      DecodedOneMore(lines);
    }
  }

  lemma DecodedOneMore(lines: seq<Line>)
    requires lines != []
    ensures var n := |lines| - 1;
            && lines == lines[..n] + [lines[n]]
            && Decoded(lines) == if lines[n].Data? then Decoded(lines[..n]) + [lines[n].event] else Decoded(lines[..n])
  {
    assert Decoded(lines[..|lines| - 1]) + [] == Decoded(lines[..|lines| - 1]);
  }

  function SaysUsage(e: Event): bool {
    e.MessageDelta? && e.outputTokens.Some?
  }

  /** The last count reported, or zero. */
  lemma {:induction false} UsageIs(events: seq<Event>)
    ensures (forall j | 0 <= j < |events| :: !SaysUsage(events[j])) ==> Usage(events) == 0
    ensures forall k | 0 <= k < |events| && SaysUsage(events[k]) && forall j | k < j < |events| :: !SaysUsage(events[j]) ::
              Usage(events) == events[k].outputTokens.value
  {
    if events != [] {
      UsageIs(events[..|events| - 1]);
    }
  }

  /** The response the turn is built from: a first 401 under OAuth is answered by a second attempt. */
  function Served(useOauth: bool, first: Response, second: Response): Response {
    if useOauth && first.status == 401 then second else first
  }

  lemma {:induction false} BeforeAnyError(events: seq<Event>, n: nat)
    requires n <= |events| && forall k | 0 <= k < n :: !events[k].ErrorEvent?
    requires n < |events| ==> events[n].ErrorEvent?
    ensures UpToError(events) == events[..n]
  {
    if n > 0 {
      BeforeAnyError(events[1..], n - 1);
      assert events[..n] == [events[0]] + events[1..][..n - 1];
    }
  }

  /** The events in front of the first error, or all of them. */
  lemma {:induction false} UpToErrorIs(events: seq<Event>)
    ensures UpToError(events) <= events && forall k | 0 <= k < |UpToError(events)| :: !events[k].ErrorEvent?
    ensures |UpToError(events)| < |events| ==> events[|UpToError(events)|].ErrorEvent?
  {
    if events != [] && !events[0].ErrorEvent? {
      UpToErrorIs(events[1..]);
      var n := |UpToError(events[1..])|;
      assert events[..n + 1] == [events[0]] + events[1..][..n];
    }
  }

  lemma OneMoreLine(lines: seq<Line>, k: nat)
    requires k < |lines|
    ensures lines[k].Noise? ==> Decoded(lines[..k + 1]) == Decoded(lines[..k])
    ensures lines[k].Data? ==> Decoded(lines[..k + 1]) == Decoded(lines[..k]) + [lines[k].event]
  {
    assert lines[..k + 1][..k] == lines[..k];
  }

  lemma OneMoreEvent(events: seq<Event>, e: Event)
    ensures Blocks(events + [e]) == Assemble(Blocks(events), e)
    ensures Texts(events + [e]) ==
            if e.BlockDelta? && e.delta.TextDelta? then Texts(events) + [e.delta.text] else Texts(events)
    ensures Usage(events + [e]) ==
            if e.MessageDelta? && e.outputTokens.Some? then e.outputTokens.value else Usage(events)
  {
    assert (events + [e])[..|events|] == events;
    assert Texts(events) + [] == Texts(events);
  }

  lemma {:induction false} DecodedPrefix(lines: seq<Line>, k: nat)
    requires k <= |lines|
    ensures Decoded(lines[..k]) <= Decoded(lines)
    decreases |lines| - k
  {
    if k == |lines| {
      assert lines[..k] == lines;
    } else {
      OneMoreLine(lines, k);
      DecodedPrefix(lines, k + 1);
    }
  }

  /** The loop variables of the reader agree with the events read so far. */
  ghost predicate Tracks(events: seq<Event>, held: Holdback, blocks: map<int, Block>, tokens: int, shown: string) {
    && Streamed(Texts(events)) == (held, shown)
    && blocks == Blocks(events)
    && tokens == Usage(events)
  }

  /** A content-block delta: the block grows, and text passes through the holdback. */
  method HandleDelta<A>(index: int, delta: Delta, held: Holdback, blocks: map<int, Block>, out: seq<StreamEvent<A>>,
                        tokens: int, ghost events: seq<Event>)
    returns (held': Holdback, blocks': map<int, Block>, out': seq<StreamEvent<A>>)
    requires held.Valid() && Tracks(events, held, blocks, tokens, TokenText(out))
    ensures held'.Valid() && Tracks(events + [BlockDelta(index, delta)], held', blocks', tokens, TokenText(out'))
    ensures CallsIn(out') == CallsIn(out)
  {
    OneMoreEvent(events, BlockDelta(index, delta));
    held', out' := held, out;
    var blk := if index in blocks then blocks[index] else Block("text", "", "", "", "");
    if delta.TextDelta? {
      StreamedOne(Texts(events), delta.text);
      blk := blk.(text := blk.text + delta.text);
      var shows, token;
      held', shows, token := Release(held, delta.text);
      assert TokenText(out) + "" == TokenText(out);
      if shows {
        out' := Yield(out, Token(token));
      }
    } else if delta.JsonDelta? {
      blk := blk.(json := blk.json + delta.partialJson);
    }
    blocks' := blocks[index := blk];
  }

  /** One event that is no error. */
  method HandleEvent<A>(evt: Event, held: Holdback, blocks: map<int, Block>, out: seq<StreamEvent<A>>, tokens: int,
                        ghost events: seq<Event>)
    returns (held': Holdback, blocks': map<int, Block>, out': seq<StreamEvent<A>>, tokens': int)
    requires !evt.ErrorEvent? && held.Valid() && Tracks(events, held, blocks, tokens, TokenText(out))
    ensures held'.Valid() && Tracks(events + [evt], held', blocks', tokens', TokenText(out'))
    ensures CallsIn(out') == CallsIn(out)
  {
    OneMoreEvent(events, evt);
    held', blocks', out', tokens' := held, blocks, out, tokens;
    match evt
    case BlockStart(index, kind, id, name) =>
      blocks' := blocks[index := Block(kind, id, name, "", "")];
    case BlockDelta(index, delta) =>
      held', blocks', out' := HandleDelta(index, delta, held, blocks, out, tokens, events);
    case MessageDelta(outputTokens) =>
      if outputTokens.Some? {
        tokens' := outputTokens.value;
      }
    case _ =>
  }

  lemma NoErrorYet(events: seq<Event>, evt: Event)
    requires !HasError(events) && !evt.ErrorEvent?
    ensures !HasError(events + [evt])
  {
    assert forall e :: e in events + [evt] <==> e in events || e == evt;
  }

  /** Reads one accepted response to its end, or to its first error event. */
  method Receive<A>(lines: seq<Line>, sofar: seq<StreamEvent<A>>)
    returns (out: seq<StreamEvent<A>>, held: Holdback, blocks: map<int, Block>, completionTokens: int, failed: bool)
    requires TokenText(sofar) == "" && CallsIn(sofar) == []
    ensures held.Valid() && CallsIn(out) == []
    ensures failed <==> HasError(Decoded(lines))
    ensures !failed ==> Tracks(Decoded(lines), held, blocks, completionTokens, TokenText(out))
    ensures failed ==> TokenText(out) == Streamed(Texts(UpToError(Decoded(lines)))).1
  {
    blocks, completionTokens, held, failed := map[], 0, Holdback("", 0, -1), false;
    out := sofar;
    var isFirst := true;
    ghost var events: seq<Event> := [];
    for k := 0 to |lines|
      invariant held.Valid() && CallsIn(out) == []
      invariant events == Decoded(lines[..k]) && !HasError(events)
      invariant Tracks(events, held, blocks, completionTokens, TokenText(out))
    {
      OneMoreLine(lines, k);
      if lines[k].Noise? { continue; }
      var evt := lines[k].event;
      if isFirst {
        isFirst := false;
        out := Yield(out, Status("response"));
      }
      if evt.ErrorEvent? {
        ErrorStops(lines, k);
        failed := true;
        return;
      }
      held, blocks, out, completionTokens := HandleEvent(evt, held, blocks, out, completionTokens, events);
      NoErrorYet(events, evt);
      events := events + [evt];
    }
    assert lines[..|lines|] == lines;
  }

  predicate HasError(events: seq<Event>) {
    exists e <- events :: e.ErrorEvent?
  }

  lemma ErrorStops(lines: seq<Line>, k: nat)
    requires k < |lines| && lines[k].Data? && lines[k].event.ErrorEvent?
    requires !HasError(Decoded(lines[..k]))
    ensures UpToError(Decoded(lines)) == Decoded(lines[..k])
    ensures HasError(Decoded(lines))
  {
    var before, all := Decoded(lines[..k]), Decoded(lines);
    OneMoreLine(lines, k);
    DecodedPrefix(lines, k + 1);
    assert before + [lines[k].event] <= all;
    assert all[|before|] == lines[k].event;
    forall j | 0 <= j < |before|
      ensures !all[j].ErrorEvent?
    {
      assert all[j] == before[j];
    }
    BeforeAnyError(all, |before|);
  }

  /** One turn. On failure `out` keeps what had been yielded before the exception. */
  method Stream<A(!new)>(useOauth: bool, first: Response, second: Response,
                   decode: string -> A, parse: string -> seq<Call<A>>)
    returns (out: seq<StreamEvent<A>>, failed: bool)
    ensures var served := Served(useOauth, first, second);
            failed <==> served.status >= 400 || HasError(Decoded(served.lines))
    ensures var events := Decoded(Served(useOauth, first, second).lines);
            var chunks, native := Texts(events), NativeCalls(events, decode);
            !failed ==>
              && TokenText(out) == Shown(chunks, native, parse)
              && CallsIn(out) == TurnCalls(Concat(chunks), Streamed(chunks).0.markerIdx, native, parse)
              && out != [] && out[|out| - 1] == Done(if Usage(events) > 1 then Usage(events) else 1)
    ensures var events := Decoded(Served(useOauth, first, second).lines);
            var answer := Concat(Texts(events));
            !failed ==> Visibly(answer, TokenText(out), CallsIn(out)) && Calls(events, answer, CallsIn(out), decode, parse)
    ensures useOauth && first.status == 401 ==> (failed <==> second.status >= 400 || HasError(Decoded(second.lines)))
    ensures !useOauth || first.status != 401 ==> (failed <==> first.status >= 400 || HasError(Decoded(first.lines)))
    ensures var served := Served(useOauth, first, second);
            && (failed && served.status >= 400 ==> TokenText(out) == "")
            && (failed && served.status < 400 ==> TokenText(out) == Streamed(Texts(UpToError(Decoded(served.lines)))).1)
  {
    var blocks: map<int, Block>, completionTokens, held := map[], 0, Holdback("", 0, -1);
    out := [];
    out := Yield(out, Status("connecting"));
    failed := false;
    var attempt, retry := 0, true;
    while retry
      invariant 0 <= attempt <= 2
      invariant retry ==> attempt <= 1 && TokenText(out) == "" && CallsIn(out) == []
      invariant retry && attempt == 1 ==> Served(useOauth, first, second) == second
      invariant !retry ==>
                  var served := Served(useOauth, first, second);
                  && served.status < 400
                  && !HasError(Decoded(served.lines))
                  && Tracks(Decoded(served.lines), held, blocks, completionTokens, TokenText(out))
                  && CallsIn(out) == []
      decreases retry, 2 - attempt
    {
      var resp := if attempt == 0 then first else second;
      if resp.status == 401 && useOauth && attempt == 0 {
        attempt := attempt + 1;
        continue;
      }
      assert resp == Served(useOauth, first, second);
      if resp.status >= 400 {
        failed := true;
        return;
      }
      out := Yield(out, Status("request_sent"));
      out, held, blocks, completionTokens, failed := Receive(resp.lines, out);
      if failed {
        return;
      }
      retry := false;
    }
    out := Settle(held, blocks, completionTokens, decode, parse, out, Decoded(Served(useOauth, first, second).lines));
  }

  /** The turn shows what it ought to, unless its answer is one of those excepted. */
  ghost predicate Visibly<A>(answer: string, shown: string, calls: seq<Call<A>>) {
    (if calls == [] then Steady(answer) else Undisplaced(answer)) ==> shown == Visible(answer, calls)
  }

  /** The calls of the turn are the native ones or, without any, those parsed from the answer from its first
      marker on. */
  ghost predicate Calls<A(!new)>(events: seq<Event>, answer: string, calls: seq<Call<A>>,
                                 decode: string -> A, parse: string -> seq<Call<A>>)
  {
    exists native :: AreCalls(events, native, decode) && calls == WithParsed(answer, native, parse)
  }

  function WithParsed<A>(answer: string, native: seq<Call<A>>, parse: string -> seq<Call<A>>): seq<Call<A>> {
    var p := FirstMarker(answer);
    if native != [] || p == -1 then native
    else if Reported(answer, p) <= |answer| then parse(answer[Reported(answer, p)..])
    else parse("")
  }

  lemma TailIsParsed<A>(answer: string, native: seq<Call<A>>, parse: string -> seq<Call<A>>)
    ensures CallsFor(answer, native, parse) == WithParsed(answer, native, parse)
  {
    if FirstMarker(answer) != -1 {
      var i := Reported(answer, FirstMarker(answer));
      assert Slice(answer, i, |answer|) == if i <= |answer| then answer[i..] else "";
    }
  }

  lemma TurnIsVisible<A>(chunks: seq<string>, native: seq<Call<A>>, parse: string -> seq<Call<A>>)
    ensures var calls := TurnCalls(Concat(chunks), Streamed(chunks).0.markerIdx, native, parse);
            calls == CallsFor(Concat(chunks), native, parse) && Visibly(Concat(chunks), Shown(chunks, native, parse), calls)
  {
    StreamedIsReleased(chunks);
    ShownIsVisibleIff(Concat(chunks), native, parse);
  }

  /** What remains to be done once the response has been read. */
  method Settle<A(!new)>(held: Holdback, blocks: map<int, Block>, completionTokens: int,
                   decode: string -> A, parse: string -> seq<Call<A>>, sofar: seq<StreamEvent<A>>, ghost events: seq<Event>)
    returns (out: seq<StreamEvent<A>>)
    requires held.Valid() && CallsIn(sofar) == []
    requires Tracks(events, held, blocks, completionTokens, TokenText(sofar))
    ensures var chunks, native := Texts(events), NativeCalls(events, decode);
            && TokenText(out) == Shown(chunks, native, parse)
            && CallsIn(out) == TurnCalls(Concat(chunks), Streamed(chunks).0.markerIdx, native, parse)
            && out != [] && out[|out| - 1] == Done(if Usage(events) > 1 then Usage(events) else 1)
            && Visibly(Concat(chunks), TokenText(out), CallsIn(out))
            && Calls(events, Concat(chunks), CallsIn(out), decode, parse)
  {
    var calls := CollectCalls(blocks, decode);
    assert calls == NativeCalls(events, decode);
    out := Conclude(held, calls, parse, completionTokens, sofar, Texts(events));
    TurnIsVisible(Texts(events), calls, parse);
    NativeCallsAre(events, decode);
    TailIsParsed(Concat(Texts(events)), calls, parse);
  }

  lemma ShownAtTheEnd<A>(chunks: seq<string>, held: Holdback, out: string, native: seq<Call<A>>, parse: string -> seq<Call<A>>)
    requires held.Valid() && Streamed(chunks) == (held, out)
    ensures held.fullText == Concat(chunks)
    ensures Shown(chunks, native, parse) ==
            if held.markerIdx == -1 || TurnCalls(held.fullText, held.markerIdx, native, parse) == []
            then out + Slice(held.fullText, held.emittedLen, |held.fullText|) else out
  {
    StreamedIsReleased(chunks);
  }

  /** After the last event: the flush of held-back text, the calls, the closing event. */
  method Conclude<A>(held: Holdback, native: seq<Call<A>>, parse: string -> seq<Call<A>>, completionTokens: int,
                     sofar: seq<StreamEvent<A>>, ghost chunks: seq<string>)
    returns (out: seq<StreamEvent<A>>)
    requires held.Valid() && Streamed(chunks) == (held, TokenText(sofar)) && CallsIn(sofar) == []
    ensures TokenText(out) == Shown(chunks, native, parse)
    ensures CallsIn(out) == TurnCalls(Concat(chunks), held.markerIdx, native, parse)
    ensures out != [] && out[|out| - 1] == Done(if completionTokens > 1 then completionTokens else 1)
  {
    ShownAtTheEnd(chunks, held, TokenText(sofar), native, parse);
    var calls;
    out, calls := Flush(held, native, parse, sofar);
    out := Close(out, calls, completionTokens);
  }

  method Close<A>(sofar: seq<StreamEvent<A>>, calls: seq<Call<A>>, completionTokens: int) returns (out: seq<StreamEvent<A>>)
    requires CallsIn(sofar) == []
    ensures TokenText(out) == TokenText(sofar) && CallsIn(out) == calls
    ensures out != [] && out[|out| - 1] == Done(if completionTokens > 1 then completionTokens else 1)
  {
    out := sofar;
    if calls != [] {
      out := Yield(out, ToolCalls(calls));
    }
    out := Yield(out, Done(if completionTokens > 1 then completionTokens else 1));
  }

  method Flush<A>(held: Holdback, native: seq<Call<A>>, parse: string -> seq<Call<A>>, sofar: seq<StreamEvent<A>>)
    returns (out: seq<StreamEvent<A>>, calls: seq<Call<A>>)
    requires held.Valid() && CallsIn(sofar) == []
    ensures CallsIn(out) == []
    ensures calls == TurnCalls(held.fullText, held.markerIdx, native, parse)
    ensures TokenText(out) ==
            if held.markerIdx == -1 || calls == []
            then TokenText(sofar) + Slice(held.fullText, held.emittedLen, |held.fullText|)
            else TokenText(sofar)
  {
    var fullText, markerIdx := held.fullText, held.markerIdx;
    var emittedLen := held.emittedLen;
    out, calls := sofar, native;
    assert TokenText(sofar) + "" == TokenText(sofar);
    if markerIdx == -1 && |fullText| > emittedLen {
      out := Yield(out, Token(Slice(fullText, emittedLen, |fullText|)));
      emittedLen := |fullText|;
    }
    if calls == [] && markerIdx != -1 {
      calls := parse(Slice(fullText, markerIdx, |fullText|));
      if calls == [] && |fullText| > emittedLen {
        out := Yield(out, Token(Slice(fullText, emittedLen, |fullText|)));
        emittedLen := |fullText|;
      }
    }
  }
}
