/** The content blocks of a streamed answer, assembled by index from its events, and the native tool calls
    among them. JSON decoding is a parameter. */
module ContentBlocks {
  import opened Collections

  datatype Delta = TextDelta(text: string) | JsonDelta(partialJson: string) | OtherDelta

  datatype Event =
    | BlockStart(index: int, kind: string, id: string, name: string)
    | BlockDelta(index: int, delta: Delta)
    | MessageDelta(outputTokens: Option<int>)
    | ErrorEvent(message: string)
    | OtherEvent

  datatype Call<A> = Call(id: string, name: string, arguments: A)

  // ----- Blocks -----

  datatype Block = Block(kind: string, id: string, name: string, json: string, text: string)

  const TOOL_USE := "tool_use"

  function Extend(block: Block, delta: Delta): Block {
    match delta
    case TextDelta(text) => block.(text := block.text + text)
    case JsonDelta(json) => block.(json := block.json + json)
    case OtherDelta => block
  }

  function Assemble(blocks: map<int, Block>, e: Event): map<int, Block> {
    match e
    case BlockStart(i, kind, id, name) => blocks[i := Block(kind, id, name, "", "")]
    case BlockDelta(i, delta) =>
      blocks[i := Extend(if i in blocks then blocks[i] else Block("text", "", "", "", ""), delta)]
    case _ => blocks
  }

  function Blocks(events: seq<Event>): map<int, Block> {
    if events == [] then map[] else Assemble(Blocks(events[..|events| - 1]), events[|events| - 1])
  }

  predicate Concerns(e: Event, i: int) {
    (e.BlockStart? || e.BlockDelta?) && e.index == i
  }

  /** The events of one block, in order. */
  function Own(events: seq<Event>, i: int): seq<Event> {
    if events == [] then [] else
    var last := events[|events| - 1];
    Own(events[..|events| - 1], i) + if Concerns(last, i) then [last] else []
  }

  function Least(s: set<int>): (k: int)
    requires s != {}
    ensures k in s && forall j <- s :: k <= j
  {
    LeastExists(s);
    var k :| k in s && forall j <- s :: k <= j;
    k
  }

  lemma {:induction false} LeastExists(s: set<int>)
    requires s != {}
    ensures exists k :: k in s && forall j <- s :: k <= j
  {
    var x := Any(s);
    var rest := s - {x};
    assert forall j <- s :: j == x || j in rest;
    if rest == {} {
      assert forall j <- s :: x <= j;
    } else {
      LeastExists(rest);
      var k :| k in rest && forall j <- rest :: k <= j;
      var least := if k <= x then k else x;
      assert least in s && forall j <- s :: least <= j;
    }
  }

  /** `sorted(blocks)`: every key once, in ascending order. */
  function Ascending(s: set<int>): (keys: seq<int>)
    ensures forall k :: k in keys <==> k in s
    ensures forall a | 0 <= a < |keys| :: keys[a] in s
    ensures forall a, b | 0 <= a < b < |keys| :: keys[a] < keys[b]
  {
    if s == {} then [] else
    var k := Least(s);
    [k] + Ascending(s - {k})
  }

  function CallsOf<A>(blocks: map<int, Block>, keys: seq<int>, decode: string -> A): seq<Call<A>>
    requires forall i | 0 <= i < |keys| :: keys[i] in blocks
  {
    if keys == [] then [] else
    var b := blocks[keys[|keys| - 1]];
    CallsOf(blocks, keys[..|keys| - 1], decode) +
    if b.kind == TOOL_USE then [Call(b.id, b.name, decode(b.json))] else []
  }

  /** The native tool calls of a run of events, in the order of their block indexes. */
  function NativeCalls<A>(events: seq<Event>, decode: string -> A): seq<Call<A>> {
    var blocks := Blocks(events);
    CallsOf(blocks, Ascending(blocks.Keys), decode)
  }

  lemma {:induction false} BlockHasItsOwnEvents(events: seq<Event>, i: int)
    ensures i in Blocks(events) <==> i in Blocks(Own(events, i))
    ensures i in Blocks(events) ==> Blocks(events)[i] == Blocks(Own(events, i))[i]
  {
    if events != [] {
      var before, last := events[..|events| - 1], events[|events| - 1];
      BlockHasItsOwnEvents(before, i);
      if Concerns(last, i) {
        assert Own(events, i)[..|Own(before, i)|] == Own(before, i);
      } else {
        assert Own(events, i) == Own(before, i);
      }
    }
  }

  /** Any interleaving that keeps the order of each block's own events shows the same native calls. */
  lemma InterleavingDoesNotMatter<A>(a: seq<Event>, b: seq<Event>, decode: string -> A)
    requires forall i :: Own(a, i) == Own(b, i)
    ensures NativeCalls(a, decode) == NativeCalls(b, decode)
  {
    forall i
      ensures i in Blocks(a) <==> i in Blocks(b)
      ensures i in Blocks(a) ==> Blocks(a)[i] == Blocks(b)[i]
    {
      assert Own(a, i) == Own(b, i);
      BlockHasItsOwnEvents(a, i);
      BlockHasItsOwnEvents(b, i);
    }
    assert Blocks(a).Keys == Blocks(b).Keys;
    assert Blocks(a) == Blocks(b);
  }

  // ----- What a native call is -----

  /** Event `k` is the last start of block `i`. */
  ghost predicate StartsLast(events: seq<Event>, i: int, k: nat) {
    && k < |events| && events[k].BlockStart? && events[k].index == i
    && forall j | k < j < |events| :: !(events[j].BlockStart? && events[j].index == i)
  }

  function IsFragmentOf(i: int): Event -> bool {
    (e: Event) => e.BlockDelta? && e.index == i && e.delta.JsonDelta?
  }

  function Fragment(e: Event): string {
    if e.BlockDelta? && e.delta.JsonDelta? then e.delta.partialJson else ""
  }

  /** The JSON of block `i` after these events: its fragments, joined as they arrived. */
  ghost predicate JsonOf(since: seq<Event>, i: int, json: string) {
    exists fragments :: Picked(since, IsFragmentOf(i), Fragment, fragments) && json == Concat(fragments)
  }

  lemma JsonOfNone(i: int)
    ensures JsonOf([], i, "")
  {
    PickedNone(IsFragmentOf(i), Fragment);
    assert Concat([]) == "";
  }

  lemma JsonOneMore(since: seq<Event>, i: int, json: string, e: Event)
    requires JsonOf(since, i, json)
    ensures IsFragmentOf(i)(e) ==> JsonOf(since + [e], i, json + Fragment(e))
    ensures !IsFragmentOf(i)(e) ==> JsonOf(since + [e], i, json)
  {
    var fragments :| Picked(since, IsFragmentOf(i), Fragment, fragments) && json == Concat(fragments);
    PickedOneMore(since, IsFragmentOf(i), Fragment, fragments, e);
    if IsFragmentOf(i)(e) {
      var more := fragments + [Fragment(e)];
      assert more[..|fragments|] == fragments;
      assert Concat(more) == json + Fragment(e);
    }
  }

  /** A block carries what its last start says, and its fragments since then. */
  lemma {:induction false} BlockIs(events: seq<Event>, i: int, k: nat)
    requires StartsLast(events, i, k)
    ensures i in Blocks(events)
    ensures var (b, start) := (Blocks(events)[i], events[k]);
            b.kind == start.kind && b.id == start.id && b.name == start.name && JsonOf(events[k + 1..], i, b.json)
  {
    var n := |events| - 1;
    if k == n {
      JsonOfNone(i);
      assert events[k + 1..] == [];
    } else {
      var before, last := events[..n], events[n];
      assert StartsLast(before, i, k);
      BlockIs(before, i, k);
      var json := Blocks(before)[i].json;
      JsonOneMore(before[k + 1..], i, json, last);
      assert events[k + 1..] == before[k + 1..] + [last];
      BlockOneMore(Blocks(before), i, last);
    }
  }

  /** What one event that does not start a block does to it. */
  lemma BlockOneMore(blocks: map<int, Block>, i: int, e: Event)
    requires i in blocks && !(e.BlockStart? && e.index == i)
    ensures var (b, b') := (blocks[i], Assemble(blocks, e)[i]);
            && b'.kind == b.kind && b'.id == b.id && b'.name == b.name
            && b'.json == if IsFragmentOf(i)(e) then b.json + Fragment(e) else b.json
  {
  }

  lemma {:induction false} NoStartNoCall(events: seq<Event>, i: int)
    requires i in Blocks(events) && forall k: nat :: !StartsLast(events, i, k)
    ensures Blocks(events)[i].kind != TOOL_USE
  {
    var n := |events| - 1;
    var before, last := events[..n], events[n];
    assert !StartsLast(events, i, n);
    forall k: nat
      ensures !StartsLast(before, i, k)
    {
      assert StartsLast(before, i, k) ==> StartsLast(events, i, k);
    }
    if i in Blocks(before) {
      NoStartNoCall(before, i);
    }
  }

  /** `call` is what block `i` asks for. */
  ghost predicate CallIs<A(!new)>(events: seq<Event>, i: int, call: Call<A>, decode: string -> A) {
    exists k: nat, json :: StartsLast(events, i, k) && events[k].kind == "tool_use" && JsonOf(events[k + 1..], i, json)
                           && call == Call(events[k].id, events[k].name, decode(json))
  }

  ghost predicate IsTool(events: seq<Event>, i: int) {
    exists k: nat :: StartsLast(events, i, k) && events[k].kind == "tool_use"
  }

  ghost predicate CallsAt<A(!new)>(events: seq<Event>, indexes: seq<int>, calls: seq<Call<A>>, decode: string -> A) {
    && (forall a, b | 0 <= a < b < |indexes| :: indexes[a] < indexes[b])
    && (forall i :: i in indexes <==> IsTool(events, i))
    && EachIs(events, indexes, calls, decode)
  }

  /** One call for every block whose last start is one of a tool, in the order of the block indexes. */
  ghost predicate AreCalls<A(!new)>(events: seq<Event>, calls: seq<Call<A>>, decode: string -> A) {
    exists indexes :: CallsAt(events, indexes, calls, decode)
  }

  lemma ToolBlock<A(!new)>(events: seq<Event>, i: int, decode: string -> A)
    requires i in Blocks(events)
    ensures var b := Blocks(events)[i];
            if b.kind == TOOL_USE then IsTool(events, i) && CallIs(events, i, Call(b.id, b.name, decode(b.json)), decode)
            else !IsTool(events, i)
  {
    if k: nat :| StartsLast(events, i, k) {
      BlockIs(events, i, k);
      forall j: nat | StartsLast(events, i, j)
        ensures j == k
      {
      }
    } else {
      NoStartNoCall(events, i);
    }
  }

  /** The keys of the tool-use blocks. */
  function ToolKeys(blocks: map<int, Block>, keys: seq<int>): (tools: seq<int>)
    requires forall a | 0 <= a < |keys| :: keys[a] in blocks
    ensures forall i :: i in tools <==> i in keys && i in blocks && blocks[i].kind == TOOL_USE
    ensures (forall a, b | 0 <= a < b < |keys| :: keys[a] < keys[b]) ==> forall a, b | 0 <= a < b < |tools| :: tools[a] < tools[b]
  {
    if keys == [] then [] else
    var n := |keys| - 1;
    assert forall i :: i in keys <==> i in keys[..n] || i == keys[n];
    var tools := ToolKeys(blocks, keys[..n]);
    assert forall a | 0 <= a < |tools| :: tools[a] in tools;
    if blocks[keys[n]].kind == TOOL_USE then tools + [keys[n]] else tools
  }

  lemma {:induction false} CallsOfKeys<A(!new)>(events: seq<Event>, keys: seq<int>, decode: string -> A)
    requires forall a | 0 <= a < |keys| :: keys[a] in Blocks(events)
    ensures EachIs(events, ToolKeys(Blocks(events), keys), CallsOf(Blocks(events), keys, decode), decode)
  {
    if keys != [] {
      var n := |keys| - 1;
      var b := Blocks(events)[keys[n]];
      CallsOfKeys(events, keys[..n], decode);
      var calls := CallsOf(Blocks(events), keys[..n], decode);
      ToolBlock(events, keys[n], decode);
      if b.kind == TOOL_USE {
        OneMoreCall(events, ToolKeys(Blocks(events), keys[..n]), calls, keys[n], Call(b.id, b.name, decode(b.json)), decode);
      } else {
        assert calls + [] == calls;
      }
    }
  }

  ghost predicate EachIs<A(!new)>(events: seq<Event>, indexes: seq<int>, calls: seq<Call<A>>, decode: string -> A) {
    |calls| == |indexes| && forall a | 0 <= a < |calls| :: CallIs(events, indexes[a], calls[a], decode)
  }

  lemma OneMoreCall<A(!new)>(events: seq<Event>, indexes: seq<int>, calls: seq<Call<A>>, i: int, call: Call<A>, decode: string -> A)
    requires EachIs(events, indexes, calls, decode) && CallIs(events, i, call, decode)
    ensures EachIs(events, indexes + [i], calls + [call], decode)
  {
  }

  /** What the blocks come to, said of the events alone. */
  lemma NativeCallsAre<A(!new)>(events: seq<Event>, decode: string -> A)
    ensures AreCalls(events, NativeCalls(events, decode), decode)
  {
    var keys := Ascending(Blocks(events).Keys);
    var tools := ToolKeys(Blocks(events), keys);
    CallsOfKeys(events, keys, decode);
    forall i
      ensures i in tools <==> IsTool(events, i)
    {
      ToolsAreTheTools(events, i, decode);
    }
    assert CallsAt(events, tools, NativeCalls(events, decode), decode);
  }

  lemma ToolsAreTheTools<A(!new)>(events: seq<Event>, i: int, decode: string -> A)
    ensures IsTool(events, i) <==> i in Blocks(events) && Blocks(events)[i].kind == TOOL_USE
  {
    if i in Blocks(events) {
      ToolBlock(events, i, decode);
    } else if k: nat :| StartsLast(events, i, k) && events[k].kind == "tool_use" {
      BlockIs(events, i, k);
    }
  }

  // ----- Collecting the calls -----

  lemma OneMoreKey<A>(blocks: map<int, Block>, keys: seq<int>, i: nat, decode: string -> A)
    requires i < |keys| && forall j | 0 <= j < |keys| :: keys[j] in blocks
    ensures var b := blocks[keys[i]];
            CallsOf(blocks, keys[..i + 1], decode) ==
            if b.kind == TOOL_USE then CallsOf(blocks, keys[..i], decode) + [Call(b.id, b.name, decode(b.json))]
            else CallsOf(blocks, keys[..i], decode)
  {
    assert keys[..i + 1][..i] == keys[..i];
  }

  /** `sorted(blocks.items())`, keeping the tool-use blocks. */
  method CollectCalls<A>(blocks: map<int, Block>, decode: string -> A) returns (calls: seq<Call<A>>)
    ensures calls == CallsOf(blocks, Ascending(blocks.Keys), decode)
  {
    var keys := Ascending(blocks.Keys);
    calls := [];
    for i := 0 to |keys|
      invariant calls == CallsOf(blocks, keys[..i], decode)
    {
      OneMoreKey(blocks, keys, i, decode);
      var blk := blocks[keys[i]];
      if blk.kind == TOOL_USE {
        calls := calls + [Call(blk.id, blk.name, decode(blk.json))];
      }
    }
    assert keys[..|keys|] == keys;
  }
}
