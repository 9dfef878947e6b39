/** Whole runs over the token file. A refresh reads the tokens, waits for the network, and writes; sign-ins,
    sign-outs and other refreshes may come in between. */
module RefreshRuns {
  import opened Collections
  import opened TokenStore

  // ----- One event at a time -----

  /** The token file, and what each refresh under way has read. */
  datatype Desk = Desk(file: File, refreshing: map<nat, Tokens>)

  datatype Event =
    | SignIn(reply: Reply, now: int, readOk: bool, writeOk: bool)   // the write that completes a sign-in
    | StartRefresh(id: nat, readOk: bool)
    | EndRefresh(id: nat, answer: Option<Reply>, now: int, readOk: bool, writeOk: bool)
    | SignOut(unlinked: bool)

  function After(k: Key, p: Provider, d: Desk, e: Event): Desk {
    match e
    case SignIn(reply, now, readOk, writeOk) =>
      d.(file := FileAfterWrite(k, d.file, SignInGrant(p, reply), now, readOk, writeOk))
    case StartRefresh(id, readOk) =>
      var held := Decrypted(k, Read(d.file, readOk));
      if id in d.refreshing || held.refresh == "" then d else d.(refreshing := d.refreshing[id := held])
    case EndRefresh(id, answer, now, readOk, writeOk) =>
      if id !in d.refreshing then d else
      Desk(FileAfterRefresh(k, p, d.file, d.refreshing[id], answer, now, readOk, writeOk), d.refreshing - {id})
    case SignOut(unlinked) => if unlinked then d.(file := Missing) else d
  }

  function Stored(k: Key, d: Desk): string {
    PlainRefresh(k, d.file)
  }

  /** Each refresh under way was made with a refresh token. */
  ghost predicate Valid(d: Desk) {
    forall id <- d.refreshing :: d.refreshing[id].refresh != ""
  }

  /** The event writes the token file. */
  predicate Writes(d: Desk, e: Event) {
    || (e.SignIn? && e.writeOk)
    || (e.EndRefresh? && e.id in d.refreshing && Granted(e.answer) && e.writeOk)
  }

  /** The refresh token in the response that the event writes down; empty if there is none. */
  function Issued(d: Desk, e: Event): string {
    if !Writes(d, e) then "" else
    var reply := if e.SignIn? then e.reply else e.answer.value;
    if reply.refresh.Some? then reply.refresh.value else ""
  }

  /** The token last issued to this store since it was last signed out. */
  function Newest(d: Desk, e: Event, newest: string): string {
    if e.SignOut? && e.unlinked then "" else OrKept(Issued(d, e), newest)
  }

  /** A refresh ends with a response that has no refresh token, and writes back the one it read, although
      the store holds another by now. */
  predicate Stale(k: Key, d: Desk, e: Event) {
    e.EndRefresh? && Writes(d, e) && e.answer.value.refresh.None? && d.refreshing[e.id].refresh != Stored(k, d)
  }

  /** A write that brings no refresh token, and could not read the one the store holds. */
  predicate Blanks(k: Key, d: Desk, e: Event) {
    && Writes(d, e) && Issued(d, e) == "" && !(e.EndRefresh? && e.answer.value.refresh.None?)
    && !e.readOk && Stored(k, d) != ""
  }

  /** A store that holds the newest token goes on to do so exactly unless one of the two happens. */
  lemma StepKeepsNewestIff(k: Key, p: Provider, d: Desk, e: Event)
    requires Sound(k) && Valid(d)
    ensures Valid(After(k, p, d, e))
    ensures Stored(k, After(k, p, d, e)) == Newest(d, e, Stored(k, d)) <==> !Stale(k, d, e) && !Blanks(k, d, e)
  {
    if Writes(d, e) {
      var g := if e.SignIn? then SignInGrant(p, e.reply) else RefreshGrant(p, d.refreshing[e.id], e.answer.value);
      RefreshAfterWrite(k, d.file, g, e.now, e.readOk, e.writeOk);
    }
  }

  // ----- Runs -----

  function AfterAll(k: Key, p: Provider, d: Desk, events: seq<Event>): Desk
    decreases |events|
  {
    if events == [] then d else AfterAll(k, p, After(k, p, d, events[0]), events[1..])
  }

  function NewestOfAll(k: Key, p: Provider, d: Desk, events: seq<Event>, newest: string): string
    decreases |events|
  {
    if events == [] then newest
    else NewestOfAll(k, p, After(k, p, d, events[0]), events[1..], Newest(d, events[0], newest))
  }

  /** The store holds the newest token at every moment of the run. */
  ghost predicate HoldsNewest(k: Key, p: Provider, d: Desk, events: seq<Event>, newest: string)
    decreases |events|
  {
    && Stored(k, d) == newest
    && (events != [] ==> HoldsNewest(k, p, After(k, p, d, events[0]), events[1..], Newest(d, events[0], newest)))
  }

  predicate LosesNothing(k: Key, p: Provider, d: Desk, events: seq<Event>)
    decreases |events|
  {
    events != [] ==>
      && !Stale(k, d, events[0]) && !Blanks(k, d, events[0])
      && LosesNothing(k, p, After(k, p, d, events[0]), events[1..])
  }

  /** Over any interleaving of sign-ins, refreshes, failed reads and writes and sign-outs, the store always
      holds the newest token issued to it, or none after a sign-out, if and only if no stale refresh writes
      and no write blanks. */
  lemma {:induction false} NewestIsHeldIff(k: Key, p: Provider, d: Desk, events: seq<Event>)
    requires Sound(k) && Valid(d)
    ensures HoldsNewest(k, p, d, events, Stored(k, d)) <==> LosesNothing(k, p, d, events)
    decreases |events|
  {
    if events != [] {
      var d' := After(k, p, d, events[0]);
      StepKeepsNewestIff(k, p, d, events[0]);
      if Stored(k, d') == Newest(d, events[0], Stored(k, d)) {
        NewestIsHeldIff(k, p, d', events[1..]);
      }
    }
  }

  /** Nothing else changes the token while a refresh is under way. */
  predicate Alone(d: Desk, e: Event) {
    Writes(d, e) || (e.SignOut? && e.unlinked) ==>
      forall id <- d.refreshing :: e.EndRefresh? && id == e.id
  }

  predicate AllAlone(k: Key, p: Provider, d: Desk, events: seq<Event>)
    decreases |events|
  {
    events != [] ==> Alone(d, events[0]) && AllAlone(k, p, After(k, p, d, events[0]), events[1..])
  }

  ghost predicate ReadNow(k: Key, d: Desk) {
    forall id <- d.refreshing :: d.refreshing[id].refresh == Stored(k, d)
  }

  /** So refreshes that no write and no sign-out overlaps, on a file that can be read, lose nothing. */
  lemma {:induction false} SerialRunsLoseNothing(k: Key, p: Provider, d: Desk, events: seq<Event>)
    requires Sound(k) && Valid(d) && ReadNow(k, d) && AllAlone(k, p, d, events)
    requires forall i | 0 <= i < |events| && (events[i].SignIn? || events[i].EndRefresh?) :: events[i].readOk
    ensures LosesNothing(k, p, d, events) && HoldsNewest(k, p, d, events, Stored(k, d))
    decreases |events|
  {
    if events != [] {
      var e, d' := events[0], After(k, p, d, events[0]);
      StepKeepsNewestIff(k, p, d, e);
      assert ReadNow(k, d') by {
        if Writes(d, e) || (e.SignOut? && e.unlinked) {
          assert d'.refreshing == map[];
        }
      }
      SerialRunsLoseNothing(k, p, d', events[1..]);
    }
    NewestIsHeldIff(k, p, d, events);
  }

  lemma First(k: Key, p: Provider, d: Desk, e: Event, rest: seq<Event>, newest: string)
    ensures var d', events := After(k, p, d, e), [e] + rest;
            && AfterAll(k, p, d, events) == AfterAll(k, p, d', rest)
            && NewestOfAll(k, p, d, events, newest) == NewestOfAll(k, p, d', rest, Newest(d, e, newest))
            && (LosesNothing(k, p, d, events) ==> !Stale(k, d, e) && LosesNothing(k, p, d', rest))
  {
    assert ([e] + rest)[1..] == rest;
  }

  /** A concrete loss: a sign-in stores R2 while a refresh made with R1 is under way; the refresh ends
      without a new token and puts R1 back. */
  lemma StaleRefreshReplacesNewer(k: Key, p: Provider, d: Desk, tokens: Tokens, events: seq<Event>)
    requires Sound(k) && d == Desk(Present(Encrypted(k, tokens)), map[]) && tokens.refresh == "R1"
    requires events == [StartRefresh(0, true), SignIn(Reply("A2", Some("R2"), "", "", 0), 0, true, true),
                        EndRefresh(0, Some(Reply("A1", None, "", "", 0)), 0, true, true)]
    ensures NewestOfAll(k, p, d, events, "R1") == "R2"
    ensures Stored(k, AfterAll(k, p, d, events)) == "R1"
    ensures !LosesNothing(k, p, d, events)
  {
    DecryptUndoesEncrypt(k, "R1");
    var e0, e1, e2 := events[0], events[1], events[2];
    var d1 := After(k, p, d, e0);
    var d2 := After(k, p, d1, e1);
    var d3 := After(k, p, d2, e2);
    assert d1.refreshing[0].refresh == "R1" && d2.refreshing == d1.refreshing;
    RefreshAfterWrite(k, d1.file, SignInGrant(p, e1.reply), 0, true, true);
    RefreshAfterWrite(k, d2.file, RefreshGrant(p, d1.refreshing[0], e2.answer.value), 0, true, true);
    assert Stored(k, d2) == "R2" && Stored(k, d3) == "R1" && Stale(k, d2, e2);
    assert Newest(d, e0, "R1") == "R1" && Newest(d1, e1, "R1") == "R2" && Newest(d2, e2, "R2") == "R2";
    First(k, p, d2, e2, [], "R2");
    First(k, p, d1, e1, [e2] + [], "R1");
    First(k, p, d, e0, [e1] + ([e2] + []), "R1");
    assert events == [e0] + ([e1] + ([e2] + []));
  }

  // ----- After a sign-out -----

  predicate NoWrite(k: Key, p: Provider, d: Desk, events: seq<Event>)
    decreases |events|
  {
    events != [] ==> !Writes(d, events[0]) && NoWrite(k, p, After(k, p, d, events[0]), events[1..])
  }

  lemma {:induction false} OncePresent(k: Key, p: Provider, d: Desk, events: seq<Event>)
    requires d.file.Present? && forall i | 0 <= i < |events| :: !events[i].SignOut?
    ensures AfterAll(k, p, d, events).file.Present?
    decreases |events|
  {
    if events != [] {
      OncePresent(k, p, After(k, p, d, events[0]), events[1..]);
    }
  }

  /** A signed-out store stays empty exactly until a sign-in, or a refresh that was under way when the user
      signed out, writes. */
  lemma {:induction false} SignedOutIff(k: Key, p: Provider, d: Desk, events: seq<Event>)
    requires d.file == Missing && forall i | 0 <= i < |events| :: !events[i].SignOut?
    ensures AfterAll(k, p, d, events).file == Missing <==> NoWrite(k, p, d, events)
    ensures d.refreshing == map[] && (forall i | 0 <= i < |events| :: !events[i].SignIn?) ==> NoWrite(k, p, d, events)
    decreases |events|
  {
    DecryptOfNothing(k);
    if events != [] {
      var d' := After(k, p, d, events[0]);
      if Writes(d, events[0]) {
        OncePresent(k, p, d', events[1..]);
      } else {
        SignedOutIff(k, p, d', events[1..]);
      }
    }
  }

  /** A concrete run in which a refresh that was under way brings the tokens back after a sign-out. */
  lemma RefreshUndoesSignOut(k: Key, p: Provider, d: Desk, held: Tokens, events: seq<Event>)
    requires Sound(k) && d.refreshing == map[0 := held] && held.refresh != ""
    requires events == [SignOut(true), EndRefresh(0, Some(Reply("A", None, "", "", 0)), 0, true, true)]
    ensures Stored(k, AfterAll(k, p, d, events)) == held.refresh
  {
    var d1 := After(k, p, d, events[0]);
    First(k, p, d1, events[1], [], "");
    First(k, p, d, events[0], [events[1]] + [], "");
    assert events == [events[0]] + ([events[1]] + []);
    RefreshAfterWrite(k, d1.file, RefreshGrant(p, held, events[1].answer.value), 0, true, true);
  }
}
