/** The store's own methods, two for whatever awaits the network, are the events of the runs: what is proved of
    every run holds of a store driven by any interleaving of them. */
module StoreRuns {
  import opened Collections
  import opened TokenStore
  import RefreshRuns
  import SignInRuns

  // ----- The token file -----

  method StartRefresh(store: Store, refreshing: map<nat, Tokens>, id: nat, readOk: bool) returns (refreshing': map<nat, Tokens>)
    requires id !in refreshing
    ensures RefreshRuns.Desk(store.file, refreshing') ==
            RefreshRuns.After(store.key, store.provider, RefreshRuns.Desk(store.file, refreshing), RefreshRuns.StartRefresh(id, readOk))
  {
    var held, problem := store.BeginForceRefresh(readOk);
    refreshing' := if held.Some? then refreshing[id := held.value] else refreshing;
  }

  method EndRefresh(store: Store, refreshing: map<nat, Tokens>, id: nat, answer: Option<Reply>, now: int, readOk: bool, writeOk: bool)
    returns (refreshing': map<nat, Tokens>)
    requires id in refreshing
    modifies store
    ensures RefreshRuns.Desk(store.file, refreshing') ==
            RefreshRuns.After(store.key, store.provider, RefreshRuns.Desk(old(store.file), refreshing),
                              RefreshRuns.EndRefresh(id, answer, now, readOk, writeOk))
    ensures store.pending == old(store.pending)
  {
    var problem := store.EndForceRefresh(refreshing[id], answer, now, readOk, writeOk);
    refreshing' := refreshing - {id};
  }

  /** A token that is about to expire is refreshed in the same way. */
  method EndExpired(store: Store, refreshing: map<nat, Tokens>, id: nat, answer: Option<Reply>, now: int, readOk: bool, writeOk: bool)
    returns (token: string, refreshing': map<nat, Tokens>)
    requires id in refreshing
    modifies store
    ensures RefreshRuns.Desk(store.file, refreshing') ==
            RefreshRuns.After(store.key, store.provider, RefreshRuns.Desk(old(store.file), refreshing),
                              RefreshRuns.EndRefresh(id, answer, now, readOk, writeOk))
    ensures token == if answer.Some? && answer.value.access != "" then answer.value.access else refreshing[id].access
  {
    token := store.EndGetToken(refreshing[id], answer, now, readOk, writeOk);
    refreshing' := refreshing - {id};
  }

  method FinishSignIn(store: Store, refreshing: map<nat, Tokens>, reply: Reply, now: int, readOk: bool, writeOk: bool, deleteOk: bool)
    modifies store
    ensures RefreshRuns.Desk(store.file, refreshing) ==
            RefreshRuns.After(store.key, store.provider, RefreshRuns.Desk(old(store.file), refreshing),
                              RefreshRuns.SignIn(reply, now, readOk, writeOk))
  {
    var problem := store.EndCompletion(Some(reply), now, readOk, writeOk, deleteOk);
  }

  method SignOut(store: Store, refreshing: map<nat, Tokens>, unlinked: bool, deleteOk: bool)
    modifies store
    ensures RefreshRuns.Desk(store.file, refreshing) ==
            RefreshRuns.After(store.key, store.provider, RefreshRuns.Desk(old(store.file), refreshing), RefreshRuns.SignOut(unlinked))
  {
    store.SignOutNow(unlinked, deleteOk);
  }

  // ----- The pending sign-in -----

  method BeginSignIn(store: Store, f: SignInRuns.Flow, pair: Pending, writeOk: bool) returns (f': SignInRuns.Flow)
    requires f.pending == store.pending
    modifies store
    ensures f' == SignInRuns.After(f, SignInRuns.Begin(pair, writeOk)) && f'.pending == store.pending
  {
    store.NewPkce(pair.verifier, pair.state, writeOk);
    f' := SignInRuns.After(f, SignInRuns.Begin(pair, writeOk));
  }

  method StartExchange(store: Store, f: SignInRuns.Flow, id: nat, callback: Callback, readOk: bool) returns (f': SignInRuns.Flow)
    requires f.pending == store.pending && id !in f.exchanging
    ensures f' == SignInRuns.After(f, SignInRuns.StartExchange(id, callback, readOk)) && f'.pending == store.pending
    ensures id in f'.exchanging ==> Some(f'.exchanging[id].pair) == store.pending && !f'.exchanging[id].overlapped
  {
    var used, problem := store.BeginCompletion(callback, readOk);
    f' := if used.Some? then f.(exchanging := f.exchanging[id := SignInRuns.Exchange(used.value, false)]) else f;
  }

  method EndExchange(store: Store, f: SignInRuns.Flow, id: nat, reply: Option<Reply>, now: int, readOk: bool, writeOk: bool, deleteOk: bool)
    returns (f': SignInRuns.Flow)
    requires f.pending == store.pending && id in f.exchanging
    modifies store
    ensures f' == SignInRuns.After(f, SignInRuns.EndExchange(id, reply.Some?, deleteOk)) && f'.pending == store.pending
  {
    var problem := store.EndCompletion(reply, now, readOk, writeOk, deleteOk);
    f' := SignInRuns.After(f, SignInRuns.EndExchange(id, reply.Some?, deleteOk));
  }

  method Forget(store: Store, f: SignInRuns.Flow, unlinked: bool, deleteOk: bool) returns (f': SignInRuns.Flow)
    requires f.pending == store.pending
    modifies store
    ensures f' == SignInRuns.After(f, SignInRuns.Forget(deleteOk)) && f'.pending == store.pending
  {
    store.SignOutNow(unlinked, deleteOk);
    f' := SignInRuns.After(f, SignInRuns.Forget(deleteOk));
  }
}
