/** The OAuth token stores of the ChatGPT and Claude sign-ins: secrets encrypted at rest, writes that keep
    what they are not given, refresh before expiry, and the pending PKCE sign-in. The clock, the network
    and the outcome of each file operation are parameters; Fernet is a given pair of functions. */
module TokenStore {
  import opened Collections

  // ----- Secrets at rest -----

  const PREFIX := "enc:v1:"

  /** `unseal` fails on what was not sealed with this key. */
  datatype Key = Key(seal: string -> string, unseal: string -> Option<string>)

  ghost predicate Sound(k: Key) {
    forall p :: k.unseal(k.seal(p)) == Some(p)
  }

  function Encrypt(k: Key, plain: string): string {
    if plain == "" then "" else PREFIX + k.seal(plain)
  }

  /** Text without the prefix is legacy plaintext; a blob that does not open reads as empty. */
  function Decrypt(k: Key, stored: string): string {
    if !(PREFIX <= stored) then stored else
    match k.unseal(stored[|PREFIX|..])
    case Some(plain) => plain
    case None => ""
  }

  lemma DecryptUndoesEncrypt(k: Key, plain: string)
    requires Sound(k)
    ensures Decrypt(k, Encrypt(k, plain)) == plain
  {
    if plain != "" {
      assert (PREFIX + k.seal(plain))[|PREFIX|..] == k.seal(plain);
    }
  }

  /** What can be read of a stored secret: sealed text, the text of an older store, or nothing. */
  lemma DecryptIs(k: Key, s: string)
    requires Sound(k)
    ensures forall plain | s == "enc:v1:" + k.seal(plain) :: Decrypt(k, s) == plain
    ensures !("enc:v1:" <= s) ==> Decrypt(k, s) == s
    ensures "enc:v1:" <= s && k.unseal(s[7..]) == None ==> Decrypt(k, s) == ""
  {
    forall plain | s == "enc:v1:" + k.seal(plain)
      ensures Decrypt(k, s) == plain
    {
      assert s[|PREFIX|..] == k.seal(plain);
    }
  }

  // ----- The token file -----

  /** The stored record, an empty field standing for an absent one. ChatGPT uses `idToken`, Claude
      `expiresAt`; `account` is the account or organisation id. */
  datatype Tokens = Tokens(access: string, refresh: string, idToken: string, account: string, expiresAt: int)

  const NOTHING := Tokens("", "", "", "", 0)

  datatype File = Missing | Corrupt | Present(tokens: Tokens)

  /** What a token response brings; empty or zero means not given. */
  datatype Grant = Grant(access: string, refresh: string, idToken: string, account: string, expiresIn: int)

  /** Reading JSON yields the default when the file is missing, corrupt or cannot be read. */
  function Read(file: File, readOk: bool): Tokens {
    if readOk && file.Present? then file.tokens else NOTHING
  }

  function Decrypted(k: Key, t: Tokens): Tokens {
    Tokens(Decrypt(k, t.access), Decrypt(k, t.refresh), Decrypt(k, t.idToken), t.account, t.expiresAt)
  }

  function Encrypted(k: Key, t: Tokens): Tokens {
    Tokens(Encrypt(k, t.access), Encrypt(k, t.refresh), Encrypt(k, t.idToken), t.account, t.expiresAt)
  }

  function OrKept(given: string, kept: string): string {
    if given != "" then given else kept
  }

  /** The mutation behind a write: decrypt, overlay what was given, encrypt. */
  function Mutated(k: Key, stored: Tokens, g: Grant, now: int): Tokens {
    var t := Decrypted(k, stored);
    Encrypted(k, Tokens(g.access, OrKept(g.refresh, t.refresh), OrKept(g.idToken, t.idToken),
                        OrKept(g.account, t.account), if g.expiresIn != 0 then now + g.expiresIn else t.expiresAt))
  }

  function FileAfterWrite(k: Key, file: File, g: Grant, now: int, readOk: bool, writeOk: bool): File {
    if writeOk then Present(Mutated(k, Read(file, readOk), g, now)) else file
  }

  ghost predicate SealedOnce(k: Key, s: string) {
    s == "" || exists plain :: plain != "" && s == "enc:v1:" + k.seal(plain)
  }

  /** After any write that reaches the disk every secret is either empty or encrypted exactly once, and
      decrypts to what was given or else to what the store held before. */
  lemma SecretsAreSealedOnce(k: Key, stored: Tokens, g: Grant, now: int)
    requires Sound(k)
    ensures var t, before := Mutated(k, stored, g, now), Decrypted(k, stored);
            && Decrypted(k, t).access == g.access
            && Decrypted(k, t).refresh == OrKept(g.refresh, before.refresh)
            && Decrypted(k, t).idToken == OrKept(g.idToken, before.idToken)
            && t.account == OrKept(g.account, stored.account)
            && t.expiresAt == (if g.expiresIn != 0 then now + g.expiresIn else stored.expiresAt)
            && SealedOnce(k, t.access) && SealedOnce(k, t.refresh) && SealedOnce(k, t.idToken)
  {
    var before := Decrypted(k, stored);
    DecryptUndoesEncrypt(k, g.access);
    DecryptUndoesEncrypt(k, OrKept(g.refresh, before.refresh));
    DecryptUndoesEncrypt(k, OrKept(g.idToken, before.idToken));
  }

  /** Fields that are not given keep what they held. */
  predicate KeepsPrior(before: Tokens, g: Grant, after: Tokens) {
    && after.access == OrKept(g.access, before.access) && after.refresh == OrKept(g.refresh, before.refresh)
    && after.idToken == OrKept(g.idToken, before.idToken) && after.account == OrKept(g.account, before.account)
    && (g.expiresIn == 0 ==> after.expiresAt == before.expiresAt)
  }

  /** A write preserves prior fields when blank, as its description says, if and only if the access token is
      given or there was none: a blank one is written over it. */
  lemma PriorFieldsAreKeptIff(k: Key, stored: Tokens, g: Grant, now: int)
    requires Sound(k)
    ensures var before := Decrypted(k, stored);
            KeepsPrior(before, g, Decrypted(k, Mutated(k, stored, g, now))) <==> g.access != "" || before.access == ""
  {
    SecretsAreSealedOnce(k, stored, g, now);
  }

  /** A concrete sign-in response without an access token blanks the stored one. */
  lemma BlankAccessIsWritten(k: Key, now: int)
    requires Sound(k)
    ensures var stored := Encrypted(k, Tokens("A1", "R1", "", "", 0));
            var after := Decrypted(k, Mutated(k, stored, Grant("", "R2", "", "", 0), now));
            Decrypted(k, stored).access == "A1" && after.access == "" && after.refresh == "R2"
  {
    DecryptUndoesEncrypt(k, "A1");
    SecretsAreSealedOnce(k, Encrypted(k, Tokens("A1", "R1", "", "", 0)), Grant("", "R2", "", "", 0), now);
  }

  predicate HoldsRefresh(file: File) {
    file.Present? && file.tokens.refresh != ""
  }

  /** A stored refresh token survives a write if and only if the write does not reach the disk, or brings
      a refresh token, or could read the stored one back and decrypt it. */
  lemma RefreshSurvivesIff(k: Key, file: File, g: Grant, now: int, readOk: bool, writeOk: bool)
    requires Sound(k) && HoldsRefresh(file)
    ensures HoldsRefresh(FileAfterWrite(k, file, g, now, readOk, writeOk)) <==>
            !writeOk || g.refresh != "" || (readOk && Decrypt(k, file.tokens.refresh) != "")
  {
    DecryptUndoesEncrypt(k, OrKept(g.refresh, Decrypt(k, Read(file, readOk).refresh)));
  }

  /** A concrete loss: a sign-in whose response has no refresh token, written while the file cannot be
      read, blanks the stored one. */
  lemma UnreadFileLosesRefresh(k: Key, t: Tokens, access: string, now: int)
    requires t.refresh != ""
    ensures !HoldsRefresh(FileAfterWrite(k, Present(t), Grant(access, "", "", "", 0), now, false, true))
  {
  }

  /** What a refresh token the store holds reads as. */
  function PlainRefresh(k: Key, file: File): string {
    if file.Present? then Decrypt(k, file.tokens.refresh) else ""
  }

  lemma DecryptOfNothing(k: Key)
    ensures Decrypt(k, "") == ""
  {
  }

  /** What a write leaves to be read: the token it brings, or else the one it could read. */
  lemma RefreshAfterWrite(k: Key, file: File, g: Grant, now: int, readOk: bool, writeOk: bool)
    requires Sound(k)
    ensures PlainRefresh(k, FileAfterWrite(k, file, g, now, readOk, writeOk)) ==
            if !writeOk then PlainRefresh(k, file) else OrKept(g.refresh, if readOk then PlainRefresh(k, file) else "")
  {
    if writeOk {
      SecretsAreSealedOnce(k, Read(file, readOk), g, now);
      DecryptOfNothing(k);
    }
  }

  // ----- The pending sign-in -----

  datatype Pending = Pending(verifier: string, state: string)

  /** What was pasted: an error, or a code and possibly a state. */
  datatype Callback = Unusable | Callback(code: string, state: string)

  /** The code is exchanged: a sign-in is pending and the states do not contradict each other. */
  predicate Exchanges(pending: Option<Pending>, callback: Callback) {
    && pending.Some? && pending.value.verifier != "" && callback.Callback?
    && (callback.state == "" || pending.value.state == "" || callback.state == pending.value.state)
  }

  // ----- The store itself -----

  /** Expiry is read from the access token (ChatGPT) or from the stored record (Claude); 0 is unknown. */
  datatype Provider = ChatGpt(jwtExpiry: string -> int) | Claude

  const REFRESH_SKEW := 120

  function Expiry(p: Provider, t: Tokens): int {
    match p
    case ChatGpt(jwtExpiry) => jwtExpiry(t.access)
    case Claude => t.expiresAt
  }

  /** A successful token response; `refresh` is absent if the response has no such field. */
  datatype Reply = Reply(access: string, refresh: Option<string>, idToken: string, account: string, expiresIn: int)

  datatype Problem = NotSignedIn | NoRefreshToken | RefreshFailed | NoSignInPending | BadCallback | StateMismatch | ExchangeFailed

  /** What a refresh writes: a response without a refresh token keeps the one it was made with. */
  function RefreshGrant(p: Provider, held: Tokens, r: Reply): Grant {
    Grant(r.access, if r.refresh.Some? then r.refresh.value else held.refresh, "", held.account,
          if p.Claude? then r.expiresIn else 0)
  }

  function SignInGrant(p: Provider, r: Reply): Grant {
    Grant(r.access, if r.refresh.Some? then r.refresh.value else "", if p.Claude? then "" else r.idToken, r.account,
          if p.Claude? then r.expiresIn else 0)
  }

  /** The end of a refresh that was made with `held`: a response without an access token changes nothing. */
  function FileAfterRefresh(k: Key, p: Provider, file: File, held: Tokens, reply: Option<Reply>,
                            now: int, readOk: bool, writeOk: bool): File
  {
    if Granted(reply) then FileAfterWrite(k, file, RefreshGrant(p, held, reply.value), now, readOk, writeOk) else file
  }

  predicate Granted(reply: Option<Reply>) {
    reply.Some? && reply.value.access != ""
  }

  /** What can be read after a refresh that was written: the access token granted; the refresh token granted or,
      in a response without one, the one it was made with, and the stored one only where both are empty; the
      account it was made with; and, for Claude, when the token expires. */
  lemma RefreshIsWritten(k: Key, p: Provider, file: File, held: Tokens, reply: Reply, now: int, readOk: bool)
    requires Sound(k) && reply.access != ""
    ensures var file' := FileAfterRefresh(k, p, file, held, Some(reply), now, readOk, true);
            file'.Present? &&
            var (before, t) := (Decrypted(k, Read(file, readOk)), Decrypted(k, file'.tokens));
            && t.access == reply.access
            && t.refresh == (if reply.refresh == None && held.refresh != "" then held.refresh
                             else if reply.refresh.Some? && reply.refresh.value != "" then reply.refresh.value
                             else before.refresh)
            && t.account == (if held.account != "" then held.account else before.account)
            && t.idToken == before.idToken
            && t.expiresAt == (if p.Claude? && reply.expiresIn != 0 then now + reply.expiresIn else before.expiresAt)
  {
    SecretsAreSealedOnce(k, Read(file, readOk), RefreshGrant(p, held, reply), now);
  }

  /** What can be read after a sign-in that was written. */
  lemma SignInIsWritten(k: Key, p: Provider, file: File, reply: Reply, now: int, readOk: bool)
    requires Sound(k)
    ensures var file' := FileAfterWrite(k, file, SignInGrant(p, reply), now, readOk, true);
            file'.Present? &&
            var (before, t) := (Decrypted(k, Read(file, readOk)), Decrypted(k, file'.tokens));
            && t.access == reply.access
            && t.refresh == (if reply.refresh.Some? && reply.refresh.value != "" then reply.refresh.value else before.refresh)
            && t.account == (if reply.account != "" then reply.account else before.account)
            && t.idToken == (if p.ChatGpt? && reply.idToken != "" then reply.idToken else before.idToken)
            && t.expiresAt == (if p.Claude? && reply.expiresIn != 0 then now + reply.expiresIn else before.expiresAt)
  {
    SecretsAreSealedOnce(k, Read(file, readOk), SignInGrant(p, reply), now);
  }

  /** The store. Whatever awaits the network is two methods, for anything may happen to the files in
      between: the first reads and decides, the second takes the answer. */
  class Store {
    const provider: Provider
    const key: Key
    var file: File
    var pending: Option<Pending>

    constructor (provider: Provider, key: Key, file: File, pending: Option<Pending>)
      ensures this.provider == provider && this.key == key && this.file == file && this.pending == pending
    {
      this.provider, this.key, this.file, this.pending := provider, key, file, pending;
    }

    method ReadTokens(readOk: bool) returns (t: Tokens)
      ensures t == Decrypted(key, Read(file, readOk))
    {
      t := NOTHING;
      if readOk && file.Present? {
        t := file.tokens;
      }
      DecryptOfNothing(key);
      if t.access != "" { t := t.(access := Decrypt(key, t.access)); }
      if t.refresh != "" { t := t.(refresh := Decrypt(key, t.refresh)); }
      if t.idToken != "" { t := t.(idToken := Decrypt(key, t.idToken)); }
    }

    method WriteTokens(g: Grant, now: int, readOk: bool, writeOk: bool)
      modifies this`file
      ensures file == FileAfterWrite(key, old(file), g, now, readOk, writeOk)
    {
      if !writeOk {
        return;
      }
      var data := ReadTokens(readOk);
      data := data.(access := g.access);
      if g.refresh != "" { data := data.(refresh := g.refresh); }
      if g.account != "" { data := data.(account := g.account); }
      if g.idToken != "" { data := data.(idToken := g.idToken); }
      if g.expiresIn != 0 { data := data.(expiresAt := now + g.expiresIn); }
      file := Present(Encrypted(key, data));
    }

    /** Up to the refresh: the stored token and, if it is about to expire and can be refreshed, what to
        refresh it with. */
    method BeginGetToken(now: int, readOk: bool) returns (token: string, held: Option<Tokens>, problem: Option<Problem>)
      ensures var data := Decrypted(key, Read(file, readOk));
              var expiry := match provider case ChatGpt(jwtExpiry) => jwtExpiry(data.access) case Claude => data.expiresAt;
              var valid := expiry != 0 && now + 120 < expiry;
              && (problem == if data.access == "" then Some(NotSignedIn) else None)
              && token == data.access
              && held == if problem.None? && !valid && data.refresh != "" then Some(data) else None
    {
      var data := ReadTokens(readOk);
      if data.access == "" {
        return "", None, Some(NotSignedIn);
      }
      var expiry := Expiry(provider, data);
      if expiry != 0 && expiry - REFRESH_SKEW > now {
        return data.access, None, None;
      }
      token, held, problem := data.access, if data.refresh != "" then Some(data) else None, None;
    }

    /** From the answer on: the token just granted, or the stale one. */
    method EndGetToken(held: Tokens, reply: Option<Reply>, later: int, rereadOk: bool, writeOk: bool)
      returns (token: string)
      modifies this`file
      ensures token == if Granted(reply) then reply.value.access else held.access
      ensures file == FileAfterRefresh(key, provider, old(file), held, reply, later, rereadOk, writeOk)
    {
      if reply.Some? && reply.value.access != "" {
        WriteTokens(RefreshGrant(provider, held, reply.value), later, rereadOk, writeOk);
        return reply.value.access;
      }
      token := held.access;
    }

    method BeginForceRefresh(readOk: bool) returns (held: Option<Tokens>, problem: Option<Problem>)
      ensures var data := Decrypted(key, Read(file, readOk));
              (held, problem) == if data.refresh == "" then (None, Some(NoRefreshToken)) else (Some(data), None)
    {
      var data := ReadTokens(readOk);
      if data.refresh == "" {
        return None, Some(NoRefreshToken);
      }
      held, problem := Some(data), None;
    }

    method EndForceRefresh(held: Tokens, reply: Option<Reply>, later: int, rereadOk: bool, writeOk: bool)
      returns (problem: Option<Problem>)
      modifies this`file
      ensures problem == if Granted(reply) then None else Some(RefreshFailed)
      ensures file == FileAfterRefresh(key, provider, old(file), held, reply, later, rereadOk, writeOk)
    {
      if reply.None? || reply.value.access == "" {
        return Some(RefreshFailed);
      }
      WriteTokens(RefreshGrant(provider, held, reply.value), later, rereadOk, writeOk);
      problem := None;
    }

    /** Starts a sign-in; the pair stays unsaved if the write fails. */
    method NewPkce(verifier: string, state: string, writeOk: bool)
      modifies this`pending
      ensures pending == if writeOk then Some(Pending(verifier, state)) else old(pending)
    {
      if writeOk {
        pending := Some(Pending(verifier, state));
      }
    }

    /** Up to the exchange of the code: the pair it is made with, which is the one pending now, and never
        one with a different non-empty state. */
    method BeginCompletion(callback: Callback, readOk: bool) returns (used: Option<Pending>, problem: Option<Problem>)
      ensures used == if readOk && Exchanges(pending, callback) then pending else None
      ensures used.Some? <==>
              && readOk && pending.Some? && pending.value.verifier != "" && callback.Callback?
              && !(callback.state != "" && pending.value.state != "" && callback.state != pending.value.state)
      ensures used.Some? && callback.state != "" && used.value.state != "" ==> callback.state == used.value.state
      ensures problem == if used.Some? then None
                         else if !readOk || pending.None? || pending.value.verifier == "" then Some(NoSignInPending)
                         else if callback.Unusable? then Some(BadCallback) else Some(StateMismatch)
    {
      var loaded := if readOk then pending else None;
      if loaded.None? || loaded.value.verifier == "" {
        return None, Some(NoSignInPending);
      }
      if callback.Unusable? {
        return None, Some(BadCallback);
      }
      var state := if provider.Claude? && callback.state == "" then loaded.value.state else callback.state;
      if state != "" && loaded.value.state != "" && state != loaded.value.state {
        return None, Some(StateMismatch);
      }
      used, problem := loaded, None;
    }

    /** From the answer on. A granted exchange writes the tokens and clears whatever pair is pending then. */
    method EndCompletion(reply: Option<Reply>, now: int, readOk: bool, writeOk: bool, deleteOk: bool)
      returns (problem: Option<Problem>)
      modifies this
      ensures problem == if reply.Some? then None else Some(ExchangeFailed)
      ensures pending == if reply.Some? && deleteOk then None else old(pending)
      ensures file == if reply.Some? then FileAfterWrite(key, old(file), SignInGrant(provider, reply.value), now, readOk, writeOk)
                      else old(file)
    {
      if reply.None? {
        return Some(ExchangeFailed);
      }
      WriteTokens(SignInGrant(provider, reply.value), now, readOk, writeOk);
      if deleteOk {
        pending := None;
      }
      problem := None;
    }

    method SignOutNow(unlinked: bool, deleteOk: bool)
      modifies this
      ensures file == if unlinked then Missing else old(file)
      ensures pending == if deleteOk then None else old(pending)
    {
      if unlinked {
        file := Missing;
      }
      if deleteOk {
        pending := None;
      }
    }
  }
}
