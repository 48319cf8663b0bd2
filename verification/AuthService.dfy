/** The calls of `AuthService` and of the blocking part of `UsersService`, write by write. */
module AuthService {
  import opened Wrappers
  import opened AuthTokens
  import opened AuthProofs
  import opened JsString

  datatype AuthError =
    | BadCredentials | InvalidToken | TokenReused | TokenExpired | AccountUnavailable
    | ResetInvalid | ManagerNotFound | Crashed

  class Store {
    var accounts: seq<Account>
    var tokens: seq<TokenRow>
    var resets: seq<ResetRow>

    constructor ()
      ensures View() == State([], [], [])
    {
      accounts, tokens, resets := [], [], [];
    }

    function View(): State
      reads this
    {
      State(accounts, tokens, resets)
    }
  }

  /** Creates a placeholder row, signs a token that names it, then fills the row in. */
  method IssueTokenPair(store: Store, user: nat, exp: int, crash: bool) returns (r: Result<RawToken, AuthError>)
    modifies store`tokens
    ensures store.View() == ApplyAll(old(store.View()), IssueWrites(user, |old(store.tokens)|, exp, crash))
    ensures store.tokens == old(store.tokens) + [
              if crash then TokenRow(user, Blank, 0, None)
              else TokenRow(user, Sha256(Signed(user, |old(store.tokens)|, exp)), exp * 1000, None)]
    ensures r == if crash then Err(Crashed) else Ok(Signed(user, |old(store.tokens)|, exp))
  {
    ghost var before := store.View();
    var id := |store.tokens|;
    store.tokens := store.tokens + [TokenRow(user, Blank, 0, None)];
    ApplyOne(before, InsertPlaceholder(user));
    if crash {
      return Err(Crashed);
    }
    var raw := Signed(user, id, exp);
    store.tokens := store.tokens[id := store.tokens[id].(hash := Sha256(raw), expiresAt := exp * 1000)];
    ApplyTwo(before, InsertPlaceholder(user), Fill(id, raw, exp * 1000));
    return Ok(raw);
  }

  /** The token names a new row and an active account with this e-mail and password, and is accepted
      until it expires. */
  ghost predicate LoggedIn(st: State, email: string, password: string, raw: RawToken, id: nat, exp: int) {
    && raw.Signed? && raw.jti == id && raw.exp == exp && ActiveUser(st, raw.sub)
    && st.accounts[raw.sub].email == email && st.accounts[raw.sub].password == password
    && forall now | now / 1000 < exp :: Accepts(st, raw, now)
  }

  lemma AcceptedUntilExpiry(st: State, user: nat, exp: int)
    requires ActiveUser(st, user)
    ensures forall now | now / 1000 < exp ::
              Accepts(ApplyAll(st, IssueWrites(user, |st.tokens|, exp, false)), Signed(user, |st.tokens|, exp), now)
  {
    forall now | now / 1000 < exp
      ensures Accepts(ApplyAll(st, IssueWrites(user, |st.tokens|, exp, false)), Signed(user, |st.tokens|, exp), now)
    {
      IssuedTokenIsAccepted(st, user, exp, now);
    }
  }

  /** The first account with this e-mail is active and has this password. */
  ghost predicate KnownAs(accounts: seq<Account>, email: string, password: string) {
    exists i: nat ::
      && FirstIndex(accounts, (a: Account) => a.email == email, Some(i))
      && accounts[i].active && accounts[i].password == password
  }

  lemma LoginIffKnown(st: State, email: string, password: string)
    ensures CanLogin(st, email, password) <==> KnownAs(st.accounts, email, password)
  {
    LookupsFindFirst(st.accounts, email);
    var p := (a: Account) => a.email == email;
    forall i: nat | FirstIndex(st.accounts, p, Some(i)) ensures FindByEmail(st.accounts, email) == Some(i) {
      FirstIndexIsUnique(st.accounts, p, Some(i), FindByEmail(st.accounts, email));
    }
  }

  method Login(store: Store, email: string, password: string, at: Time, exp: int, crash: bool)
    returns (r: Result<RawToken, AuthError>)
    modifies store`tokens
    ensures store.View() == Perform(old(store.View()), Call.Login(email, password, at, exp, crash))
    ensures r == Err(BadCredentials) <==> !KnownAs(store.accounts, email, password)
    ensures r.Ok? <==> KnownAs(store.accounts, email, password) && !crash
    ensures r.Ok? ==> LoggedIn(store.View(), email, password, r.value, |old(store.tokens)|, exp)
    ensures |store.tokens| >= |old(store.tokens)| && store.tokens[..|old(store.tokens)|] == old(store.tokens)
  {
    LoginIffKnown(store.View(), email, password);
    if !CanLogin(store.View(), email, password) {
      return Err(BadCredentials);
    }
    ghost var before := store.View();
    LookupsFindFirst(store.accounts, email);
    IssueAppends(before, FindByEmail(store.accounts, email).value, exp, crash);
    if ActiveUser(before, FindByEmail(store.accounts, email).value) {
      AcceptedUntilExpiry(before, FindByEmail(store.accounts, email).value, exp);
    }
    r := IssueTokenPair(store, FindByEmail(store.accounts, email).value, exp, crash);
  }

  /** The presented token verifies at this moment and names a row. */
  ghost predicate Names(tokens: seq<TokenRow>, raw: RawToken, at: Time) {
    raw.Signed? && at / 1000 < raw.exp && raw.jti < |tokens|
  }

  /** The row is unrevoked, unexpired and stores the hash of just this token, and its user is active. */
  ghost predicate IsCurrent(st: State, raw: RawToken, at: Time)
    requires Names(st.tokens, raw, at)
  {
    var row := st.tokens[raw.jti];
    && row.revokedAt.None? && row.expiresAt >= at && row.hash == Sha256(raw)
    && row.user < |st.accounts| && st.accounts[row.user].active
  }

  /** The presented row is revoked and a new one for the same user is there: a finished one, or after a
      crash a placeholder. No other row is touched. */
  ghost predicate Rotated(before: State, after: State, raw: RawToken, at: Time, exp: int, crash: bool)
    requires Names(before.tokens, raw, at)
  {
    var id, user := |before.tokens|, before.tokens[raw.jti].user;
    && after.accounts == before.accounts && after.resets == before.resets && |after.tokens| == id + 1
    && after.tokens[..id] == before.tokens[raw.jti := before.tokens[raw.jti].(revokedAt := Some(at))]
    && after.tokens[id] == if crash then TokenRow(user, Blank, 0, None)
                           else TokenRow(user, Sha256(Signed(user, id, exp)), exp * 1000, None)
  }

  /** A current token is rotated. A revoked one, expired or not, ends every session of its user and of
      nobody else. Any other is refused for the reason that applies first, and nothing changes. */
  method Refresh(store: Store, raw: RawToken, at: Time, exp: int, crash: bool)
    returns (r: Result<RawToken, AuthError>)
    modifies store`tokens
    ensures store.View() == Perform(old(store.View()), Call.Refresh(raw, at, exp, crash))
    ensures !Names(old(store.tokens), raw, at) ==> r == Err(InvalidToken) && store.tokens == old(store.tokens)
    ensures Names(old(store.tokens), raw, at) ==>
              var row := old(store.tokens)[raw.jti];
              && (row.revokedAt.Some? ==>
                    && r == Err(TokenReused) && SessionsEnded(store.View(), row.user)
                    && RevokesJust(old(store.tokens), store.tokens, row.user, at))
              && (row.revokedAt.None? && !IsCurrent(old(store.View()), raw, at) ==>
                    && store.tokens == old(store.tokens)
                    && r == Err(if row.expiresAt < at then TokenExpired
                                else if row.hash != Sha256(raw) then InvalidToken else AccountUnavailable))
              && (IsCurrent(old(store.View()), raw, at) ==>
                    && Rotated(old(store.View()), store.View(), raw, at, exp, crash)
                    && r == if crash then Err(Crashed) else Ok(Signed(row.user, |old(store.tokens)|, exp)))
  {
    ghost var before := store.View();
    if !SignatureOk(raw, at) || raw.jti >= |store.tokens| {
      return Err(InvalidToken);
    }
    var row := store.tokens[raw.jti];
    if row.revokedAt.Some? {
      store.tokens := RevokeRows(store.tokens, row.user, at);
      ApplyOne(before, RevokeAll(row.user, at));
      RevokeAllEnds(before.tokens, store.View(), row.user, at);
      return Err(TokenReused);
    }
    if row.expiresAt < at {
      return Err(TokenExpired);
    }
    if !TokenHashMatches(raw, row.hash) {
      return Err(InvalidToken);
    }
    if !ActiveUser(store.View(), row.user) {
      return Err(AccountUnavailable);
    }
    store.tokens := store.tokens[raw.jti := row.(revokedAt := Some(at))];
    IssueAppends(store.View(), row.user, exp, crash);
    r := IssueTokenPair(store, row.user, exp, crash);
    RevokeThenIssue(before, raw.jti, at, row.user, exp, crash);
  }

  lemma RevokeThenIssue(st: State, id: nat, at: Time, user: nat, exp: int, crash: bool)
    requires id < |st.tokens|
    ensures ApplyAll(st, [AuthTokens.Revoke(id, at)] + IssueWrites(user, |st.tokens|, exp, crash))
            == ApplyAll(Apply(st, AuthTokens.Revoke(id, at)), IssueWrites(user, |st.tokens|, exp, crash))
  {
    var first := AuthTokens.Revoke(id, at);
    var insert, fill := InsertPlaceholder(user), Fill(|st.tokens|, Signed(user, |st.tokens|, exp), exp * 1000);
    if crash {
      assert [first] + [insert] == [first, insert];
      ApplyTwo(st, first, insert);
      ApplyOne(Apply(st, first), insert);
    } else {
      assert [first] + [insert, fill] == [first, insert, fill];
      ApplyThree(st, first, insert, fill);
      ApplyTwo(Apply(st, first), insert, fill);
    }
  }

  /** From now on the token is refused, and no other row is touched. An unverifiable token is not an error. */
  method Logout(store: Store, raw: RawToken, at: Time)
    modifies store`tokens
    ensures store.View() == Perform(old(store.View()), Call.Logout(raw, at))
    ensures forall later | at <= later :: !Accepts(store.View(), raw, later)
    ensures |store.tokens| == |old(store.tokens)|
    ensures forall i | 0 <= i < |store.tokens| && !(raw.Signed? && i == raw.jti) ::
              store.tokens[i] == old(store.tokens)[i]
    ensures raw.Signed? && raw.jti < |store.tokens| ==>
              var row := old(store.tokens)[raw.jti];
              || store.tokens[raw.jti] == row
              || (row.revokedAt.None? && store.tokens[raw.jti] == row.(revokedAt := Some(at)))
  {
    if SignatureOk(raw, at) {
      ApplyOne(store.View(), RevokeIfLive(raw.jti, at));
      if raw.jti < |store.tokens| && store.tokens[raw.jti].revokedAt == None {
        store.tokens := store.tokens[raw.jti := store.tokens[raw.jti].(revokedAt := Some(at))];
      }
    }
  }

  ghost predicate HasActive(accounts: seq<Account>, email: string) {
    exists i | 0 <= i < |accounts| :: accounts[i].email == email && accounts[i].active
  }

  ghost predicate Unissued(resets: seq<ResetRow>, token: string) {
    forall i | 0 <= i < |resets| :: resets[i].token != token
  }

  /** An active account with this e-mail gets one new reset row; nothing happens for any other e-mail. A
      token not issued before resets from now on for exactly the sixty minutes. */
  method ForgotPassword(store: Store, email: string, token: string, at: Time)
    modifies store`resets
    ensures store.View() == Perform(old(store.View()), Forgot(email, token, at))
    ensures !HasActive(store.accounts, email) ==> store.resets == old(store.resets)
    ensures HasActive(store.accounts, email) ==>
              exists user | 0 <= user < |store.accounts| ::
                && store.accounts[user].email == email && store.accounts[user].active
                && store.resets == old(store.resets) + [ResetRow(user, token, at + 60 * 60 * 1000, None)]
    ensures HasActive(store.accounts, email) && Unissued(old(store.resets), token) ==>
              forall now :: CanReset(store.View(), token, now) <==> now <= at + 60 * 60 * 1000
  {
    var found := FindActive(store.accounts, email);
    LookupsFindFirst(store.accounts, email);
    if found.Some? {
      var row := ResetRow(found.value, token, at + PASSWORD_RESET_TTL, None);
      ApplyOne(store.View(), InsertReset(row));
      if Unissued(store.resets, token) {
        ResetOfFresh(store.resets, row);
      }
      store.resets := store.resets + [row];
    }
  }

  /** The token is used up for good, its account has the new password and no session left, and no other
      account, session or reset token is touched. */
  ghost predicate ResetDone(before: State, after: State, id: nat, token: string, password: string, at: Time) {
    && id < |before.resets| && before.resets[id].token == token
    && before.resets[id].usedAt == None && at <= before.resets[id].expiresAt
    && after.resets == before.resets[id := before.resets[id].(usedAt := Some(at))]
    && (forall now :: !CanReset(after, token, now))
    && var user := before.resets[id].user;
       && (user < |before.accounts| ==>
             user < |after.accounts| && after.accounts[user] == before.accounts[user].(password := password))
       && OthersKeepAccounts(before.accounts, after.accounts, user)
       && SessionsEnded(after, user) && RevokesJust(before.tokens, after.tokens, user, at)
  }

  lemma UsedIsUseless(resets: seq<ResetRow>, id: nat, token: string, at: Time)
    requires FindReset(resets, token) == Some(id) && id < |resets|
    ensures FindReset(resets[id := resets[id].(usedAt := Some(at))], token) == Some(id)
  {
    var used := resets[id := resets[id].(usedAt := Some(at))];
    ResetIsFirst(resets, token);
    ResetIsFirst(used, token);
    assert used[id].token == token;
    assert forall j | 0 <= j < |resets| :: used[j].token == resets[j].token;
    var found := FindReset(used, token);
    if found.Some? {
      assert used[found.value].token == token;
    }
  }

  lemma ResetIffUsable(st: State, token: string, at: Time)
    ensures CanReset(st, token, at) <==>
            exists id: nat ::
              && FirstIndex(st.resets, (row: ResetRow) => row.token == token, Some(id))
              && st.resets[id].usedAt.None? && at <= st.resets[id].expiresAt
  {
    ResetIsFirst(st.resets, token);
    var p := (row: ResetRow) => row.token == token;
    forall id: nat | FirstIndex(st.resets, p, Some(id)) ensures FindReset(st.resets, token) == Some(id) {
      FirstIndexIsUnique(st.resets, p, Some(id), FindReset(st.resets, token));
    }
  }

  method ResetPassword(store: Store, token: string, password: string, at: Time) returns (r: Result<(), AuthError>)
    modifies store
    ensures store.View() == Perform(old(store.View()), Reset(token, password, at))
    ensures r.Ok? <==>
            exists id: nat ::
              && FirstIndex(old(store.resets), (row: ResetRow) => row.token == token, Some(id))
              && old(store.resets)[id].usedAt.None? && at <= old(store.resets)[id].expiresAt
    ensures r.Err? ==> r.error == ResetInvalid && store.View() == old(store.View())
    ensures r.Ok? ==> exists id :: ResetDone(old(store.View()), store.View(), id, token, password, at)
  {
    ghost var before := store.View();
    ResetIffUsable(before, token, at);
    if !CanReset(store.View(), token, at) {
      return Err(ResetInvalid);
    }
    var id := FindReset(store.resets, token).value;
    var user := store.resets[id].user;
    ResetIsFirst(store.resets, token);
    ApplyOne(store.View(), UseReset(id, password, at));
    if user < |store.accounts| {
      store.accounts := store.accounts[user := store.accounts[user].(password := password)];
    }
    UsedIsUseless(store.resets, id, token, at);
    store.resets := store.resets[id := store.resets[id].(usedAt := Some(at))];
    store.tokens := RevokeRows(store.tokens, user, at);
    RevokeAllEnds(before.tokens, store.View(), user, at);
    assert ResetDone(before, store.View(), id, token, password, at);
    return Ok(());
  }

  /** The account is inactive, cannot log in and has no session left; nobody else is touched. */
  ghost predicate LockedOut(before: State, after: State, user: nat, at: Time) {
    && !ActiveUser(after, user) && CannotLogIn(after, user) && SessionsEnded(after, user)
    && OthersKeepAccounts(before.accounts, after.accounts, user)
    && RevokesJust(before.tokens, after.tokens, user, at)
    && after.resets == before.resets
  }

  method BlockManager(store: Store, user: nat, at: Time) returns (r: Result<(), AuthError>)
    modifies store
    ensures store.View() == Perform(old(store.View()), Block(user, at))
    ensures r.Ok? <==> user < |old(store.accounts)| && old(store.accounts)[user].role == MANAGER
    ensures r.Err? ==> r.error == ManagerNotFound && store.View() == old(store.View())
    ensures r.Ok? ==> LockedOut(old(store.View()), store.View(), user, at)
    ensures r.Ok? ==> store.accounts[user] == old(store.accounts)[user].(active := false)
  {
    ghost var before := store.View();
    if !IsManager(store.View(), user) {
      return Err(ManagerNotFound);
    }
    ApplyTwo(before, SetActive(user, false), RevokeAll(user, at));
    store.accounts := store.accounts[user := store.accounts[user].(active := false)];
    store.tokens := RevokeRows(store.tokens, user, at);
    RevokeAllEnds(before.tokens, store.View(), user, at);
    return Ok(());
  }

  /** The user's own token passes every check but the one on the account. */
  predicate HeldBack(tokens: seq<TokenRow>, raw: RawToken, now: Time, user: nat) {
    && SignatureOk(raw, now) && raw.jti < |tokens| && tokens[raw.jti].user == user
    && RowAccepts(tokens[raw.jti], raw, now)
  }

  /** The manager may log in again. Exactly those tokens of the manager become acceptable that nothing but
      the block kept from it. */
  method UnblockManager(store: Store, user: nat) returns (r: Result<(), AuthError>)
    modifies store`accounts
    ensures store.View() == Perform(old(store.View()), Unblock(user))
    ensures r.Ok? <==> user < |old(store.accounts)| && old(store.accounts)[user].role == MANAGER
    ensures r.Err? ==> r.error == ManagerNotFound && store.accounts == old(store.accounts)
    ensures r.Ok? ==> OthersKeepAccounts(old(store.accounts), store.accounts, user)
    ensures r.Ok? ==> store.accounts[user] == old(store.accounts)[user].(active := true)
    ensures r.Ok? ==> forall raw, now ::
              Accepts(store.View(), raw, now) <==>
              Accepts(old(store.View()), raw, now) || HeldBack(store.tokens, raw, now, user)
  {
    if !IsManager(store.View(), user) {
      return Err(ManagerNotFound);
    }
    ApplyOne(store.View(), SetActive(user, true));
    store.accounts := store.accounts[user := store.accounts[user].(active := true)];
    return Ok(());
  }

  /** Besides, the account's e-mail address is free again. */
  method DeleteManager(store: Store, user: nat, at: Time) returns (r: Result<(), AuthError>)
    modifies store
    ensures store.View() == Perform(old(store.View()), Call.Delete(user, at))
    ensures r.Ok? <==> user < |old(store.accounts)| && old(store.accounts)[user].role == MANAGER
    ensures r.Err? ==> r.error == ManagerNotFound && store.View() == old(store.View())
    ensures r.Ok? ==> LockedOut(old(store.View()), store.View(), user, at)
    ensures r.Ok? ==> store.accounts[user] == old(store.accounts)[user].(
                        active := false, email := "deleted-" + Digits(user) + "@removed.invalid")
    ensures r.Ok? ==> FindByEmail(store.accounts, old(store.accounts)[user].email) != Some(user)
                      || old(store.accounts)[user].email == DeletedEmail(user)
  {
    ghost var before := store.View();
    if !IsManager(store.View(), user) {
      return Err(ManagerNotFound);
    }
    ApplyTwo(before, Anonymise(user), RevokeAll(user, at));
    store.accounts := store.accounts[user := store.accounts[user].(active := false, email := DeletedEmail(user))];
    store.tokens := RevokeRows(store.tokens, user, at);
    RevokeAllEnds(before.tokens, store.View(), user, at);
    LookupsFindFirst(store.accounts, before.accounts[user].email);
    return Ok(());
  }
}
