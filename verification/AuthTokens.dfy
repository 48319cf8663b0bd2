/**
 * Refresh tokens: the rows, the single writes the services make to them, and
 * what one service call reads and writes. Hashes are collision-free, so a
 * stored digest is represented by what was hashed. A row's id is its position.
 */
module AuthTokens {
  import opened Wrappers
  import opened JsString

  type Time = int

  /** A token whose signature verifies carries its claims: `jti` is the row id (section 4.1.7 of
      RFC 7519), `exp` counts seconds. All other times count milliseconds. */
  datatype RawToken = Signed(sub: nat, jti: nat, exp: int) | Forged(text: string)

  datatype StoredHash = Blank | Sha256(raw: RawToken)

  function ByteLength(h: StoredHash): nat {
    match h case Blank => 0 case Sha256(_) => 32
  }

  predicate TokenHashMatches(raw: RawToken, stored: StoredHash) {
    if ByteLength(Sha256(raw)) != ByteLength(stored) then false else stored == Sha256(raw)
  }

  datatype TokenRow = TokenRow(user: nat, hash: StoredHash, expiresAt: Time, revokedAt: Option<Time>)

  datatype Role = OWNER | MANAGER

  datatype Account = Account(email: string, password: string, role: Role, active: bool)

  datatype ResetRow = ResetRow(user: nat, token: string, expiresAt: Time, usedAt: Option<Time>)

  datatype State = State(accounts: seq<Account>, tokens: seq<TokenRow>, resets: seq<ResetRow>)

  const PASSWORD_RESET_TTL := 60 * 60_000

  // ----- single writes

  datatype Write =
    | InsertPlaceholder(user: nat)
    | Fill(id: nat, raw: RawToken, expiresAt: Time)
    | Revoke(id: nat, at: Time)
    | RevokeIfLive(id: nat, at: Time)
    | RevokeAll(user: nat, at: Time)
    | SetActive(user: nat, active: bool)
    | Anonymise(user: nat)
    | AddAccount(account: Account)
    | InsertReset(row: ResetRow)
    | UseReset(reset: nat, password: string, at: Time)

  function RevokeRows(tokens: seq<TokenRow>, user: nat, at: Time): seq<TokenRow> {
    seq(|tokens|, i requires 0 <= i < |tokens| =>
      if tokens[i].user == user && tokens[i].revokedAt == None then tokens[i].(revokedAt := Some(at)) else tokens[i])
  }

  function DeletedEmail(user: nat): string {
    "deleted-" + Digits(user) + "@removed.invalid"
  }

  /** A write to a row that does not exist changes nothing. */
  function Apply(st: State, w: Write): State {
    match w
    case InsertPlaceholder(user) => st.(tokens := st.tokens + [TokenRow(user, Blank, 0, None)])
    case Fill(id, raw, expiresAt) =>
      if id < |st.tokens|
      then st.(tokens := st.tokens[id := st.tokens[id].(hash := Sha256(raw), expiresAt := expiresAt)]) else st
    case Revoke(id, at) =>
      if id < |st.tokens| then st.(tokens := st.tokens[id := st.tokens[id].(revokedAt := Some(at))]) else st
    case RevokeIfLive(id, at) =>
      if id < |st.tokens| && st.tokens[id].revokedAt == None
      then st.(tokens := st.tokens[id := st.tokens[id].(revokedAt := Some(at))]) else st
    case RevokeAll(user, at) => st.(tokens := RevokeRows(st.tokens, user, at))
    case SetActive(user, active) =>
      if user < |st.accounts| then st.(accounts := st.accounts[user := st.accounts[user].(active := active)]) else st
    case Anonymise(user) =>
      if user >= |st.accounts| then st
      else st.(accounts := st.accounts[user := st.accounts[user].(active := false, email := DeletedEmail(user))])
    case AddAccount(account) => st.(accounts := st.accounts + [account])
    case InsertReset(row) => st.(resets := st.resets + [row])
    case UseReset(reset, password, at) =>
      if reset >= |st.resets| then st
      else
        var user := st.resets[reset].user;
        State(if user < |st.accounts| then st.accounts[user := st.accounts[user].(password := password)]
              else st.accounts,
              RevokeRows(st.tokens, user, at),
              st.resets[reset := st.resets[reset].(usedAt := Some(at))])
  }

  function ApplyAll(st: State, ws: seq<Write>): State {
    if ws == [] then st else Apply(ApplyAll(st, ws[..|ws| - 1]), ws[|ws| - 1])
  }

  // ----- what `refresh` accepts

  predicate SignatureOk(raw: RawToken, now: Time) {
    raw.Signed? && now / 1000 < raw.exp
  }

  predicate ActiveUser(st: State, user: nat) {
    user < |st.accounts| && st.accounts[user].active
  }

  /** The row's own checks, in the order they are made. */
  predicate RowAccepts(row: TokenRow, raw: RawToken, now: Time) {
    row.revokedAt == None && now <= row.expiresAt && TokenHashMatches(raw, row.hash)
  }

  predicate Accepts(st: State, raw: RawToken, now: Time) {
    && SignatureOk(raw, now)
    && raw.jti < |st.tokens|
    && RowAccepts(st.tokens[raw.jti], raw, now)
    && ActiveUser(st, st.tokens[raw.jti].user)
  }

  // ----- revocation under any interleaving of writes

  ghost predicate RevokedRow(st: State, id: nat) {
    id < |st.tokens| && st.tokens[id].revokedAt.Some?
  }

  ghost predicate RevokesAll(st: State, w: Write, user: nat) {
    || (w.RevokeAll? && w.user == user)
    || (w.UseReset? && w.reset < |st.resets| && st.resets[w.reset].user == user)
  }

  lemma WriteKeepsRevoked(st: State, w: Write, id: nat)
    requires RevokedRow(st, id)
    ensures RevokedRow(Apply(st, w), id)
  {
  }

  lemma {:induction false} WritesKeepRevoked(st: State, ws: seq<Write>, id: nat)
    requires RevokedRow(st, id)
    ensures RevokedRow(ApplyAll(st, ws), id)
  {
    if ws != [] {
      WritesKeepRevoked(st, ws[..|ws| - 1], id);
      WriteKeepsRevoked(ApplyAll(st, ws[..|ws| - 1]), ws[|ws| - 1], id);
    }
  }

  /** A row that existed when a revoke-all step ran is refused for ever, whichever writes of whichever
      calls, finished or crashed, come afterwards, and whatever token is presented for it. */
  lemma RevocationIsPermanent(st: State, w: Write, later: seq<Write>, id: nat, raw: RawToken, now: Time)
    requires id < |st.tokens| && RevokesAll(st, w, st.tokens[id].user)
    requires raw.Signed? && raw.jti == id
    ensures !Accepts(ApplyAll(Apply(st, w), later), raw, now)
  {
    WritesKeepRevoked(Apply(st, w), later, id);
  }

  lemma {:induction false} WritesKeepUsers(st: State, ws: seq<Write>, id: nat)
    requires id < |st.tokens|
    ensures id < |ApplyAll(st, ws).tokens| && ApplyAll(st, ws).tokens[id].user == st.tokens[id].user
  {
    if ws != [] {
      WritesKeepUsers(st, ws[..|ws| - 1], id);
    }
  }

  /** Whatever of the user is accepted after a revoke-all step, at any time and after any writes, is a
      row that was inserted after that step. */
  lemma AcceptedAfterIsNewer(st: State, w: Write, later: seq<Write>, user: nat, raw: RawToken, now: Time)
    requires RevokesAll(st, w, user)
    requires Accepts(ApplyAll(Apply(st, w), later), raw, now)
    requires ApplyAll(Apply(st, w), later).tokens[raw.jti].user == user
    ensures raw.jti >= |st.tokens|
  {
    if raw.jti < |st.tokens| {
      WritesKeepUsers(Apply(st, w), later, raw.jti);
      RevocationIsPermanent(st, w, later, raw.jti, raw, now);
    }
  }

  ghost predicate BlankRow(st: State, id: nat) {
    id < |st.tokens| && st.tokens[id].hash == Blank
  }

  lemma {:induction false} BlankStaysBlank(st: State, ws: seq<Write>, id: nat)
    requires BlankRow(st, id) && forall i | 0 <= i < |ws| :: !(ws[i].Fill? && ws[i].id == id)
    ensures BlankRow(ApplyAll(st, ws), id)
  {
    if ws != [] {
      BlankStaysBlank(st, ws[..|ws| - 1], id);
    }
  }

  /** A placeholder whose second write never happened is never accepted, at any time, for any token. */
  lemma PlaceholderIsNeverAccepted(st: State, user: nat, later: seq<Write>, raw: RawToken, now: Time)
    requires forall i | 0 <= i < |later| :: !(later[i].Fill? && later[i].id == |st.tokens|)
    requires raw.Signed? && raw.jti == |st.tokens|
    ensures !Accepts(ApplyAll(Apply(st, InsertPlaceholder(user)), later), raw, now)
  {
    BlankStaysBlank(Apply(st, InsertPlaceholder(user)), later, |st.tokens|);
  }

  // ----- whole calls

  datatype Call =
    | Login(email: string, password: string, at: Time, exp: int, crash: bool)
    | Refresh(raw: RawToken, at: Time, exp: int, crash: bool)
    | Logout(raw: RawToken, at: Time)
    | Forgot(email: string, token: string, at: Time)
    | Reset(token: string, password: string, at: Time)
    | Block(user: nat, at: Time)
    | Unblock(user: nat)
    | Delete(user: nat, at: Time)
    | CreateManager(account: Account)

  /** `findFirst`: the first account with this email. */
  function FindByEmail(accounts: seq<Account>, email: string): Option<nat> {
    if accounts == [] then None
    else
      var n := |accounts| - 1;
      match FindByEmail(accounts[..n], email)
      case Some(i) => Some(i)
      case None => if accounts[n].email == email then Some(n) else None
  }

  /** `findFirst`: the first active account with this email. */
  function FindActive(accounts: seq<Account>, email: string): Option<nat> {
    if accounts == [] then None
    else
      var n := |accounts| - 1;
      match FindActive(accounts[..n], email)
      case Some(i) => Some(i)
      case None => if accounts[n].email == email && accounts[n].active then Some(n) else None
  }

  /** `found` is the first index that satisfies `p`, or there is none. */
  ghost predicate FirstIndex<T>(xs: seq<T>, p: T -> bool, found: Option<nat>) {
    match found
    case Some(i) => i < |xs| && p(xs[i]) && forall j | 0 <= j < i :: !p(xs[j])
    case None => forall j | 0 <= j < |xs| :: !p(xs[j])
  }

  lemma FirstIndexIsUnique<T>(xs: seq<T>, p: T -> bool, a: Option<nat>, b: Option<nat>)
    requires FirstIndex(xs, p, a) && FirstIndex(xs, p, b)
    ensures a == b
  {
  }

  lemma {:induction false} LookupsFindFirst(accounts: seq<Account>, email: string)
    ensures FirstIndex(accounts, (a: Account) => a.email == email, FindByEmail(accounts, email))
    ensures FirstIndex(accounts, (a: Account) => a.email == email && a.active, FindActive(accounts, email))
  {
    if accounts != [] {
      LookupsFindFirst(accounts[..|accounts| - 1], email);
    }
  }

  function FindReset(resets: seq<ResetRow>, token: string): Option<nat> {
    if resets == [] then None
    else
      var n := |resets| - 1;
      match FindReset(resets[..n], token)
      case Some(i) => Some(i)
      case None => if resets[n].token == token then Some(n) else None
  }

  lemma {:induction false} ResetIsFirst(resets: seq<ResetRow>, token: string)
    ensures FirstIndex(resets, (r: ResetRow) => r.token == token, FindReset(resets, token))
  {
    if resets != [] {
      ResetIsFirst(resets[..|resets| - 1], token);
    }
  }

  lemma ResetOfFresh(resets: seq<ResetRow>, row: ResetRow)
    requires forall i | 0 <= i < |resets| :: resets[i].token != row.token
    ensures FindReset(resets + [row], row.token) == Some(|resets|)
  {
    assert (resets + [row])[..|resets|] == resets;
    ResetIsFirst(resets, row.token);
  }

  predicate IsManager(st: State, user: nat) {
    user < |st.accounts| && st.accounts[user].role == MANAGER
  }

  predicate CanLogin(st: State, email: string, password: string) {
    var found := FindByEmail(st.accounts, email);
    && found.Some? && found.value < |st.accounts|
    && st.accounts[found.value].active && st.accounts[found.value].password == password
  }

  predicate CanReset(st: State, token: string, at: Time) {
    var found := FindReset(st.resets, token);
    && found.Some? && found.value < |st.resets|
    && st.resets[found.value].usedAt == None && at <= st.resets[found.value].expiresAt
  }

  /** The two writes of `issueTokenPair`; a crash leaves out the second. */
  function IssueWrites(user: nat, id: nat, exp: int, crash: bool): seq<Write> {
    if crash then [InsertPlaceholder(user)] else [InsertPlaceholder(user), Fill(id, Signed(user, id, exp), exp * 1000)]
  }

  predicate ReplaysRevoked(st: State, raw: RawToken, now: Time) {
    SignatureOk(raw, now) && raw.jti < |st.tokens| && st.tokens[raw.jti].revokedAt.Some?
  }

  /** Everything one call writes, in order. */
  function Writes(st: State, c: Call): seq<Write> {
    match c
    case Login(email, password, at, exp, crash) =>
      if CanLogin(st, email, password) then IssueWrites(FindByEmail(st.accounts, email).value, |st.tokens|, exp, crash)
      else []
    case Refresh(raw, at, exp, crash) =>
      if ReplaysRevoked(st, raw, at) then [RevokeAll(st.tokens[raw.jti].user, at)]
      else if Accepts(st, raw, at) then
        [Revoke(raw.jti, at)] + IssueWrites(st.tokens[raw.jti].user, |st.tokens|, exp, crash)
      else []
    case Logout(raw, at) => if SignatureOk(raw, at) then [RevokeIfLive(raw.jti, at)] else []
    case Forgot(email, token, at) =>
      var found := FindActive(st.accounts, email);
      if found.Some? then [InsertReset(ResetRow(found.value, token, at + PASSWORD_RESET_TTL, None))] else []
    case Reset(token, password, at) =>
      if CanReset(st, token, at) then [UseReset(FindReset(st.resets, token).value, password, at)] else []
    case Block(user, at) => if IsManager(st, user) then [SetActive(user, false), RevokeAll(user, at)] else []
    case Unblock(user) => if IsManager(st, user) then [SetActive(user, true)] else []
    case Delete(user, at) => if IsManager(st, user) then [Anonymise(user), RevokeAll(user, at)] else []
    case CreateManager(account) => [AddAccount(account)]
  }

  function Perform(st: State, c: Call): State {
    ApplyAll(st, Writes(st, c))
  }

  lemma ApplyTwo(st: State, a: Write, b: Write)
    ensures ApplyAll(st, [a, b]) == Apply(Apply(st, a), b)
  {
    assert [a, b][..1] == [a];
    ApplyOne(st, a);
  }

  lemma ApplyOne(st: State, a: Write)
    ensures ApplyAll(st, [a]) == Apply(st, a)
  {
    assert [a][..0] == [];
  }

  lemma ApplyThree(st: State, a: Write, b: Write, c: Write)
    ensures ApplyAll(st, [a, b, c]) == Apply(Apply(Apply(st, a), b), c)
  {
    assert [a, b, c][..2] == [a, b];
    ApplyTwo(st, a, b);
  }
}
