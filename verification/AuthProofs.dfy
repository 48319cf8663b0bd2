/** What every serial run of the token calls keeps about the rotation of refresh tokens. */
module AuthProofs {
  import opened Wrappers
  import opened AuthTokens

  /** A run so far: for each token row the login its chain began with, logins since each user's last
      revoke-all, and the rows `refresh` has accepted. */
  datatype History = History(st: State, chain: seq<nat>, logins: nat, since: map<nat, nat>, accepted: seq<nat>)

  function Since(h: History, user: nat): nat {
    if user in h.since then h.since[user] else 0
  }

  function Track(h: History, c: Call): History {
    var st := Perform(h.st, c);
    match c
    case Login(email, password, _, _, _) =>
      if CanLogin(h.st, email, password) then
        var user := FindByEmail(h.st.accounts, email).value;
        History(st, h.chain + [h.logins], h.logins + 1, h.since[user := Since(h, user) + 1], h.accepted)
      else h.(st := st)
    case Refresh(raw, at, _, _) =>
      if ReplaysRevoked(h.st, raw, at) then h.(st := st, since := h.since[h.st.tokens[raw.jti].user := 0])
      else if Accepts(h.st, raw, at) then
        h.(st := st, chain := h.chain + [if raw.jti < |h.chain| then h.chain[raw.jti] else 0],
           accepted := h.accepted + [raw.jti])
      else h.(st := st)
    case Reset(token, _, at) =>
      if CanReset(h.st, token, at)
      then h.(st := st, since := h.since[h.st.resets[FindReset(h.st.resets, token).value].user := 0])
      else h.(st := st)
    case Block(user, _) => if IsManager(h.st, user) then h.(st := st, since := h.since[user := 0]) else h.(st := st)
    case Delete(user, _) => if IsManager(h.st, user) then h.(st := st, since := h.since[user := 0]) else h.(st := st)
    case _ => h.(st := st)
  }

  const START := History(State([], [], []), [], 0, map[], [])

  function Run(calls: seq<Call>): History {
    if calls == [] then START else Track(Run(calls[..|calls| - 1]), calls[|calls| - 1])
  }

  predicate Live(row: TokenRow) {
    row.revokedAt == None
  }

  function LiveCount(tokens: seq<TokenRow>, user: nat): nat {
    if tokens == [] then 0
    else LiveCount(tokens[..|tokens| - 1], user)
         + (if Live(tokens[|tokens| - 1]) && tokens[|tokens| - 1].user == user then 1 else 0)
  }

  // ----- chains and accepted rows

  ghost predicate ChainsOk(tokens: seq<TokenRow>, chain: seq<nat>, logins: nat) {
    && |chain| == |tokens|
    && (forall i | 0 <= i < |chain| :: chain[i] < logins)
    && (forall i, j | 0 <= i < j < |chain| && chain[i] == chain[j] :: !(Live(tokens[i]) && Live(tokens[j])))
  }

  ghost predicate AcceptedOk(tokens: seq<TokenRow>, accepted: seq<nat>) {
    && (forall i | 0 <= i < |accepted| :: accepted[i] < |tokens| && !Live(tokens[accepted[i]]))
    && (forall i, j | 0 <= i < j < |accepted| :: accepted[i] != accepted[j])
  }

  ghost predicate CountsOk(h: History) {
    forall user :: LiveCount(h.st.tokens, user) <= Since(h, user)
  }

  ghost predicate Inv(h: History) {
    ChainsOk(h.st.tokens, h.chain, h.logins) && AcceptedOk(h.st.tokens, h.accepted) && CountsOk(h)
  }

  // ----- how calls change the token table

  /** Rows keep their user, and a revoked row stays revoked. */
  ghost predicate OnlyRevokes(before: seq<TokenRow>, after: seq<TokenRow>) {
    && |after| == |before|
    && forall i | 0 <= i < |before| :: after[i].user == before[i].user && (Live(after[i]) ==> Live(before[i]))
  }

  lemma {:induction false} CountAfterRevoking(before: seq<TokenRow>, after: seq<TokenRow>, user: nat)
    requires OnlyRevokes(before, after)
    ensures LiveCount(after, user) <= LiveCount(before, user)
  {
    if before != [] {
      CountAfterRevoking(before[..|before| - 1], after[..|after| - 1], user);
    }
  }

  lemma {:induction false} RevokeAllLeavesNone(tokens: seq<TokenRow>, user: nat, at: Time)
    ensures LiveCount(RevokeRows(tokens, user, at), user) == 0
  {
    if tokens != [] {
      RevokeAllLeavesNone(tokens[..|tokens| - 1], user, at);
      assert RevokeRows(tokens, user, at)[..|tokens| - 1] == RevokeRows(tokens[..|tokens| - 1], user, at);
    }
  }

  lemma {:induction false} RevokingOneDropsOne(tokens: seq<TokenRow>, id: nat, at: Time)
    requires id < |tokens| && Live(tokens[id])
    ensures LiveCount(tokens[id := tokens[id].(revokedAt := Some(at))], tokens[id].user)
            == LiveCount(tokens, tokens[id].user) - 1
  {
    var n := |tokens| - 1;
    var after := tokens[id := tokens[id].(revokedAt := Some(at))];
    if id == n {
      assert after[..n] == tokens[..n];
    } else {
      assert after[..n] == tokens[..n][id := tokens[id].(revokedAt := Some(at))];
      RevokingOneDropsOne(tokens[..n], id, at);
    }
  }

  lemma CountAfterAppend(tokens: seq<TokenRow>, row: TokenRow, user: nat)
    ensures LiveCount(tokens + [row], user)
            == LiveCount(tokens, user) + (if Live(row) && row.user == user then 1 else 0)
  {
    assert (tokens + [row])[..|tokens|] == tokens;
  }

  /** The row a finished or crashed issue leaves. */
  function IssuedRow(user: nat, id: nat, exp: int, crash: bool): TokenRow {
    if crash then TokenRow(user, Blank, 0, None) else TokenRow(user, Sha256(Signed(user, id, exp)), exp * 1000, None)
  }

  lemma IssueAppends(st: State, user: nat, exp: int, crash: bool)
    ensures ApplyAll(st, IssueWrites(user, |st.tokens|, exp, crash))
            == st.(tokens := st.tokens + [IssuedRow(user, |st.tokens|, exp, crash)])
  {
    var insert, fill := InsertPlaceholder(user), Fill(|st.tokens|, Signed(user, |st.tokens|, exp), exp * 1000);
    ApplyOne(st, insert);
    ApplyTwo(st, insert, fill);
  }

  lemma RefreshReplaces(st: State, raw: RawToken, at: Time, exp: int, crash: bool)
    requires Accepts(st, raw, at)
    ensures Perform(st, Refresh(raw, at, exp, crash)).tokens ==
            st.tokens[raw.jti := st.tokens[raw.jti].(revokedAt := Some(at))]
            + [IssuedRow(st.tokens[raw.jti].user, |st.tokens|, exp, crash)]
  {
    var first, user := Revoke(raw.jti, at), st.tokens[raw.jti].user;
    var rest := IssueWrites(user, |st.tokens|, exp, crash);
    IssueAppends(Apply(st, first), user, exp, crash);
    ApplyThree(st, first, rest[0], Fill(|st.tokens|, Signed(user, |st.tokens|, exp), exp * 1000));
    ApplyTwo(st, first, rest[0]);
    ApplyOne(Apply(st, first), rest[0]);
    ApplyTwo(Apply(st, first), rest[0], Fill(|st.tokens|, Signed(user, |st.tokens|, exp), exp * 1000));
    assert crash ==> [first] + rest == [first, rest[0]];
    assert !crash ==> [first] + rest == [first, rest[0], rest[1]];
  }

  // ----- each call keeps the invariant

  lemma RevokingKeeps(h: History, h': History)
    requires Inv(h) && OnlyRevokes(h.st.tokens, h'.st.tokens)
    requires h'.chain == h.chain && h'.logins == h.logins && h'.accepted == h.accepted
    requires forall user :: Since(h', user) == Since(h, user) || LiveCount(h'.st.tokens, user) == 0
    ensures Inv(h')
  {
    forall user ensures LiveCount(h'.st.tokens, user) <= Since(h', user) {
      CountAfterRevoking(h.st.tokens, h'.st.tokens, user);
    }
  }

  lemma RevokeAllKeeps(h: History, user: nat, at: Time, st: State)
    requires Inv(h) && st.tokens == RevokeRows(h.st.tokens, user, at)
    ensures Inv(h.(st := st, since := h.since[user := 0]))
  {
    RevokeAllLeavesNone(h.st.tokens, user, at);
    RevokingKeeps(h, h.(st := st, since := h.since[user := 0]));
  }

  lemma LoginKeeps(h: History, user: nat, exp: int, crash: bool, st: State)
    requires Inv(h) && st.tokens == h.st.tokens + [IssuedRow(user, |h.st.tokens|, exp, crash)]
    ensures Inv(History(st, h.chain + [h.logins], h.logins + 1, h.since[user := Since(h, user) + 1], h.accepted))
  {
    var h' := History(st, h.chain + [h.logins], h.logins + 1, h.since[user := Since(h, user) + 1], h.accepted);
    forall u ensures LiveCount(st.tokens, u) <= Since(h', u) {
      CountAfterAppend(h.st.tokens, IssuedRow(user, |h.st.tokens|, exp, crash), u);
    }
  }

  lemma RefreshKeeps(h: History, raw: RawToken, at: Time, exp: int, crash: bool)
    requires Inv(h) && Accepts(h.st, raw, at)
    ensures Inv(Track(h, Refresh(raw, at, exp, crash)))
  {
    var h' := Track(h, Refresh(raw, at, exp, crash));
    var revoked := h.st.tokens[raw.jti := h.st.tokens[raw.jti].(revokedAt := Some(at))];
    var user := h.st.tokens[raw.jti].user;
    var row := IssuedRow(user, |h.st.tokens|, exp, crash);
    RefreshReplaces(h.st, raw, at, exp, crash);
    assert h'.st.tokens == revoked + [row];
    forall u ensures LiveCount(h'.st.tokens, u) <= Since(h', u) {
      CountAfterAppend(revoked, row, u);
      CountAfterRevoking(h.st.tokens, revoked, u);
      RevokingOneDropsOne(h.st.tokens, raw.jti, at);
    }
    RotationKeepsChains(h.st.tokens, h.chain, h.logins, raw.jti, at, row);
  }

  lemma RotationKeepsChains(tokens: seq<TokenRow>, chain: seq<nat>, logins: nat, id: nat, at: Time, row: TokenRow)
    requires ChainsOk(tokens, chain, logins) && id < |tokens| && Live(tokens[id])
    ensures ChainsOk(tokens[id := tokens[id].(revokedAt := Some(at))] + [row], chain + [chain[id]], logins)
  {
  }

  lemma LoginCall(h: History, c: Call)
    requires Inv(h) && c.Login?
    ensures Inv(Track(h, c))
  {
    if CanLogin(h.st, c.email, c.password) {
      var user := FindByEmail(h.st.accounts, c.email).value;
      IssueAppends(h.st, user, c.exp, c.crash);
      LoginKeeps(h, user, c.exp, c.crash, Perform(h.st, c));
    }
  }

  lemma RefreshCall(h: History, c: Call)
    requires Inv(h) && c.Refresh?
    ensures Inv(Track(h, c))
  {
    if ReplaysRevoked(h.st, c.raw, c.at) {
      var user := h.st.tokens[c.raw.jti].user;
      ApplyOne(h.st, RevokeAll(user, c.at));
      RevokeAllKeeps(h, user, c.at, Perform(h.st, c));
    } else if Accepts(h.st, c.raw, c.at) {
      RefreshKeeps(h, c.raw, c.at, c.exp, c.crash);
    }
  }

  lemma ResetCall(h: History, c: Call)
    requires Inv(h) && c.Reset?
    ensures Inv(Track(h, c))
  {
    if CanReset(h.st, c.token, c.at) {
      var id := FindReset(h.st.resets, c.token).value;
      ApplyOne(h.st, UseReset(id, c.password, c.at));
      RevokeAllKeeps(h, h.st.resets[id].user, c.at, Perform(h.st, c));
    }
  }

  lemma BlockOrDeleteCall(h: History, c: Call)
    requires Inv(h) && (c.Block? || c.Delete?)
    ensures Inv(Track(h, c))
  {
    var user, at := c.user, c.at;
    if IsManager(h.st, user) {
      ApplyTwo(h.st, if c.Block? then SetActive(user, false) else Anonymise(user), RevokeAll(user, at));
      RevokeAllKeeps(h, user, at, Perform(h.st, c));
    }
  }

  /** Calls that at most revoke one row. */
  lemma OtherCall(h: History, c: Call)
    requires Inv(h) && (c.Logout? || c.Forgot? || c.Unblock? || c.CreateManager?)
    ensures Inv(Track(h, c))
  {
    var ws := Writes(h.st, c);
    if ws != [] {
      ApplyOne(h.st, ws[0]);
      assert ws == [ws[0]];
    }
    RevokingKeeps(h, Track(h, c));
  }

  lemma TrackKeepsInv(h: History, c: Call)
    requires Inv(h)
    ensures Inv(Track(h, c))
  {
    match c
    case Login(_, _, _, _, _) => LoginCall(h, c);
    case Refresh(_, _, _, _) => RefreshCall(h, c);
    case Reset(_, _, _) => ResetCall(h, c);
    case Block(_, _) => BlockOrDeleteCall(h, c);
    case Delete(_, _) => BlockOrDeleteCall(h, c);
    case _ => OtherCall(h, c);
  }

  lemma {:induction false} RunsKeepInv(calls: seq<Call>)
    ensures Inv(Run(calls))
  {
    if calls != [] {
      RunsKeepInv(calls[..|calls| - 1]);
      TrackKeepsInv(Run(calls[..|calls| - 1]), calls[|calls| - 1]);
    }
  }

  // ----- rotation over every serial run

  /** No refresh row is accepted twice. */
  lemma AcceptedOnce(calls: seq<Call>, i: nat, j: nat)
    requires i < j < |Run(calls).accepted|
    ensures Run(calls).accepted[i] != Run(calls).accepted[j]
  {
    RunsKeepInv(calls);
  }

  /** The rotation chain of a login never has two unrevoked rows. */
  lemma OneLiveRowPerLogin(calls: seq<Call>)
    ensures ChainsOk(Run(calls).st.tokens, Run(calls).chain, Run(calls).logins)
  {
    RunsKeepInv(calls);
  }

  /** A user never has more unrevoked rows than logins since the last revoke-all. */
  lemma LiveRowsBoundedByLogins(calls: seq<Call>, user: nat)
    ensures LiveCount(Run(calls).st.tokens, user) <= Since(Run(calls), user)
  {
    RunsKeepInv(calls);
  }

  /** Presenting a revoked row, expired or not, leaves its user without a single unrevoked row. */
  lemma ReplayEndsAllSessions(st: State, raw: RawToken, at: Time, exp: int, crash: bool)
    requires raw.Signed? && at / 1000 < raw.exp && raw.jti < |st.tokens| && st.tokens[raw.jti].revokedAt.Some?
    ensures var user := st.tokens[raw.jti].user;
            var after := Perform(st, Refresh(raw, at, exp, crash));
            && LiveCount(after.tokens, user) == 0
            && SessionsEnded(after, user) && OthersKeepTokens(st.tokens, after.tokens, user)
  {
    var user := st.tokens[raw.jti].user;
    ApplyOne(st, RevokeAll(user, at));
    RevokeAllLeavesNone(st.tokens, user, at);
    RevokeAllEnds(st.tokens, Perform(st, Refresh(raw, at, exp, crash)), user, at);
  }

  /** A token just issued is accepted until it expires, as long as the row and the account stay as they are. */
  lemma IssuedTokenIsAccepted(st: State, user: nat, exp: int, now: Time)
    requires ActiveUser(st, user) && now / 1000 < exp
    ensures Accepts(ApplyAll(st, IssueWrites(user, |st.tokens|, exp, false)), Signed(user, |st.tokens|, exp), now)
  {
    IssueAppends(st, user, exp, false);
  }

  // ----- what the calls mean to a user

  /** Whatever is presented whenever, no row of the user is accepted. */
  ghost predicate SessionsEnded(st: State, user: nat) {
    forall raw, now :: Accepts(st, raw, now) ==> st.tokens[raw.jti].user != user
  }

  ghost predicate OthersKeepTokens(before: seq<TokenRow>, after: seq<TokenRow>, user: nat) {
    |after| == |before| && forall i | 0 <= i < |before| && before[i].user != user :: after[i] == before[i]
  }

  /** Exactly the user's unrevoked rows are revoked, now; rows revoked before keep their date. */
  ghost predicate RevokesJust(before: seq<TokenRow>, after: seq<TokenRow>, user: nat, at: Time) {
    && |after| == |before|
    && forall i | 0 <= i < |before| ::
         if before[i].user == user && before[i].revokedAt.None? then after[i] == before[i].(revokedAt := Some(at))
         else after[i] == before[i]
  }

  ghost predicate OthersKeepAccounts(before: seq<Account>, after: seq<Account>, user: nat) {
    |after| == |before| && forall i | 0 <= i < |before| && i != user :: after[i] == before[i]
  }

  ghost predicate CannotLogIn(st: State, user: nat) {
    forall email, password :: CanLogin(st, email, password) ==> FindByEmail(st.accounts, email) != Some(user)
  }

  /** Nothing of a revoked user is accepted any more, and nobody else loses a token. */
  lemma RevokeAllEnds(before: seq<TokenRow>, st: State, user: nat, at: Time)
    requires st.tokens == RevokeRows(before, user, at)
    ensures SessionsEnded(st, user) && OthersKeepTokens(before, st.tokens, user)
    ensures RevokesJust(before, st.tokens, user, at)
  {
  }

  /** A manager who is blocked and unblocked again has to log in: none of the tokens comes back. */
  lemma UnblockingRevivesNothing(st: State, user: nat, at: Time)
    requires IsManager(st, user)
    ensures var after := Perform(Perform(st, Block(user, at)), Unblock(user));
            ActiveUser(after, user) && SessionsEnded(after, user)
  {
    ApplyTwo(st, SetActive(user, false), RevokeAll(user, at));
    var blocked := Perform(st, Block(user, at));
    ApplyOne(blocked, SetActive(user, true));
    RevokeAllEnds(st.tokens, Perform(blocked, Unblock(user)), user, at);
  }

  /** A refresh that passed its checks before a password reset writes after it: the old session goes on
      with a token the reset never saw. */
  lemma RefreshOutrunsReset(st: State, reset: nat, password: string, raw: RawToken, at: Time, exp: int, now: Time)
    requires Accepts(st, raw, at) && now / 1000 < exp
    requires reset < |st.resets| && st.resets[reset].user == st.tokens[raw.jti].user
    ensures var user := st.tokens[raw.jti].user;
            var afterReset := Apply(st, UseReset(reset, password, at));
            && SessionsEnded(afterReset, user)
            && Accepts(ApplyAll(Apply(afterReset, Revoke(raw.jti, at)), IssueWrites(user, |st.tokens|, exp, false)),
                       Signed(user, |st.tokens|, exp), now)
  {
    var user := st.tokens[raw.jti].user;
    var afterReset := Apply(st, UseReset(reset, password, at));
    RevokeAllEnds(st.tokens, afterReset, user, at);
    IssuedTokenIsAccepted(Apply(afterReset, Revoke(raw.jti, at)), user, exp, now);
  }

  // ----- what an accepted token says about its owner

  /** A filled row stores the hash of the token issued for it, which names the row and its user. */
  ghost predicate Named(row: TokenRow, id: nat) {
    row.hash == Blank || exists exp :: row.hash == Sha256(Signed(row.user, id, exp)) && row.expiresAt == exp * 1000
  }

  ghost predicate AllNamed(tokens: seq<TokenRow>) {
    forall i | 0 <= i < |tokens| :: Named(tokens[i], i)
  }

  /** Rows keep everything but the revocation date. */
  ghost predicate OnlyDates(before: seq<TokenRow>, after: seq<TokenRow>) {
    |after| == |before| && forall i | 0 <= i < |before| :: after[i] == before[i].(revokedAt := after[i].revokedAt)
  }

  lemma DatesKeepNames(before: seq<TokenRow>, after: seq<TokenRow>)
    requires AllNamed(before) && OnlyDates(before, after)
    ensures AllNamed(after)
  {
    forall i | 0 <= i < |after| ensures Named(after[i], i) {
      assert Named(before[i], i);
    }
  }

  lemma IssuedIsNamed(tokens: seq<TokenRow>, user: nat, exp: int, crash: bool)
    requires AllNamed(tokens)
    ensures AllNamed(tokens + [IssuedRow(user, |tokens|, exp, crash)])
  {
    var row := IssuedRow(user, |tokens|, exp, crash);
    assert !crash ==> row.hash == Sha256(Signed(row.user, |tokens|, exp)) && row.expiresAt == exp * 1000;
    forall i | 0 <= i < |tokens + [row]| ensures Named((tokens + [row])[i], i) {
      assert i < |tokens| ==> Named(tokens[i], i);
    }
  }

  lemma CallKeepsNames(st: State, c: Call)
    requires AllNamed(st.tokens)
    ensures AllNamed(Perform(st, c).tokens)
  {
    match c
    case Login(email, password, _, exp, crash) =>
      if CanLogin(st, email, password) {
        var user := FindByEmail(st.accounts, email).value;
        IssueAppends(st, user, exp, crash);
        IssuedIsNamed(st.tokens, user, exp, crash);
      }
    case Refresh(raw, at, exp, crash) =>
      if ReplaysRevoked(st, raw, at) {
        ApplyOne(st, RevokeAll(st.tokens[raw.jti].user, at));
        DatesKeepNames(st.tokens, Perform(st, c).tokens);
      } else if Accepts(st, raw, at) {
        RefreshReplaces(st, raw, at, exp, crash);
        var revoked := st.tokens[raw.jti := st.tokens[raw.jti].(revokedAt := Some(at))];
        DatesKeepNames(st.tokens, revoked);
        IssuedIsNamed(revoked, st.tokens[raw.jti].user, exp, crash);
      }
    case Block(user, at) => BlockOrDeleteDates(st, c);
    case Delete(user, at) => BlockOrDeleteDates(st, c);
    case _ => OneWriteDates(st, c);
  }

  lemma BlockOrDeleteDates(st: State, c: Call)
    requires AllNamed(st.tokens) && (c.Block? || c.Delete?)
    ensures AllNamed(Perform(st, c).tokens)
  {
    if IsManager(st, c.user) {
      ApplyTwo(st, if c.Block? then SetActive(c.user, false) else Anonymise(c.user), RevokeAll(c.user, c.at));
      DatesKeepNames(st.tokens, Perform(st, c).tokens);
    }
  }

  lemma OneWriteDates(st: State, c: Call)
    requires AllNamed(st.tokens) && (c.Logout? || c.Forgot? || c.Reset? || c.Unblock? || c.CreateManager?)
    ensures AllNamed(Perform(st, c).tokens)
  {
    var ws := Writes(st, c);
    if ws != [] {
      ApplyOne(st, ws[0]);
      assert ws == [ws[0]];
      DatesKeepNames(st.tokens, Apply(st, ws[0]).tokens);
    }
  }

  lemma {:induction false} RunsKeepNames(calls: seq<Call>)
    ensures AllNamed(Run(calls).st.tokens)
  {
    if calls != [] {
      RunsKeepNames(calls[..|calls| - 1]);
      CallKeepsNames(Run(calls[..|calls| - 1]).st, calls[|calls| - 1]);
    }
  }

  /** Over every serial run an accepted token is the very one issued for its row: it names the row's
      user, who is active, and the row and the token expire at the same second. */
  lemma AcceptedTokenNamesItsUser(calls: seq<Call>, raw: RawToken, now: Time)
    requires Accepts(Run(calls).st, raw, now)
    ensures var row := Run(calls).st.tokens[raw.jti];
            raw.sub == row.user && ActiveUser(Run(calls).st, raw.sub) && row.expiresAt == raw.exp * 1000
  {
    RunsKeepNames(calls);
    assert Named(Run(calls).st.tokens[raw.jti], raw.jti);
  }
}
