/** The session probe `GET /api/admin/auth` (src/app/api/admin/auth/route.ts): a read-only
    lookup of the session cookie in the `admin_sessions` table. */
module AdminAuth {
  import opened Types
  import opened Seqs
  import opened Sessions

  datatype AuthResult = Authenticated | NotAuthenticated | InvalidOrExpired

  /** The HTTP status of the answer: 200 for `{ authenticated: true }`, 401 otherwise. */
  function AuthStatus(r: AuthResult): (code: int)
    ensures code == 200 <==> r == Authenticated
    ensures code == 200 || code == 401
  {
    if r == Authenticated then 200 else 401
  }

  /** The `error` field of a refusal. */
  function AuthError(r: AuthResult): (message: Option<string>)
    ensures message.None? <==> r == Authenticated
  {
    match r
    case Authenticated => None
    case NotAuthenticated => Some("Not authenticated")
    case InvalidOrExpired => Some("Invalid or expired session")
  }

  /** The probe at time `now` (milliseconds); `lookupFailed` stands for a select that
      returned an error. No cookie value, a failed select, or a lookup that does not yield
      exactly one live row, is a refusal. Being a function of the table, the probe leaves
      the table as it was. */
  function AuthProbe(rows: seq<Session>, cookie: Option<string>, now: int, lookupFailed: bool): (r: AuthResult)
    ensures r == NotAuthenticated <==> !Truthy(cookie)
    ensures r == Authenticated ==>
      && !lookupFailed && Truthy(cookie)
      && exists s :: s in rows && s.token == cookie.value && s.expiresAt > now
  {
    if !Truthy(cookie) then NotAuthenticated
    else if !lookupFailed && LiveSessionFound(rows, cookie.value, now) then
      FilterWitness(rows, LiveFor(cookie.value, now));
      Authenticated
    else InvalidOrExpired
  }

  /** When at most one live row carries the token, a successful lookup accepts it exactly
      when some row has the token and expires strictly after `now`. */
  lemma ProbeIffUnexpired(rows: seq<Session>, token: string, now: int)
    requires token != ""
    requires forall i, j :: 0 <= i < j < |rows| && rows[i].token == token && rows[i].expiresAt > now
               ==> !(rows[j].token == token && rows[j].expiresAt > now)
    ensures AuthProbe(rows, Some(token), now, false) == Authenticated <==>
      exists i :: 0 <= i < |rows| && rows[i].token == token && rows[i].expiresAt > now
  {
    CountOneIffExists(rows, LiveFor(token, now));
  }

  /** On a table with distinct tokens, which logout keeps, a successful lookup accepts a
      token exactly when a row with it is unexpired, before and after any logout. */
  lemma UniqueTokensProbeIff(rows: seq<Session>, token: string, now: int, loggedOut: string)
    requires token != "" && UniqueTokens(rows)
    ensures AuthProbe(rows, Some(token), now, false) == Authenticated <==>
      exists i :: 0 <= i < |rows| && rows[i].token == token && rows[i].expiresAt > now
    ensures var rest := WithoutToken(rows, loggedOut);
      AuthProbe(rest, Some(token), now, false) == Authenticated <==>
      exists i :: 0 <= i < |rest| && rest[i].token == token && rest[i].expiresAt > now
  {
    UniqueTokensAtMostOneLive(rows, token, now);
    ProbeIffUnexpired(rows, token, now);
    var rest := WithoutToken(rows, loggedOut);
    WithoutTokenKeepsUnique(rows, loggedOut);
    UniqueTokensAtMostOneLive(rest, token, now);
    ProbeIffUnexpired(rest, token, now);
  }

  /** An unknown token and an expired one get the same refusal, whether or not the select
      failed. */
  lemma UnknownAndExpiredAlike(rows: seq<Session>, token: string, now: int, lookupFailed: bool)
    requires token != ""
    requires forall i :: 0 <= i < |rows| && rows[i].token == token ==> rows[i].expiresAt <= now
    ensures AuthProbe(rows, Some(token), now, lookupFailed) == InvalidOrExpired
    ensures AuthProbe([], Some(token), now, false) == AuthProbe(rows, Some(token), now, lookupFailed)
  {
    FilterKeepsNone(rows, LiveFor(token, now));
  }

  /** Once every row with the token has expired by `expiredAt`, the token is refused at
      every later time. */
  lemma ExpiredStaysRejected(rows: seq<Session>, token: string, expiredAt: int, later: int, lookupFailed: bool)
    requires forall i :: 0 <= i < |rows| && rows[i].token == token ==> rows[i].expiresAt <= expiredAt
    requires expiredAt <= later
    ensures AuthProbe(rows, Some(token), later, lookupFailed) != Authenticated
  {
    FilterKeepsNone(rows, LiveFor(token, later));
  }

  /** After logout deleted the token's rows, the probe refuses that token. */
  lemma LoggedOutRejected(rows: seq<Session>, token: string, now: int, lookupFailed: bool)
    ensures AuthProbe(WithoutToken(rows, token), Some(token), now, lookupFailed) != Authenticated
  {
    var rest := WithoutToken(rows, token);
    forall i | 0 <= i < |rest| ensures !LiveFor(token, now)(rest[i]) {
      assert rest[i] in rest;
    }
    FilterKeepsNone(rest, LiveFor(token, now));
  }

  /** The row a login adds, with its token minted at `issuedAt` and its expiry computed
      from the later clock reading `expiryNow`, makes a successful lookup accept the token
      exactly while `t < expiryNow + 24h`, provided no earlier row carries the token. */
  lemma FreshLoginAccepted(rows: seq<Session>, adminId: string, issuedAt: nat, expiryNow: int, t: int)
    requires forall i :: 0 <= i < |rows| ==> rows[i].token != SessionToken(adminId, issuedAt)
    ensures var token := SessionToken(adminId, issuedAt);
      AuthProbe(rows + [Session(adminId, token, expiryNow + SessionWindowMs)], Some(token), t, false) == Authenticated
      <==> t < expiryNow + SessionWindowMs
  {
    var token := SessionToken(adminId, issuedAt);
    var row := Session(adminId, token, expiryNow + SessionWindowMs);
    FilterKeepsNone(rows, LiveFor(token, t));
    FilterAppend(rows, [row], LiveFor(token, t));
  }

  /** Two live rows with the same token (two logins of one administrator within the same
      millisecond) make the single-row lookup fail, so the token is refused. */
  lemma DuplicateTokenRejected(rows: seq<Session>, token: string, now: int, i: int, j: int, lookupFailed: bool)
    requires 0 <= i < j < |rows|
    requires rows[i].token == token && rows[j].token == token
    requires rows[i].expiresAt > now && rows[j].expiresAt > now
    ensures AuthProbe(rows, Some(token), now, lookupFailed) != Authenticated
  {
    CountAtLeastTwo(rows, LiveFor(token, now), i, j);
  }

  /** The same administrator logging in twice in one millisecond locks that token out
      while both rows are live. */
  lemma SameMillisecondLoginsRejected(rows: seq<Session>, adminId: string, now: nat,
                                      expiry1: int, expiry2: int, t: int)
    requires t < expiry1 + SessionWindowMs && t < expiry2 + SessionWindowMs
    ensures var token := SessionToken(adminId, now);
      var rows' := rows + [Session(adminId, token, expiry1 + SessionWindowMs)]
                        + [Session(adminId, token, expiry2 + SessionWindowMs)];
      AuthProbe(rows', Some(token), t, false) != Authenticated
  {
    var token := SessionToken(adminId, now);
    var rows' := rows + [Session(adminId, token, expiry1 + SessionWindowMs)]
                      + [Session(adminId, token, expiry2 + SessionWindowMs)];
    DuplicateTokenRejected(rows', token, t, |rows|, |rows| + 1, false);
  }
}
