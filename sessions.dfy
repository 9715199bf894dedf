/** The `admin_sessions` table and the two routes that change it: login
    (src/app/api/admin/login/route.ts) inserts a row, logout
    (src/app/api/admin/logout/route.ts) deletes rows by token. Time is in milliseconds. */
module Sessions {
  import opened Types
  import opened Seqs
  import opened Text

  /** One session row. */
  datatype Session = Session(adminId: string, token: string, expiresAt: int)

  /** The validity window of a session row: 24 hours. */
  const SessionWindowMs: int := 24 * 60 * 60 * 1000

  /** The `maxAge` of the session cookie: 24 hours, in seconds. */
  const CookieMaxAgeSeconds: int := 24 * 60 * 60

  const CookieName: string := "admin_session"

  /** The session cookie as set on a successful login. */
  datatype Cookie = Cookie(name: string, value: string, maxAgeSeconds: int, httpOnly: bool,
                           sameSite: string, path: string)

  /** The session token before its base64 encoding: `<admin id>:<milliseconds>`. The
      encoding is injective, so tokens compare as these strings do. */
  function SessionToken(adminId: string, now: nat): (token: string)
    ensures |token| > |adminId| && token[..|adminId|] == adminId && token[|adminId|] == ':'
    ensures token[|adminId| + 1..] == Decimal(now)
  {
    adminId + ":" + Decimal(now)
  }

  /** Two logins mint the same token only when the same administrator logs in twice
      within one millisecond, whatever characters the identifiers hold: the token's last
      ':' ends the identifier, since only digits follow it. */
  lemma SessionTokenInjective(a1: string, n1: nat, a2: string, n2: nat)
    requires SessionToken(a1, n1) == SessionToken(a2, n2)
    ensures a1 == a2 && n1 == n2
  {
    var t := SessionToken(a1, n1);
    TokenIdLengthNotShorter(a1, n1, a2, n2);
    TokenIdLengthNotShorter(a2, n2, a1, n1);
    assert a1 == t[..|a1|] == a2;
    assert Decimal(n1) == t[|a1| + 1..] == Decimal(n2);
    DecimalInjective(n1, n2);
  }

  /** In a shared token, the ':' after one identifier cannot fall among the digits after
      the other, so neither identifier is the shorter. */
  lemma TokenIdLengthNotShorter(a1: string, n1: nat, a2: string, n2: nat)
    requires SessionToken(a1, n1) == SessionToken(a2, n2)
    ensures |a2| <= |a1|
  {
    var t := SessionToken(a1, n1);
    DigitsAfterId(a1, n1);
    assert t[|a2|] == ':' && !IsDigit(':');
  }

  /** Everything after the identifier's ':' is a digit. */
  lemma DigitsAfterId(adminId: string, now: nat)
    ensures var t := SessionToken(adminId, now);
      forall k :: |adminId| < k < |t| ==> IsDigit(t[k])
  {
    var t := SessionToken(adminId, now);
    forall k | |adminId| < k < |t| ensures IsDigit(t[k]) {
      assert t[k] == Decimal(now)[k - |adminId| - 1];
    }
  }

  /** The rows `.eq('token', token).gt('expires_at', now)` selects. */
  function LiveFor(token: string, now: int): Session -> bool {
    (s: Session) => s.token == token && s.expiresAt > now
  }

  /** `.single()` on that query yields a session exactly when one row matches. */
  predicate LiveSessionFound(rows: seq<Session>, token: string, now: int) {
    Count(rows, LiveFor(token, now)) == 1
  }

  predicate UniqueTokens(rows: seq<Session>) {
    forall i, j :: 0 <= i < j < |rows| ==> rows[i].token != rows[j].token
  }

  /** With distinct tokens, the single-row lookup succeeds iff some row carries the token
      and expires strictly after `now`. */
  lemma LiveSessionFoundIffUnexpired(rows: seq<Session>, token: string, now: int)
    requires UniqueTokens(rows)
    ensures LiveSessionFound(rows, token, now) <==>
      exists i :: 0 <= i < |rows| && rows[i].token == token && rows[i].expiresAt > now
  {
    CountOneIffExists(rows, LiveFor(token, now));
  }

  function TokenIsNot(token: string): Session -> bool {
    (s: Session) => s.token != token
  }

  /** `.delete().eq('token', token)`: every row with the token goes, the others stay in order. */
  function WithoutToken(rows: seq<Session>, token: string): (rest: seq<Session>)
    ensures forall s :: s in rest <==> s in rows && s.token != token
    ensures forall s :: multiset(rest)[s] == if s.token != token then multiset(rows)[s] else 0
    ensures IsSubsequence(rest, rows)
  {
    FilterIsSubsequence(rows, TokenIsNot(token));
    FilterMultiset(rows, TokenIsNot(token));
    Filter(rows, TokenIsNot(token))
  }

  /** Deleting by token twice leaves what deleting once left. */
  lemma WithoutTokenIdempotent(rows: seq<Session>, token: string)
    ensures WithoutToken(WithoutToken(rows, token), token) == WithoutToken(rows, token)
  {
    FilterIdempotent(rows, TokenIsNot(token));
  }

  /** Distinct tokens give the premise of the auth lemmas: at most one live row carries
      any one token. */
  lemma UniqueTokensAtMostOneLive(rows: seq<Session>, token: string, now: int)
    requires UniqueTokens(rows)
    ensures forall i, j :: 0 <= i < j < |rows| && rows[i].token == token && rows[i].expiresAt > now
              ==> !(rows[j].token == token && rows[j].expiresAt > now)
  {
  }

  /** A table without the token still has distinct tokens if it had them before. */
  lemma WithoutTokenKeepsUnique(rows: seq<Session>, token: string)
    requires UniqueTokens(rows)
    ensures UniqueTokens(WithoutToken(rows, token))
  {
    KeepsDistinct(rows, TokenIsNot(token));
  }

  lemma {:induction false} KeepsDistinct(rows: seq<Session>, p: Session -> bool)
    requires UniqueTokens(rows)
    ensures UniqueTokens(Filter(rows, p))
    decreases |rows|
  {
    if rows != [] {
      KeepsDistinct(rows[1..], p);
      var rest := Filter(rows[1..], p);
      if p(rows[0]) {
        forall k | 0 <= k < |rest| ensures rest[k].token != rows[0].token {
          assert rest[k] in rows[1..];
        }
      }
    }
  }

  datatype LoginResult = LoggedIn(cookie: Cookie) | LoginFailed(status: int, message: string)

  const MissingCredentials: LoginResult := LoginFailed(400, "Email and password are required")

  /** The one answer for an unknown e-mail and for a wrong password alike. */
  const InvalidCredentials: LoginResult := LoginFailed(401, "Invalid credentials")

  function EmailIs(email: string): AdminUser -> bool {
    (a: AdminUser) => a.email == email
  }

  /** The `admin_users` rows `.eq('email', email)` selects; `.single()` needs exactly one. */
  function AdminsWithEmail(admins: seq<AdminUser>, email: string): (found: seq<AdminUser>)
    ensures forall a :: a in found <==> a in admins && a.email == email
    ensures forall a :: multiset(found)[a] == if a.email == email then multiset(admins)[a] else 0
  {
    FilterMultiset(admins, EmailIs(email));
    Filter(admins, EmailIs(email))
  }

  datatype LogoutResult = LogoutResult(success: bool, clearsCookie: bool)

  /** The `admin_sessions` table. Rows are never swept: an expired row stays until its
      token is logged out. */
  class SessionTable {
    var rows: seq<Session>

    constructor ()
      ensures rows == []
    {
      rows := [];
    }

    /** `POST /api/admin/login`. `admins` is the `admin_users` table and `adminLookupFailed`
        a failed select on it; `passwordMatches` stands for `bcrypt.compare`. The route reads
        the clock twice: `now` is the `Date.now()` in the token and `expiryNow` the one the
        expiry is computed from. `insertFailed` stands for a failed session insert, whose
        outcome the route does not inspect. */
    method Login(email: Option<string>, password: Option<string>, admins: seq<AdminUser>,
                 adminLookupFailed: bool, passwordMatches: (string, string) -> bool,
                 now: nat, expiryNow: int, insertFailed: bool)
      returns (result: LoginResult)
      modifies this
      ensures !(Truthy(email) && Truthy(password)) ==> result == MissingCredentials
      ensures Truthy(email) && Truthy(password)
        && (adminLookupFailed || |AdminsWithEmail(admins, email.value)| != 1)
        ==> result == InvalidCredentials
      ensures Truthy(email) && Truthy(password) && !adminLookupFailed
        && |AdminsWithEmail(admins, email.value)| == 1
        && !passwordMatches(password.value, AdminsWithEmail(admins, email.value)[0].passwordHash)
        ==> result == InvalidCredentials
      ensures result.LoggedIn? <==>
        && Truthy(email) && Truthy(password) && !adminLookupFailed
        && |AdminsWithEmail(admins, email.value)| == 1
        && passwordMatches(password.value, AdminsWithEmail(admins, email.value)[0].passwordHash)
      ensures result.LoginFailed? ==> rows == old(rows)
      ensures result.LoggedIn? ==>
        var admin := AdminsWithEmail(admins, email.value)[0];
        && result.cookie == Cookie(CookieName, SessionToken(admin.id, now), CookieMaxAgeSeconds, true, "lax", "/")
        && rows == old(rows) + (if insertFailed then [] else [Session(admin.id, SessionToken(admin.id, now), expiryNow + SessionWindowMs)])
      ensures result.LoggedIn? ==> result.cookie.maxAgeSeconds * 1000 == SessionWindowMs
    {
      if !(Truthy(email) && Truthy(password)) {
        return MissingCredentials;
      }
      var found := AdminsWithEmail(admins, email.value);
      if adminLookupFailed || |found| != 1 {
        return InvalidCredentials;
      }
      var admin := found[0];
      var isValid := passwordMatches(password.value, admin.passwordHash);
      if !isValid {
        return InvalidCredentials;
      }
      var sessionToken := SessionToken(admin.id, now);
      if !insertFailed {
        rows := rows + [Session(admin.id, sessionToken, expiryNow + SessionWindowMs)];
      }
      return LoggedIn(Cookie(CookieName, sessionToken, CookieMaxAgeSeconds, true, "lax", "/"));
    }

    /** `POST /api/admin/logout`: with a cookie, delete its rows and clear it. The answer is
        success in every case; `deleteFailed` stands for a delete the database refused. */
    method Logout(cookie: Option<string>, deleteFailed: bool) returns (result: LogoutResult)
      modifies this
      ensures result.success
      ensures result.clearsCookie == Truthy(cookie)
      ensures rows == if Truthy(cookie) && !deleteFailed then WithoutToken(old(rows), cookie.value) else old(rows)
    {
      if Truthy(cookie) {
        if !deleteFailed {
          rows := WithoutToken(rows, cookie.value);
        }
        return LogoutResult(true, true);
      }
      return LogoutResult(true, false);
    }
  }
}
