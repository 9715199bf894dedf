/** The admin listing `GET /api/admin/registrations`
    (src/app/api/admin/registrations/route.ts): `verifyAdmin`, then every registration,
    newest first. */
module AdminRegistrations {
  import opened Types
  import opened Seqs
  import opened Sessions
  import opened AdminAuth

  /** `verifyAdmin()`: a cookie value whose single-row lookup yields a live session. The
      route keeps only the select's `data`, which is null when the select fails
      (`lookupFailed`). */
  function VerifyAdmin(sessions: seq<Session>, cookie: Option<string>, now: int, lookupFailed: bool): (ok: bool)
    ensures !Truthy(cookie) || lookupFailed ==> !ok
    ensures ok ==> exists s :: s in sessions && s.token == cookie.value && s.expiresAt > now
  {
    if Truthy(cookie) && !lookupFailed && LiveSessionFound(sessions, cookie.value, now) then
      FilterWitness(sessions, LiveFor(cookie.value, now));
      true
    else
      false
  }

  /** `verifyAdmin` accepts exactly what the session probe accepts. */
  lemma VerifyAdminIsProbe(sessions: seq<Session>, cookie: Option<string>, now: int, lookupFailed: bool)
    ensures VerifyAdmin(sessions, cookie, now, lookupFailed) <==>
      AuthProbe(sessions, cookie, now, lookupFailed) == Authenticated
  {
  }

  /** When at most one live row carries the cookie's token, `verifyAdmin` holds after a
      successful select iff an unexpired row carries it. */
  lemma VerifyAdminIffUnexpired(sessions: seq<Session>, cookie: Option<string>, now: int)
    requires Truthy(cookie) ==>
      forall i, j :: 0 <= i < j < |sessions| && sessions[i].token == cookie.value && sessions[i].expiresAt > now
        ==> !(sessions[j].token == cookie.value && sessions[j].expiresAt > now)
    ensures VerifyAdmin(sessions, cookie, now, false) <==>
      Truthy(cookie) && exists i :: 0 <= i < |sessions| && sessions[i].token == cookie.value
                                    && sessions[i].expiresAt > now
  {
    if Truthy(cookie) {
      CountOneIffExists(sessions, LiveFor(cookie.value, now));
    }
  }

  /** `.order('created_at', { ascending: false })`: non-increasing creation time. */
  predicate NewestFirst(s: seq<Registration>) {
    forall i, j :: 0 <= i < j < |s| ==> s[i].createdAt >= s[j].createdAt
  }

  /** Places `r` before the first registration that is not newer than it. */
  function InsertNewestFirst(r: Registration, s: seq<Registration>): (t: seq<Registration>)
    requires NewestFirst(s)
    ensures NewestFirst(t)
    ensures multiset(t) == multiset(s) + multiset{r}
    ensures forall x :: x in t <==> x == r || x in s
  {
    if s == [] || r.createdAt >= s[0].createdAt then
      [r] + s
    else
      var rest := InsertNewestFirst(r, s[1..]);
      HeadNotOlder(s[0], r, s[1..], rest);
      assert s == [s[0]] + s[1..];
      [s[0]] + rest
  }

  /** A head no newer than `r` or any of the sorted tail stays a valid head. */
  lemma HeadNotOlder(head: Registration, r: Registration, tail: seq<Registration>, rest: seq<Registration>)
    requires NewestFirst([head] + tail) && NewestFirst(rest)
    requires head.createdAt > r.createdAt
    requires forall x :: x in rest <==> x == r || x in tail
    ensures NewestFirst([head] + rest)
  {
    var t := [head] + rest;
    forall i, j | 0 <= i < j < |t| ensures t[i].createdAt >= t[j].createdAt {
      if i == 0 {
        assert t[i] == head && t[j] in rest;
        if t[j] != r {
          var ht := [head] + tail;
          var m :| 0 <= m < |tail| && tail[m] == t[j];
          assert ht[0] == head && ht[m + 1] == t[j];
          assert ht[0].createdAt >= ht[m + 1].createdAt;
        }
      } else {
        assert t[i] == rest[i - 1] && t[j] == rest[j - 1];
      }
    }
  }

  /** The order the database returns: a rearrangement of the table, newest first. The
      database leaves the order of equal creation times open; this insertion sort is one
      such order. */
  function SortNewestFirst(s: seq<Registration>): (t: seq<Registration>)
    ensures NewestFirst(t)
    ensures multiset(t) == multiset(s)
  {
    if s == [] then []
    else
      assert s == [s[0]] + s[1..];
      InsertNewestFirst(s[0], SortNewestFirst(s[1..]))
  }

  /** The listing holds every registration exactly once: same length, same members. */
  lemma SortKeepsEveryRow(s: seq<Registration>)
    ensures |SortNewestFirst(s)| == |s|
    ensures forall r :: r in SortNewestFirst(s) <==> r in s
  {
    var t := SortNewestFirst(s);
    assert |multiset(t)| == |multiset(s)|;
    forall r ensures r in t <==> r in s {
      assert r in t <==> r in multiset(t);
      assert r in s <==> r in multiset(s);
    }
  }

  datatype ListResult = Unauthorized | FetchFailed | Listing(registrations: seq<Registration>)

  function ListStatus(r: ListResult): (code: int)
    ensures code == 200 <==> r.Listing?
    ensures code == 401 <==> r == Unauthorized
    ensures code == 500 <==> r == FetchFailed
  {
    match r
    case Unauthorized => 401
    case FetchFailed => 500
    case Listing(_) => 200
  }

  function ListError(r: ListResult): (message: Option<string>)
    ensures message.None? <==> r.Listing?
  {
    match r
    case Unauthorized => Some("Unauthorized")
    case FetchFailed => Some("Failed to fetch registrations")
    case Listing(_) => None
  }

  /** `GET /api/admin/registrations` over the session table and the registrations table
      `store`; `sessionLookupFailed` and `fetchFailed` stand for failed selects on them. */
  function ListRegistrations(sessions: seq<Session>, cookie: Option<string>, now: int, sessionLookupFailed: bool,
                             store: seq<Registration>, fetchFailed: bool): (r: ListResult)
    ensures r == Unauthorized <==> !VerifyAdmin(sessions, cookie, now, sessionLookupFailed)
    ensures r == FetchFailed <==> VerifyAdmin(sessions, cookie, now, sessionLookupFailed) && fetchFailed
    ensures r.Listing? ==> NewestFirst(r.registrations) && multiset(r.registrations) == multiset(store)
  {
    if !VerifyAdmin(sessions, cookie, now, sessionLookupFailed) then Unauthorized
    else if fetchFailed then FetchFailed
    else Listing(SortNewestFirst(store))
  }

  /** An unauthorized request never depends on the registrations table. */
  lemma UnauthorizedIgnoresStore(sessions: seq<Session>, cookie: Option<string>, now: int, sessionLookupFailed: bool,
                                 store1: seq<Registration>, failed1: bool,
                                 store2: seq<Registration>, failed2: bool)
    requires !VerifyAdmin(sessions, cookie, now, sessionLookupFailed)
    ensures ListRegistrations(sessions, cookie, now, sessionLookupFailed, store1, failed1)
         == ListRegistrations(sessions, cookie, now, sessionLookupFailed, store2, failed2)
         == Unauthorized
  {
  }

  /** After logout of a token, a listing with that token is refused. */
  lemma LoggedOutCannotList(sessions: seq<Session>, token: string, now: int, sessionLookupFailed: bool,
                            store: seq<Registration>, fetchFailed: bool)
    ensures ListRegistrations(WithoutToken(sessions, token), Some(token), now, sessionLookupFailed, store, fetchFailed)
         == Unauthorized
  {
    LoggedOutRejected(sessions, token, now, sessionLookupFailed);
  }
}
