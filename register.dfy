/** The public registration endpoint (src/app/api/register/route.ts): a fail-fast
    validation chain followed by the insert of one pending registration. */
module Register {
  import opened Types
  import opened Seqs
  import opened Patterns

  /** An uploaded file as the route sees it: its client-side name and its size in bytes. */
  datatype File = File(name: string, size: nat)

  /** The multipart form body. `formData.get` yields null for an absent text field. */
  datatype Submission = Submission(
    name: Option<string>,
    email: Option<string>,
    phone: Option<string>,
    rollCollege: Option<string>,
    utr: Option<string>,
    screenshot: Option<File>)

  /** Every text field is truthy. The route does not trim. */
  predicate AllFilled(s: Submission) {
    Truthy(s.name) && Truthy(s.email) && Truthy(s.phone) && Truthy(s.rollCollege) && Truthy(s.utr)
  }

  /** The three format checks pass: every field present, e-mail and phone well formed. */
  predicate FieldsValid(s: Submission) {
    AllFilled(s) && IsEmail(s.email.value) && IsTenDigits(s.phone.value)
  }

  datatype SubmitError = MissingFields | InvalidEmail | InvalidPhone | DuplicateUtr | DuplicateEmail | InsertFailed

  /** The `error` field of the JSON response. */
  function ErrorMessage(e: SubmitError): (message: string)
    ensures message != ""
  {
    match e
    case MissingFields => "All fields are required"
    case InvalidEmail => "Invalid email address"
    case InvalidPhone => "Invalid phone number"
    case DuplicateUtr => "This UTR has already been used for another registration"
    case DuplicateEmail => "This email has already been registered"
    case InsertFailed => "Failed to create registration"
  }

  /** Each refusal has its own message, so the client can tell them apart. */
  lemma ErrorMessageInjective(e1: SubmitError, e2: SubmitError)
    requires ErrorMessage(e1) == ErrorMessage(e2)
    ensures e1 == e2
  {
  }

  /** The HTTP status of the response: client errors except for a failed insert. */
  function HttpStatus(e: SubmitError): (code: int)
    ensures code == 500 <==> e == InsertFailed
    ensures code == 400 || code == 500
  {
    if e == InsertFailed then 500 else 400
  }

  datatype SubmitResult = Created(registrationId: string) | Failed(error: SubmitError)

  /** `name.split('.').pop()`: the text after the last '.', or the whole name when it has none. */
  function FileExtension(name: string): (ext: string)
    ensures |ext| <= |name| && ext == name[|name| - |ext|..]
    ensures '.' !in ext
    ensures |ext| < |name| ==> name[|name| - |ext| - 1] == '.'
  {
    if name == [] then []
    else if name[|name| - 1] == '.' then []
    else FileExtension(name[..|name| - 1]) + [name[|name| - 1]]
  }

  /** The storage key of a screenshot: the registration id, a dot, the file's extension. */
  function ScreenshotKey(id: string, fileName: string): (key: string)
    ensures |key| > |id| && key[..|id|] == id && key[|id|] == '.'
    ensures key[|id| + 1..] == FileExtension(fileName) && '.' !in key[|id| + 1..]
  {
    var key := id + "." + FileExtension(fileName);
    assert key[|id| + 1..] == FileExtension(fileName);
    key
  }

  /** The screenshot reference stored with a new registration: set only when a non-empty
      file was sent and its upload succeeded; a failed upload is not an error. */
  function StoredScreenshotUrl(shot: Option<File>, id: string, uploadFailed: bool,
                               publicUrlOf: string -> string): (url: Option<string>)
    ensures url.Some? <==> shot.Some? && shot.value.size > 0 && !uploadFailed
    ensures url.Some? ==> url.value == publicUrlOf(ScreenshotKey(id, shot.value.name))
  {
    if shot.Some? && shot.value.size > 0 && !uploadFailed
    then Some(publicUrlOf(ScreenshotKey(id, shot.value.name)))
    else None
  }

  function UtrIs(utr: string): Registration -> bool {
    (r: Registration) => r.utr == utr
  }

  function EmailIs(email: string): Registration -> bool {
    (r: Registration) => r.email == email
  }

  /** A `.eq(column, value).single()` lookup returns a row exactly when one row matches. */
  predicate UtrFound(rows: seq<Registration>, utr: string) {
    Count(rows, UtrIs(utr)) == 1
  }

  predicate EmailFound(rows: seq<Registration>, email: string) {
    Count(rows, EmailIs(email)) == 1
  }

  /** The duplicate check as the route performs it: it keeps only the select's `data`,
      which is null when the select fails (`lookupFailed`), so a failed select finds
      nothing. */
  predicate UtrTaken(rows: seq<Registration>, utr: string, lookupFailed: bool) {
    !lookupFailed && UtrFound(rows, utr)
  }

  predicate EmailTaken(rows: seq<Registration>, email: string, lookupFailed: bool) {
    !lookupFailed && EmailFound(rows, email)
  }

  /** The table invariant: no two registrations share a UTR, and none share an e-mail. */
  predicate UniqueKeys(rows: seq<Registration>) {
    forall i, j :: 0 <= i < j < |rows| ==> rows[i].utr != rows[j].utr && rows[i].email != rows[j].email
  }

  /** Under the invariant the single-row UTR lookup finds a row iff some row has that UTR. */
  lemma UtrFoundIffPresent(rows: seq<Registration>, utr: string)
    requires UniqueKeys(rows)
    ensures UtrFound(rows, utr) <==> exists i :: 0 <= i < |rows| && rows[i].utr == utr
  {
    CountOneIffExists(rows, UtrIs(utr));
  }

  /** Under the invariant the single-row e-mail lookup finds a row iff some row has that e-mail. */
  lemma EmailFoundIffPresent(rows: seq<Registration>, email: string)
    requires UniqueKeys(rows)
    ensures EmailFound(rows, email) <==> exists i :: 0 <= i < |rows| && rows[i].email == email
  {
    CountOneIffExists(rows, EmailIs(email));
  }

  /** Inserting a record whose UTR and e-mail both miss the single-row lookups keeps
      the table free of duplicates. */
  lemma InsertKeepsUnique(rows: seq<Registration>, r: Registration)
    requires UniqueKeys(rows)
    requires !UtrFound(rows, r.utr) && !EmailFound(rows, r.email)
    ensures UniqueKeys(rows + [r])
  {
    UtrFoundIffPresent(rows, r.utr);
    EmailFoundIffPresent(rows, r.email);
    var t := rows + [r];
    forall i, j | 0 <= i < j < |t| ensures t[i].utr != t[j].utr && t[i].email != t[j].email {
      if j == |rows| {
        assert t[i] == rows[i];
      } else {
        assert t[i] == rows[i] && t[j] == rows[j];
      }
    }
  }

  /** A failed UTR select lets a submission through whose UTR is already registered, and
      inserting it breaks the invariant. */
  lemma FailedLookupAdmitsDuplicate(rows: seq<Registration>, s: Submission, id: string, now: int,
                                    screenshotUrl: Option<string>, k: int)
    requires AllFilled(s) && 0 <= k < |rows| && rows[k].utr == s.utr.value
    ensures !UtrTaken(rows, s.utr.value, true)
    ensures !UniqueKeys(rows + [NewRegistration(s, id, now, screenshotUrl)])
  {
    var t := rows + [NewRegistration(s, id, now, screenshotUrl)];
    assert t[k] == rows[k] && t[|rows|].utr == s.utr.value;
  }

  /** The record inserted for an accepted submission. */
  function NewRegistration(s: Submission, id: string, now: int, screenshotUrl: Option<string>): (r: Registration)
    requires AllFilled(s)
    ensures r.id == id && r.status == Pending && !r.checkedIn && r.screenshotUrl == screenshotUrl
    ensures r.name == s.name.value && r.email == s.email.value && r.phone == s.phone.value
    ensures r.rollCollege == s.rollCollege.value && r.utr == s.utr.value
    ensures r.verifiedAt.None? && r.ticketUrl.None? && r.createdAt == now
  {
    Registration(id, s.name.value, s.email.value, s.phone.value, s.rollCollege.value, s.utr.value,
      screenshotUrl, Pending, now, None, None, false)
  }

  /** The `registrations` table. */
  class RegistrationTable {
    var rows: seq<Registration>

    ghost predicate Valid()
      reads this
    {
      UniqueKeys(rows)
    }

    constructor ()
      ensures Valid() && rows == []
    {
      rows := [];
    }

    /** `POST /api/register`. `freshId` is the generated uuid, `now` the database's
        creation time, `utrLookupFailed` and `emailLookupFailed` the outcomes of the two
        duplicate selects, `uploadFailed` and `insertFailed` the storage and insert
        outcomes, and `publicUrlOf` the storage's public URL of a key. The invariant is
        kept when both duplicate selects succeed. */
    method Submit(s: Submission, freshId: string, now: int, utrLookupFailed: bool, emailLookupFailed: bool,
                  uploadFailed: bool, publicUrlOf: string -> string, insertFailed: bool)
      returns (result: SubmitResult)
      modifies this
      ensures old(Valid()) && !utrLookupFailed && !emailLookupFailed ==> Valid()
      ensures result == Failed(MissingFields) <==> !AllFilled(s)
      ensures result == Failed(InvalidEmail) <==> AllFilled(s) && !IsEmail(s.email.value)
      ensures result == Failed(InvalidPhone) <==>
        AllFilled(s) && IsEmail(s.email.value) && !IsTenDigits(s.phone.value)
      ensures result == Failed(DuplicateUtr) <==>
        FieldsValid(s) && UtrTaken(old(rows), s.utr.value, utrLookupFailed)
      ensures result == Failed(DuplicateEmail) <==>
        FieldsValid(s) && !UtrTaken(old(rows), s.utr.value, utrLookupFailed)
        && EmailTaken(old(rows), s.email.value, emailLookupFailed)
      ensures result == Failed(InsertFailed) <==>
        FieldsValid(s) && !UtrTaken(old(rows), s.utr.value, utrLookupFailed)
        && !EmailTaken(old(rows), s.email.value, emailLookupFailed) && insertFailed
      ensures result.Failed? ==> rows == old(rows)
      ensures result.Created? ==>
        && result.registrationId == freshId
        && rows == old(rows) + [NewRegistration(s, freshId, now,
                                  StoredScreenshotUrl(s.screenshot, freshId, uploadFailed, publicUrlOf))]
    {
      if !AllFilled(s) {
        return Failed(MissingFields);
      }
      var name, email, phone, rollCollege, utr :=
        s.name.value, s.email.value, s.phone.value, s.rollCollege.value, s.utr.value;
      if !IsEmail(email) {
        return Failed(InvalidEmail);
      }
      if !IsTenDigits(phone) {
        return Failed(InvalidPhone);
      }
      if UtrTaken(rows, utr, utrLookupFailed) {
        return Failed(DuplicateUtr);
      }
      if EmailTaken(rows, email, emailLookupFailed) {
        return Failed(DuplicateEmail);
      }

      var screenshotUrl: Option<string> := None;
      if s.screenshot.Some? && s.screenshot.value.size > 0 {
        var key := ScreenshotKey(freshId, s.screenshot.value.name);
        if !uploadFailed {
          screenshotUrl := Some(publicUrlOf(key));
        }
      }

      if insertFailed {
        return Failed(InsertFailed);
      }
      var record := NewRegistration(s, freshId, now, screenshotUrl);
      if Valid() && !utrLookupFailed && !emailLookupFailed {
        InsertKeepsUnique(rows, record);
      }
      rows := rows + [record];
      return Created(freshId);
    }
  }
}
