# COALESCE registration and admin core, modelled in Dafny

COALESCE is a college-event website. Behind its presentation layer sits a small working
core, and this project models that core:

- **Public registration.** A participant fills in a three-step wizard. They type their
  details, then the payment reference (UTR) and an optional screenshot, and then see a
  reference number. The wizard posts to `POST /api/register`. That route runs a fail-fast
  validation chain, rejects a UTR or e-mail that is already registered, and inserts one
  pending registration.
- **Admin sessions.** `POST /api/admin/login` checks the credentials and stores a session
  row. The row's token is the base64 of `<admin id>:<milliseconds>` and it is valid for
  24 hours. The token is also set as the `admin_session` cookie.
  `GET /api/admin/auth` and `verifyAdmin` accept a cookie whose single-row lookup finds a
  session with `expires_at > now`. `POST /api/admin/logout` deletes the rows with that
  token.
- **Admin read side.** `GET /api/admin/registrations` lists every registration, newest
  first. The dashboard filters that list by status and search text, counts statistics,
  exports CSV, decides which actions a record offers, and draws the status badge.
- **Entry pass.** The strings printed on the ticket: the QR payload
  `COALESCE:<id>`, the upper-cased short id, the upper-cased name and the college.

How the model is built:

- The tables are Dafny classes over sequences:
  - `Register.RegistrationTable`: its `Submit` method inserts one row.
  - `Sessions.SessionTable`: `Login` inserts a row and `Logout` deletes rows.
  - `Form.RegistrationWizard` carries the React state (`step`, `formData`,
    `registrationId`). Its handlers are methods.
- The read-only parts are functions with lemmas: the auth probe, `verifyAdmin`, the
  listing, the dashboard and the ticket strings.
- Time is integer milliseconds.

Everything the program gets from outside it, except the exceptions listed under
"Left out", becomes a parameter of the operation:

- database and storage outcomes: `uploadFailed`, `insertFailed`, `deleteFailed`,
  `fetchFailed`, `publicUrlOf`;
- selects that return an error: `utrLookupFailed`, `emailLookupFailed` (duplicate checks
  of the registration route), `adminLookupFailed` (login), `lookupFailed` and
  `sessionLookupFailed` (session lookups). The routes only read the select's `data`, which
  is null after an error. A failed duplicate check therefore finds nothing and the route
  goes on to insert. A failed admin or session lookup means a refusal;
- the fresh uuid: `freshId`;
- `Date.now()`: `now`. Login reads the clock twice. The first reading goes into the
  token and the second, `expiryNow`, into `expires_at`;
- `bcrypt.compare`: `passwordMatches`;
- `toLocaleString`: `formatDate`;
- the server's answer as the wizard sees it: `response`, and the message of an exception
  thrown by `fetch` or `response.json()`: `thrownMessage`.

Module by module:

- `Text` models the JavaScript string primitives used: `trim` over the exact `\s` set,
  `toLowerCase`/`toUpperCase` over ASCII letters, `includes`, `substring(0, n)`, `join`
  and `split`.
- `Seqs` models `Array.prototype.filter` and the subsequence relation.
- `Patterns` models the e-mail and phone regular expressions. `IsEmailMatchesPattern`
  proves that the structural e-mail check accepts exactly the language of
  `^[^\s@]+@[^\s@]+\.[^\s@]+$`.

Supabase's `.single()` returns a row only when exactly one row matches. The model states
this literally, as a filter count equal to 1. Lemmas show it means "some row matches"
whenever the table has no duplicate keys. With duplicates, the lookup fails, and
`AdminAuth.DuplicateTokenRejected` shows the consequence for sessions.

## Model

| member | source | states |
|---|---|---|
| Types.StatusName | src/lib/types.ts:9 | a status is named by a non-empty string other than the filter value 'all' |
| Types.StatusNameInjective | src/lib/types.ts:44 | the three statuses have three distinct names |
| Patterns.IsEmailMatchesPattern | src/app/api/register/route.ts:26-27 | the e-mail check accepts a string iff it is non-empty `[^\s@]` text, '@', non-empty text, '.', non-empty text |
| Register.ErrorMessage | src/app/api/register/route.ts:20-111 | every refusal carries a non-empty message |
| Register.ErrorMessageInjective | src/app/api/register/route.ts:20-111 | distinct refusals carry distinct messages |
| Register.HttpStatus | src/app/api/register/route.ts:18-113 | a refusal answers 500 exactly for a failed insert and 400 for every validation or duplicate error |
| Register.FileExtension | src/app/api/register/route.ts:75 | the extension is the suffix after the last '.', holds no '.', and is the whole name when the name has no '.' |
| Register.ScreenshotKey | src/app/api/register/route.ts:76 | the storage key is the registration id, a '.', then the file's extension |
| Register.StoredScreenshotUrl | src/app/api/register/route.ts:71-90 | a URL is stored iff a non-empty screenshot was sent and uploaded, and it is the public URL of the screenshot key; a failed upload stores nothing but is no error |
| Register.UtrFoundIffPresent | src/app/api/register/route.ts:43-54 | with unique keys, the single-row UTR lookup finds a record iff some record has that UTR |
| Register.EmailFoundIffPresent | src/app/api/register/route.ts:57-68 | with unique keys, the single-row e-mail lookup finds a record iff some record has that e-mail |
| Register.InsertKeepsUnique | src/app/api/register/route.ts:43-105 | inserting a record whose UTR and e-mail both missed the lookups keeps UTRs and e-mails unique |
| Register.FailedLookupAdmitsDuplicate | src/app/api/register/route.ts:43-54 | a failed UTR select finds nothing, so a UTR that is already registered passes the check and inserting it breaks uniqueness |
| Register.NewRegistration | src/app/api/register/route.ts:93-105 | the inserted record has the fresh id, the submitted fields verbatim, status pending, not checked in, and no verification time or ticket |
| Register.RegistrationTable.Submit | src/app/api/register/route.ts:18-139 | the checks run in the fixed order required, e-mail, phone, duplicate UTR, duplicate e-mail, insert; a duplicate is reported iff its select succeeded and found a record; each error is returned iff every earlier check passed and its own failed; a failure leaves the table unchanged; success appends exactly the new pending record and returns its id; the keys stay unique when both duplicate selects succeeded |
| Sessions.SessionToken | src/app/api/admin/login/route.ts:41 | the token is the admin id, ':', then the decimal digits of the login time, and nothing more |
| Sessions.SessionTokenInjective | src/app/api/admin/login/route.ts:41 | two logins produce the same token only for the same administrator in the same millisecond, whatever characters the admin ids hold |
| Sessions.DigitsAfterId | src/app/api/admin/login/route.ts:41 | every character of a token after the id's ':' is a digit |
| Sessions.TokenIdLengthNotShorter | src/app/api/admin/login/route.ts:41 | two logins sharing a token have ids of the same length, since the ':' cannot fall among the digits |
| Sessions.LiveSessionFoundIffUnexpired | src/app/api/admin/auth/route.ts:18-23 | with distinct tokens, the lookup finds a session iff some row has the token and expires strictly after now |
| Sessions.WithoutToken | src/app/api/admin/logout/route.ts:12-15 | deleting by token removes every row with that token and keeps every other row, in order and with its multiplicity |
| Sessions.WithoutTokenIdempotent | src/app/api/admin/logout/route.ts:12-15 | deleting the same token twice leaves the table that deleting once leaves |
| Sessions.UniqueTokensAtMostOneLive | src/app/api/admin/auth/route.ts:18-23 | on a table with distinct tokens at most one live row carries any token |
| Sessions.WithoutTokenKeepsUnique | src/app/api/admin/logout/route.ts:12-15 | deleting by token keeps the tokens distinct |
| Sessions.AdminsWithEmail | src/app/api/admin/login/route.ts:18-22 | the lookup considers exactly the administrators with that e-mail, each with every copy in the table, so `.single()` sees the true row count |
| Sessions.SessionTable.Login | src/app/api/admin/login/route.ts:10-60 | login succeeds iff e-mail and password are present, the admin select succeeds with exactly one administrator, and the password matches; missing e-mail or password gives 400 before any lookup; a failed select, an unknown e-mail and a wrong password give the same 401; no failure adds a row; success sets the cookie to the token minted at the first clock reading, with a lifetime equal to the 24-hour window, and adds exactly the row (admin id, token, second clock reading + 86400000) unless the insert failed |
| Sessions.SessionTable.Logout | src/app/api/admin/logout/route.ts:10-21 | the answer is success in every case; with a cookie, rows with its token are deleted and the cookie is cleared; without one nothing changes |
| AdminAuth.AuthStatus | src/app/api/admin/auth/route.ts:10-32 | the probe answers 200 iff authenticated and 401 otherwise |
| AdminAuth.AuthError | src/app/api/admin/auth/route.ts:10-30 | an error message is sent iff the probe refuses |
| AdminAuth.AuthProbe | src/app/api/admin/auth/route.ts:10-32 | "Not authenticated" iff there is no cookie; acceptance implies the select succeeded and a live row has the cookie's token |
| AdminAuth.ProbeIffUnexpired | src/app/api/admin/auth/route.ts:18-32 | when at most one live row carries the token and the select succeeds, a cookie is accepted iff some row has its token and `expires_at > now`, strictly |
| AdminAuth.UniqueTokensProbeIff | src/app/api/admin/auth/route.ts:18-32 | on a table with distinct tokens a cookie is accepted iff an unexpired row has its token, and the same holds after any logout |
| AdminAuth.UnknownAndExpiredAlike | src/app/api/admin/auth/route.ts:25-30 | a token whose rows have all expired gets "Invalid or expired session", the same answer as an unknown token, whether or not the select failed |
| AdminAuth.ExpiredStaysRejected | src/app/api/admin/auth/route.ts:22 | once every row with the token has expired, the token is refused at every later time |
| AdminAuth.LoggedOutRejected | src/app/api/admin/logout/route.ts:12-15 | after logout deleted a token, the probe refuses it |
| AdminAuth.FreshLoginAccepted | src/app/api/admin/login/route.ts:41-50 | the row a login adds makes the probe accept its token exactly while now < second clock reading + 24 h |
| AdminAuth.DuplicateTokenRejected | src/app/api/admin/auth/route.ts:18-30 | two live rows with one token make the single-row lookup fail, so the token is refused |
| AdminAuth.SameMillisecondLoginsRejected | src/app/api/admin/login/route.ts:41-50 | two logins of one administrator whose tokens were minted in the same millisecond leave that token refused while both rows are live |
| AdminRegistrations.VerifyAdmin | src/app/api/admin/registrations/route.ts:5-19 | false without a cookie or after a failed select; true implies a live row with the cookie's token |
| AdminRegistrations.VerifyAdminIsProbe | src/app/api/admin/registrations/route.ts:11-18 | `verifyAdmin` accepts exactly what the auth probe accepts |
| AdminRegistrations.VerifyAdminIffUnexpired | src/app/api/admin/registrations/route.ts:11-18 | when at most one live row carries the cookie's token and the select succeeds, `verifyAdmin` holds iff there is a cookie and a row with its token expiring after now |
| AdminRegistrations.InsertNewestFirst | src/app/api/admin/registrations/route.ts:31-34 | inserting into a newest-first list keeps it newest first and adds exactly that record |
| AdminRegistrations.SortNewestFirst | src/app/api/admin/registrations/route.ts:31-34 | the listing is newest first by `created_at` and a permutation of the table |
| AdminRegistrations.SortKeepsEveryRow | src/app/api/admin/registrations/route.ts:31-34 | the listing has the table's length and exactly its records |
| AdminRegistrations.ListStatus | src/app/api/admin/registrations/route.ts:23-44 | the listing answers 200 iff it lists, 401 iff unauthorized, 500 iff the fetch failed |
| AdminRegistrations.ListError | src/app/api/admin/registrations/route.ts:23-44 | an error message is sent iff nothing is listed |
| AdminRegistrations.ListRegistrations | src/app/api/admin/registrations/route.ts:21-44 | "Unauthorized" iff `verifyAdmin` fails; "Failed to fetch" iff authorized but the select failed; otherwise every registration, newest first |
| AdminRegistrations.UnauthorizedIgnoresStore | src/app/api/admin/registrations/route.ts:23-29 | an unauthorized answer is the same whatever the registrations table holds |
| AdminRegistrations.LoggedOutCannotList | src/app/api/admin/registrations/route.ts:5-29 | a logged-out token cannot list registrations |
| Dashboard.Filtered | src/app/admin/page.tsx:203-211 | the shown records are an order-preserving subsequence; a record is shown iff it matches the status filter and the search, and then with every copy the list holds |
| Dashboard.UnfilteredShowsAll | src/app/admin/page.tsx:203-211 | filter 'all' with an empty search shows the whole list |
| Dashboard.EmptySearchTestRedundant | src/app/admin/page.tsx:205-209 | the search matches iff one of the lowercased name, e-mail or UTR includes the lowercased search; the empty-search case is subsumed |
| Dashboard.StatusCountsPartition | src/app/admin/page.tsx:213-219 | the pending, verified and rejected counts add up to the list length |
| Dashboard.CountsArePositions | src/app/admin/page.tsx:213-219 | each filter count is the number of list positions holding a record of that kind |
| Dashboard.ComputeStats | src/app/admin/page.tsx:213-219 | total is the list length; each card is the number of list positions holding a record of its status, or checked in; the three status cards sum to the total |
| Dashboard.StatsCountStatus | src/app/admin/page.tsx:215-218 | a record of a status, or checked in, makes its card at least 1 |
| Dashboard.CheckedInCell | src/app/admin/page.tsx:190 | the cell is 'Yes' iff checked in, 'No' otherwise |
| Dashboard.CsvRow | src/app/admin/page.tsx:183-192 | eight cells in header order: the record's fields verbatim, status name, Yes/No, formatted date |
| Dashboard.CsvLines | src/app/admin/page.tsx:194 | the header line, then one comma-joined line per record in order |
| Dashboard.CsvLinesReadBack | src/app/admin/page.tsx:194 | with separator-free cells the joined lines split back into the header and each record's cells |
| Dashboard.ExportCsv | src/app/admin/page.tsx:181-194 | the export is the header line and one comma-joined line per shown record, joined by newlines; it begins with the header line, and is exactly that line when no record is shown |
| Dashboard.CsvLinesSplit | src/app/admin/page.tsx:194 | lines whose cells hold no newline split back into exactly those lines, commas or not |
| Dashboard.ExportLines | src/app/admin/page.tsx:181-194 | with no newline in a shown cell, the export reads back line by line as the header and one line per shown record, in order, whatever commas the cells hold |
| Dashboard.EnGbDate | src/app/admin/page.tsx:191 | a `toLocaleString` reading in the en-GB form holds a comma and no newline |
| Dashboard.EnGbRowOneLine | src/app/admin/page.tsx:183-192 | under that date a record whose own fields hold no newline gives a one-line row |
| Dashboard.CommaDateStillOneLinePerRecord | src/app/admin/page.tsx:181-194 | with a comma-holding locale date, the export still has one line per shown record, in order |
| Dashboard.JoinStartsWithFirst | src/app/admin/page.tsx:194 | a joined text begins with its first piece |
| Dashboard.CsvReadsBack | src/app/admin/page.tsx:181-194 | when the shown records' cells hold no separator, the export reads back as the header and one row of cells per shown record, in order |
| Dashboard.CommaCellShiftsColumns | src/app/admin/page.tsx:183-194 | with no quoting, a line with one comma in any one cell reads back as nine cells under the eight-column header |
| Dashboard.DateCommaShiftsColumns | src/app/admin/page.tsx:191-194 | a formatted date holding a comma, as common English locales write it, makes every line read back as nine cells |
| Dashboard.CommaInCellShiftsColumns | src/app/admin/page.tsx:194 | a comma in a college name makes its line read back as nine cells |
| Dashboard.OffersVerifyReject | src/app/admin/page.tsx:368 | Verify and Reject are offered, in the table row and again in the detail dialog (line 682), iff the status name is 'pending' |
| Dashboard.OffersCheckIn | src/app/admin/page.tsx:392 | Check-in is offered iff the status name is 'verified' and the record is not checked in |
| Dashboard.OffersTicketDownload | src/app/admin/page.tsx:708 | the pass link is offered iff `ticket_url` is truthy |
| Dashboard.TicketDownloadIgnoresWorkflow | src/app/admin/page.tsx:708 | the pass link depends on `ticket_url` alone, not on status or check-in, so a rejected record with a URL still offers it |
| Dashboard.StatusBadge | src/app/admin/page.tsx:583-603 | "Checked In" (blue) iff checked in, whatever the status; otherwise the status name |
| Dashboard.BadgeDeterminesActions | src/app/admin/page.tsx:368-405 | for a record whose check-in implies verification, Verify/Reject go with the 'pending' badge, Check-in with the 'verified' badge, never both |
| Dashboard.CheckedInPendingStillOffersVerify | src/app/admin/page.tsx:368 | a pending record flagged as checked in shows "Checked In" and still offers Verify and Reject |
| Form.Step1Message | src/components/RegistrationForm.tsx:91-109 | each step-1 refusal has a non-empty toast text |
| Form.Step1MessagesDistinct | src/components/RegistrationForm.tsx:91-109 | distinct step-1 refusals have distinct toast texts |
| Form.RefusalToast | src/components/RegistrationForm.tsx:155-162 | a refused request shows the server's error text, which differs from the blank-UTR and success toasts |
| Form.ValidateStep1 | src/components/RegistrationForm.tsx:91-109 | a blank trimmed name is the first refusal |
| Form.Step1PassesIff | src/components/RegistrationForm.tsx:91-109 | step 1 passes iff the trimmed name and college are non-blank, the e-mail matches its pattern and the phone is ten digits |
| Form.Step1FirstFailure | src/components/RegistrationForm.tsx:95-108 | each refusal is reported iff every earlier check passed and its own failed |
| Form.ValidateStep3 | src/components/RegistrationForm.tsx:111-117 | step 2 passes iff the UTR holds a character that is not white space |
| Form.Payload | src/components/RegistrationForm.tsx:137-145 | the posted body carries every text field verbatim and the screenshot when chosen |
| Form.ValidatedPayloadPassesFormatChecks | src/components/RegistrationForm.tsx:91-117 | a form that passed both client checks passes the server's required-field, e-mail and phone checks |
| Form.BlankNameOnlyRefusedByClient | src/components/RegistrationForm.tsx:92 | a name of spaces is refused by the form but passes the server's checks, which do not trim |
| Form.WithField | src/components/RegistrationForm.tsx:73-76 | an input change sets the field with that name and leaves every other field unchanged |
| Form.WithFieldCommutes | src/components/RegistrationForm.tsx:73-76 | edits to two different fields commute |
| Form.ReferenceLabel | src/components/RegistrationForm.tsx:415 | the reference is '#' followed by the short id |
| Form.RegistrationWizard.constructor | src/components/RegistrationForm.tsx:36-47 | the wizard starts at step 1 with empty fields and no id |
| Form.RegistrationWizard.HandleInputChange | src/components/RegistrationForm.tsx:73-76 | only the named field changes; step and id are kept |
| Form.RegistrationWizard.HandleFileChange | src/components/RegistrationForm.tsx:78-82 | the first chosen file becomes the screenshot; an empty choice changes nothing |
| Form.RegistrationWizard.HandleNext | src/components/RegistrationForm.tsx:91-123 | moves 1 to 2 iff at step 1 and step 1 validates; validation runs only at step 1; a toast is shown iff there is a refusal, with that refusal's text; otherwise nothing changes |
| Form.RegistrationWizard.HandleBack | src/components/RegistrationForm.tsx:125-129 | decrements a step above 1 and leaves step 1 alone |
| Form.RegistrationWizard.HandleSubmit | src/components/RegistrationForm.tsx:111-165 | nothing is sent unless the trimmed UTR is non-blank, and then the blank-UTR toast shows; a created response moves to step 3, records the returned id and shows the success toast; a refusal shows the server's error text, a failed request the thrown message; any outcome but creation leaves step and id unchanged |
| Form.RegistrationWizard.Reference | src/components/RegistrationForm.tsx:397-416 | a reference is shown iff at step 3 with a non-empty id, and it is that id's reference label; in a valid state at step 3 an id is present, so only an empty id hides it |
| Ticket.QrPayload | src/lib/generate-ticket.ts:127 | the payload is "COALESCE:" followed by the full id |
| Ticket.StripQrPrefix | src/lib/generate-ticket.ts:127 | an id is recovered iff the payload starts with "COALESCE:", and it is the rest of the payload |
| Ticket.QrRoundTrip | src/lib/generate-ticket.ts:127 | removing the prefix from a payload recovers its id exactly |
| Ticket.QrPayloadOfStripped | src/lib/generate-ticket.ts:127 | every accepted payload is the payload of the id it yields |
| Ticket.QrPayloadInjective | src/lib/generate-ticket.ts:127 | distinct ids have distinct payloads |
| Ticket.ShortId | src/lib/generate-ticket.ts:81 | the short id is the first min(8, length) characters of the id, upper-cased |
| Ticket.ShortIdOfPrefix | src/lib/generate-ticket.ts:81 | the short id depends only on the first eight characters |
| Ticket.TicketFor | src/lib/generate-ticket.ts:69-127 | the pass shows the name upper-cased, the short id, the college verbatim, and a QR payload that yields the registration's id |
| Ticket.TicketQrIdentifies | src/lib/generate-ticket.ts:127 | passes of distinct registrations have distinct QR payloads, even when the short ids coincide |

## Left out

- The verify, reject and check-in routes called from `src/app/admin/page.tsx` are not part
  of this model. Status transitions, `verified_at`, `ticket_url` and `checked_in` updates
  are therefore not modelled. Only the dashboard's gating of those actions is.
- The dashboard handlers that fetch and update React state (`setRegistrations`,
  `setSelectedReg`, `actionLoading`) are I/O-bound and not modelled. Neither are the
  `loading`/`copied` flags of the wizard, nor the display of its toasts; the wizard's
  handlers return the toast text they would show.
- Sending e-mail (src/lib/email.ts) is left out. It is an external HTTP call whose failure
  the routes ignore.
- The PDF drawing and QR image rendering of the ticket are left out; only the derived
  strings are modelled.
- The `try`/`catch` paths that answer 500 "Internal server error" are left out. They only
  fire on unexpected exceptions.
- Concurrency is left out. In particular, the race between the duplicate pre-checks and
  the insert in the registration route is not modelled; the model is sequential.
- Database uniqueness constraints are not assumed. `RegistrationTable` keeps unique
  UTRs and e-mails for as long as `Submit`'s duplicate selects succeed. A failed select
  can admit a duplicate (`Register.FailedLookupAdmitsDuplicate`). The session table
  carries no invariant.
- The cookie's `secure` flag depends on `NODE_ENV` and is left out.
- `Register.RegistrationTable.Submit`: the database-assigned `created_at` is the `now`
  parameter.
- `Dashboard.CsvReadsBack`: its precondition asks for cells free of commas. The en-US,
  en-GB and en-IN forms of `toLocaleString` put a comma between date and time, so in
  those locales no record meets it. `Dashboard.DateCommaShiftsColumns` states what those
  lines read back as instead. The line-level read-back, `Dashboard.ExportLines`, needs
  only newline-free cells and holds in those locales too.
- base64 is taken to be injective. Tokens are compared as the strings before encoding.
- `Text.ToLower` and `Text.ToUpper` map ASCII letters only. Unicode case mapping is not
  modelled.
- `AdminRegistrations.SortNewestFirst`: the database leaves the order of registrations
  with equal `created_at` open. The model fixes one such order.
- `Form.RegistrationWizard.HandleSubmit`: the submit button is rendered only at step 2.
  The model accepts the call at any step, as the handler itself does.
- `Form.RegistrationWizard.HandleInputChange`: an input name other than the five text
  fields would add an extra key to the form object. The model keeps the modelled fields
  unchanged and ignores that key.
- `Form.Payload`: the multipart encoding is not modelled. The posted text fields reach
  `formData.get` unchanged.
