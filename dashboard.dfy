/** The read side of the admin dashboard (src/app/admin/page.tsx): the status and search
    filter, the statistics cards, the CSV export, which actions a record offers, and the
    status badge. All of it is computed from the fetched list of registrations. */
module Dashboard {
  import opened Types
  import opened Seqs
  import opened Text

  /** `FilterStatus`: 'all' or one status. */
  datatype StatusFilter = All | Only(status: Status)

  predicate MatchesFilter(r: Registration, filter: StatusFilter) {
    filter.All? || r.status == filter.status
  }

  /** The search box matches a record when it is empty, or when the lowercased name,
      e-mail or UTR includes the lowercased search text. */
  predicate MatchesSearch(r: Registration, search: string) {
    || search == ""
    || Contains(ToLower(r.name), ToLower(search))
    || Contains(ToLower(r.email), ToLower(search))
    || Contains(ToLower(r.utr), ToLower(search))
  }

  function Shown(filter: StatusFilter, search: string): Registration -> bool {
    (r: Registration) => MatchesFilter(r, filter) && MatchesSearch(r, search)
  }

  /** `filteredRegistrations`: the records that match both the status filter and the search,
      as an order-preserving subsequence of the fetched list. */
  function Filtered(regs: seq<Registration>, filter: StatusFilter, search: string): (shown: seq<Registration>)
    ensures IsSubsequence(shown, regs)
    ensures forall r :: r in shown <==> r in regs && MatchesFilter(r, filter) && MatchesSearch(r, search)
    ensures forall r ::
              multiset(shown)[r] == if MatchesFilter(r, filter) && MatchesSearch(r, search) then multiset(regs)[r] else 0
  {
    FilterIsSubsequence(regs, Shown(filter, search));
    FilterMultiset(regs, Shown(filter, search));
    Filter(regs, Shown(filter, search))
  }

  /** With filter 'all' and an empty search box the whole list is shown. */
  lemma UnfilteredShowsAll(regs: seq<Registration>)
    ensures Filtered(regs, All, "") == regs
  {
    FilterKeepsAll(regs, Shown(All, ""));
  }

  /** The empty-search test is redundant: every string includes the empty string, so a
      search matches exactly when one of the three lowercased fields includes it. */
  lemma EmptySearchTestRedundant(r: Registration, search: string)
    ensures MatchesSearch(r, search) <==>
      || Contains(ToLower(r.name), ToLower(search))
      || Contains(ToLower(r.email), ToLower(search))
      || Contains(ToLower(r.utr), ToLower(search))
  {
    if search == "" {
      ContainsEmpty(ToLower(r.name));
    }
  }

  predicate IsPending(r: Registration) { r.status == Pending }
  predicate IsVerified(r: Registration) { r.status == Verified }
  predicate IsRejected(r: Registration) { r.status == Rejected }
  predicate IsCheckedIn(r: Registration) { r.checkedIn }

  /** The five statistics cards. */
  datatype Stats = Stats(total: nat, pending: nat, verified: nat, rejected: nat, checkedIn: nat)

  /** Every record has exactly one of the three statuses, so the three status counts
      partition the list. */
  lemma {:induction false} StatusCountsPartition(regs: seq<Registration>)
    ensures Count(regs, IsPending) + Count(regs, IsVerified) + Count(regs, IsRejected) == |regs|
    decreases |regs|
  {
    if regs != [] {
      StatusCountsPartition(regs[1..]);
    }
  }

  /** Each count is the number of positions of the list holding a record of that kind. */
  lemma CountsArePositions(regs: seq<Registration>)
    ensures Count(regs, IsPending) == |set i | 0 <= i < |regs| && regs[i].status == Pending|
    ensures Count(regs, IsVerified) == |set i | 0 <= i < |regs| && regs[i].status == Verified|
    ensures Count(regs, IsRejected) == |set i | 0 <= i < |regs| && regs[i].status == Rejected|
    ensures Count(regs, IsCheckedIn) == |set i | 0 <= i < |regs| && regs[i].checkedIn|
  {
    CountIsIndexSetSize(regs, IsPending);
    CountIsIndexSetSize(regs, IsVerified);
    CountIsIndexSetSize(regs, IsRejected);
    CountIsIndexSetSize(regs, IsCheckedIn);
    assert IndicesWhere(regs, IsPending) == set i | 0 <= i < |regs| && regs[i].status == Pending;
    assert IndicesWhere(regs, IsVerified) == set i | 0 <= i < |regs| && regs[i].status == Verified;
    assert IndicesWhere(regs, IsRejected) == set i | 0 <= i < |regs| && regs[i].status == Rejected;
    assert IndicesWhere(regs, IsCheckedIn) == set i | 0 <= i < |regs| && regs[i].checkedIn;
  }

  /** `stats`: the counts over the whole fetched list (not the filtered one). Each card is
      the number of records of its kind, and the three status cards add up to the total. */
  function ComputeStats(regs: seq<Registration>): (st: Stats)
    ensures st.total == |regs|
    ensures st.pending == |set i | 0 <= i < |regs| && regs[i].status == Pending|
    ensures st.verified == |set i | 0 <= i < |regs| && regs[i].status == Verified|
    ensures st.rejected == |set i | 0 <= i < |regs| && regs[i].status == Rejected|
    ensures st.checkedIn == |set i | 0 <= i < |regs| && regs[i].checkedIn|
    ensures st.pending + st.verified + st.rejected == st.total
    ensures st.checkedIn <= st.total
  {
    StatusCountsPartition(regs);
    CountsArePositions(regs);
    Stats(|regs|, Count(regs, IsPending), Count(regs, IsVerified), Count(regs, IsRejected),
      Count(regs, IsCheckedIn))
  }

  /** A single record of a kind already shows on its card: the card is at least one. */
  lemma StatsCountStatus(regs: seq<Registration>, r: Registration)
    requires r in regs
    ensures r.status == Pending ==> ComputeStats(regs).pending >= 1
    ensures r.status == Verified ==> ComputeStats(regs).verified >= 1
    ensures r.status == Rejected ==> ComputeStats(regs).rejected >= 1
    ensures r.checkedIn ==> ComputeStats(regs).checkedIn >= 1
  {
    if r.status == Pending { assert r in Filter(regs, IsPending); }
    if r.status == Verified { assert r in Filter(regs, IsVerified); }
    if r.status == Rejected { assert r in Filter(regs, IsRejected); }
    if r.checkedIn { assert r in Filter(regs, IsCheckedIn); }
  }

  // ---------------------------------------------------------------- CSV export

  const CsvHeader: seq<string> :=
    ["Name", "Email", "Phone", "College", "UTR", "Status", "Checked In", "Created At"]

  function CheckedInCell(checkedIn: bool): (cell: string)
    ensures cell == "Yes" <==> checkedIn
    ensures cell == "No" <==> !checkedIn
  {
    if checkedIn then "Yes" else "No"
  }

  /** The cells of one record, in header order. `formatDate` stands for
      `new Date(created_at).toLocaleString()`. */
  function CsvRow(r: Registration, formatDate: int -> string): (row: seq<string>)
    ensures |row| == |CsvHeader|
    ensures row[0] == r.name && row[1] == r.email && row[2] == r.phone && row[3] == r.rollCollege
    ensures row[4] == r.utr && row[5] == StatusName(r.status) && row[6] == CheckedInCell(r.checkedIn)
    ensures row[7] == formatDate(r.createdAt)
  {
    [r.name, r.email, r.phone, r.rollCollege, r.utr, StatusName(r.status), CheckedInCell(r.checkedIn),
     formatDate(r.createdAt)]
  }

  /** One comma-joined line per record, after the header line. */
  function CsvLines(regs: seq<Registration>, formatDate: int -> string): (lines: seq<string>)
    ensures |lines| == |regs| + 1
    ensures lines[0] == Join(CsvHeader, ',')
    ensures forall k :: 1 <= k < |lines| ==> lines[k] == Join(CsvRow(regs[k - 1], formatDate), ',')
  {
    [Join(CsvHeader, ',')] + seq(|regs|, k requires 0 <= k < |regs| => Join(CsvRow(regs[k], formatDate), ','))
  }

  /** `exportCSV`: header and rows of the filtered list, fields joined by ',' and lines by
      a newline, with no quoting. */
  function ExportCsv(regs: seq<Registration>, filter: StatusFilter, search: string,
                     formatDate: int -> string): (csv: string)
    ensures var header := Join(CsvHeader, ',');
      |header| <= |csv| && csv[..|header|] == header
    ensures Filtered(regs, filter, search) == [] ==> csv == Join(CsvHeader, ',')
    ensures csv == Join(CsvLines(Filtered(regs, filter, search), formatDate), '\n')
  {
    var lines := CsvLines(Filtered(regs, filter, search), formatDate);
    JoinStartsWithFirst(lines, '\n');
    Join(lines, '\n')
  }

  /** A join begins with its first piece. */
  lemma JoinStartsWithFirst(xs: seq<string>, sep: char)
    requires |xs| >= 1
    ensures |xs[0]| <= |Join(xs, sep)| && Join(xs, sep)[..|xs[0]|] == xs[0]
  {
    if |xs| > 1 {
      assert Join(xs, sep) == xs[0] + ([sep] + Join(xs[1..], sep));
    }
  }

  /** No cell contains a comma or a newline. */
  predicate CellsPlain(cells: seq<string>) {
    forall c :: 0 <= c < |cells| ==> ',' !in cells[c] && '\n' !in cells[c]
  }

  lemma JoinWithout(xs: seq<string>, sep: char, other: char)
    requires forall k :: 0 <= k < |xs| ==> other !in xs[k]
    requires sep != other
    ensures other !in Join(xs, sep)
    decreases |xs|
  {
    if |xs| > 1 {
      JoinWithout(xs[1..], sep, other);
    }
  }

  lemma HeaderPlain()
    ensures CellsPlain(CsvHeader)
  {
  }

  /** A line built from plain cells holds no newline and splits back into its cells. */
  lemma PlainLine(cells: seq<string>)
    requires |cells| >= 1 && CellsPlain(cells)
    ensures '\n' !in Join(cells, ',')
    ensures Split(Join(cells, ','), ',') == cells
  {
    JoinWithout(cells, ',', '\n');
    SplitJoin(cells, ',');
  }

  /** No cell contains a newline; commas may occur. */
  predicate CellsOneLine(cells: seq<string>) {
    forall c :: 0 <= c < |cells| ==> '\n' !in cells[c]
  }

  /** The lines of a list whose cells hold no newline split back into exactly those lines,
      whatever commas the cells hold. */
  lemma CsvLinesSplit(regs: seq<Registration>, formatDate: int -> string)
    requires forall k :: 0 <= k < |regs| ==> CellsOneLine(CsvRow(regs[k], formatDate))
    ensures Split(Join(CsvLines(regs, formatDate), '\n'), '\n') == CsvLines(regs, formatDate)
  {
    var lines := CsvLines(regs, formatDate);
    HeaderPlain();
    JoinWithout(CsvHeader, ',', '\n');
    forall k | 0 <= k < |lines| ensures '\n' !in lines[k] {
      if k > 0 {
        JoinWithout(CsvRow(regs[k - 1], formatDate), ',', '\n');
      }
    }
    SplitJoin(lines, '\n');
  }

  /** Reading the export back line by line yields the header line and then one line per
      shown record, in order, as long as no shown cell holds a newline. Commas inside
      cells, such as the one a locale date carries, do not matter at this level. */
  lemma ExportLines(regs: seq<Registration>, filter: StatusFilter, search: string,
                    formatDate: int -> string)
    requires forall r :: r in Filtered(regs, filter, search) ==> CellsOneLine(CsvRow(r, formatDate))
    ensures var shown := Filtered(regs, filter, search);
      var lines := Split(ExportCsv(regs, filter, search, formatDate), '\n');
      && lines == CsvLines(shown, formatDate)
      && |lines| == |shown| + 1
      && lines[0] == Join(CsvHeader, ',')
      && forall k :: 1 <= k < |lines| ==> lines[k] == Join(CsvRow(shown[k - 1], formatDate), ',')
  {
    var shown := Filtered(regs, filter, search);
    forall k | 0 <= k < |shown| ensures CellsOneLine(CsvRow(shown[k], formatDate)) {
      assert shown[k] in shown;
    }
    CsvLinesSplit(shown, formatDate);
  }

  /** The record's own text fields hold no newline. */
  predicate FieldsOneLine(r: Registration) {
    '\n' !in r.name && '\n' !in r.email && '\n' !in r.phone && '\n' !in r.rollCollege && '\n' !in r.utr
  }

  /** One reading of the en-GB form of `toLocaleString`: date, comma, time. */
  function EnGbDate(t: int): (text: string)
    ensures ',' in text && '\n' !in text
  {
    var text := "14/10/2026, 11:05:00";
    assert text[10] == ',';
    text
  }

  /** A record whose own fields hold no newline gives a one-line row under that date. */
  lemma EnGbRowOneLine(r: Registration)
    requires FieldsOneLine(r)
    ensures CellsOneLine(CsvRow(r, EnGbDate))
  {
    var cells := CsvRow(r, EnGbDate);
    assert '\n' !in cells[5] && '\n' !in cells[6];
  }

  /** With a date that holds a comma, the export still has one line per shown record, in
      order. */
  lemma CommaDateStillOneLinePerRecord(regs: seq<Registration>, filter: StatusFilter, search: string)
    requires forall r :: r in Filtered(regs, filter, search) ==> FieldsOneLine(r)
    ensures var shown := Filtered(regs, filter, search);
      var lines := Split(ExportCsv(regs, filter, search, EnGbDate), '\n');
      && |lines| == |shown| + 1
      && lines[0] == Join(CsvHeader, ',')
      && forall k :: 1 <= k < |lines| ==> lines[k] == Join(CsvRow(shown[k - 1], EnGbDate), ',')
  {
    forall r | r in Filtered(regs, filter, search) ensures CellsOneLine(CsvRow(r, EnGbDate)) {
      EnGbRowOneLine(r);
    }
    ExportLines(regs, filter, search, EnGbDate);
  }

  /** The lines of a list whose cells are all plain split back into the header and the rows. */
  lemma CsvLinesReadBack(regs: seq<Registration>, formatDate: int -> string)
    requires forall k :: 0 <= k < |regs| ==> CellsPlain(CsvRow(regs[k], formatDate))
    ensures var lines := Split(Join(CsvLines(regs, formatDate), '\n'), '\n');
      && lines == CsvLines(regs, formatDate)
      && Split(lines[0], ',') == CsvHeader
      && forall k :: 1 <= k < |lines| ==> Split(lines[k], ',') == CsvRow(regs[k - 1], formatDate)
  {
    var lines := CsvLines(regs, formatDate);
    HeaderPlain();
    PlainLine(CsvHeader);
    forall k | 1 <= k < |lines|
      ensures '\n' !in lines[k] && Split(lines[k], ',') == CsvRow(regs[k - 1], formatDate)
    {
      PlainLine(CsvRow(regs[k - 1], formatDate));
    }
    SplitJoin(lines, '\n');
  }

  /** When no cell holds a separator, reading the export back line by line and cell by
      cell yields the header and then each shown record's cells, in order. */
  lemma CsvReadsBack(regs: seq<Registration>, filter: StatusFilter, search: string,
                     formatDate: int -> string)
    requires forall r :: r in Filtered(regs, filter, search) ==> CellsPlain(CsvRow(r, formatDate))
    ensures var shown := Filtered(regs, filter, search);
      var lines := Split(ExportCsv(regs, filter, search, formatDate), '\n');
      && |lines| == |shown| + 1
      && Split(lines[0], ',') == CsvHeader
      && forall k :: 1 <= k < |lines| ==> Split(lines[k], ',') == CsvRow(shown[k - 1], formatDate)
  {
    var shown := Filtered(regs, filter, search);
    forall k | 0 <= k < |shown| ensures CellsPlain(CsvRow(shown[k], formatDate)) {
      assert shown[k] in shown;
    }
    CsvLinesReadBack(shown, formatDate);
  }

  /** A separator inside one piece joins exactly like that piece split in two. */
  lemma {:induction false} JoinSplitsPiece(a: seq<string>, x: string, y: string, b: seq<string>, sep: char)
    ensures Join(a + [x + [sep] + y] + b, sep) == Join(a + [x, y] + b, sep)
    decreases |a|
  {
    if a == [] {
      assert a + [x + [sep] + y] + b == [x + [sep] + y] + b;
      assert a + [x, y] + b == [x, y] + b;
      assert ([x, y] + b)[1..] == [y] + b;
      if b != [] {
        assert ([x + [sep] + y] + b)[1..] == b;
        assert ([y] + b)[1..] == b;
      }
    } else {
      JoinSplitsPiece(a[1..], x, y, b, sep);
      assert (a + [x + [sep] + y] + b)[1..] == a[1..] + [x + [sep] + y] + b;
      assert (a + [x, y] + b)[1..] == a[1..] + [x, y] + b;
    }
  }

  /** Cells are not quoted: a line whose cell `c` holds one comma, every other cell being
      free of commas, reads back as nine cells under an eight-column header. */
  lemma CommaCellShiftsColumns(r: Registration, formatDate: int -> string, c: int, x: string, y: string)
    requires 0 <= c < |CsvHeader| && CsvRow(r, formatDate)[c] == x + [','] + y
    requires ',' !in x && ',' !in y
    requires forall k :: 0 <= k < |CsvHeader| && k != c ==> ',' !in CsvRow(r, formatDate)[k]
    ensures |Split(Join(CsvRow(r, formatDate), ','), ',')| == |CsvHeader| + 1
  {
    var cells := CsvRow(r, formatDate);
    assert cells == cells[..c] + [x + [','] + y] + cells[c + 1..];
    JoinSplitsPiece(cells[..c], x, y, cells[c + 1..], ',');
    var pieces := cells[..c] + [x, y] + cells[c + 1..];
    forall k | 0 <= k < |pieces| ensures ',' !in pieces[k] {
      if k < c {
        assert pieces[k] == cells[k];
      } else if k > c + 1 {
        assert pieces[k] == cells[k - 1];
      }
    }
    SplitJoin(pieces, ',');
  }

  /** The date cell: `toLocaleString()` in the common English locales writes a comma
      between date and time, and every such line reads back as nine cells. */
  lemma DateCommaShiftsColumns(r: Registration, formatDate: int -> string, x: string, y: string)
    requires formatDate(r.createdAt) == x + [','] + y
    requires ',' !in x && ',' !in y
    requires forall k :: 0 <= k < 7 ==> ',' !in CsvRow(r, formatDate)[k]
    ensures |Split(Join(CsvRow(r, formatDate), ','), ',')| == 9
  {
    CommaCellShiftsColumns(r, formatDate, 7, x, y);
  }

  /** One comma inside a college name does the same. */
  lemma CommaInCellShiftsColumns(formatDate: int -> string)
    requires ',' !in formatDate(0)
    ensures var r := Registration("id", "Asha", "asha@x.com", "9876543210", "IIT, Delhi", "TXN001",
                                  None, Pending, 0, None, None, false);
      |Split(Join(CsvRow(r, formatDate), ','), ',')| == 9
  {
    var r := Registration("id", "Asha", "asha@x.com", "9876543210", "IIT, Delhi", "TXN001",
                          None, Pending, 0, None, None, false);
    var cells := CsvRow(r, formatDate);
    assert cells[3] == "IIT" + [','] + " Delhi";
    assert ',' !in cells[0] && ',' !in cells[1] && ',' !in cells[2];
    assert ',' !in cells[4] && ',' !in cells[5] && ',' !in cells[6];
    CommaCellShiftsColumns(r, formatDate, 3, "IIT", " Delhi");
  }

  // ---------------------------------------------------------------- actions and badge

  /** Verify and Reject are offered, in the table row and in the detail dialog, exactly
      for pending records. */
  function OffersVerifyReject(r: Registration): (offered: bool)
    ensures offered <==> StatusName(r.status) == "pending"
  {
    r.status == Pending
  }

  /** Check-in is offered for verified records not yet checked in. */
  function OffersCheckIn(r: Registration): (offered: bool)
    ensures offered <==> StatusName(r.status) == "verified" && !r.checkedIn
  {
    r.status == Verified && !r.checkedIn
  }

  /** The detail dialog links the ticket when `ticket_url` is set and non-empty. */
  function OffersTicketDownload(r: Registration): (offered: bool)
    ensures offered <==> Truthy(r.ticketUrl)
  {
    r.ticketUrl.Some? && r.ticketUrl.value != ""
  }

  /** The ticket link depends on the ticket URL alone: whatever the status or check-in
      flag, two records with the same URL offer it alike, so a rejected record that kept
      its URL still offers its pass. */
  lemma TicketDownloadIgnoresWorkflow(r: Registration, status: Status, checkedIn: bool)
    ensures OffersTicketDownload(r.(status := status, checkedIn := checkedIn)) == OffersTicketDownload(r)
    ensures Truthy(r.ticketUrl) ==> OffersTicketDownload(r.(status := Rejected))
  {
  }

  datatype Tone = Blue | Yellow | Green | Red

  datatype Badge = Badge(caption: string, tone: Tone)

  /** `StatusBadge`: "Checked In" in blue for a checked-in record whatever its status,
      otherwise the status name in its colour. */
  function StatusBadge(status: Status, checkedIn: bool): (b: Badge)
    ensures b.caption == "Checked In" <==> checkedIn
    ensures !checkedIn ==> b.caption == StatusName(status)
    ensures b.tone == Blue <==> checkedIn
  {
    if checkedIn then Badge("Checked In", Blue)
    else Badge(StatusName(status), match status
                                   case Pending => Yellow
                                   case Verified => Green
                                   case Rejected => Red)
  }

  /** Pending, verified and checked-in are the record states of the workflow: a checked-in
      record is verified. */
  predicate WellFormed(r: Registration) {
    r.checkedIn ==> r.status == Verified
  }

  /** For a well-formed record the badge decides the actions: Verify and Reject go with the
      'pending' badge, Check-in with the 'verified' badge, and a 'rejected' or "Checked In"
      badge offers neither. At most one kind of action is ever offered. */
  lemma BadgeDeterminesActions(r: Registration)
    requires WellFormed(r)
    ensures OffersVerifyReject(r) <==> StatusBadge(r.status, r.checkedIn).caption == "pending"
    ensures OffersCheckIn(r) <==> StatusBadge(r.status, r.checkedIn).caption == "verified"
    ensures !(OffersVerifyReject(r) && OffersCheckIn(r))
  {
  }

  /** Without well-formedness the two disagree: a pending record flagged as checked in shows
      the "Checked In" badge and still offers Verify and Reject. */
  lemma CheckedInPendingStillOffersVerify()
    ensures var r := Registration("id", "n", "e", "p", "c", "u", None, Pending, 0, None, None, true);
      StatusBadge(r.status, r.checkedIn).caption == "Checked In" && OffersVerifyReject(r)
  {
  }
}
