/** The admin waitlist table (components/admin/waitlist-table.tsx): a
    case-insensitive search over the sign-up e-mails, a CSV export of the
    rows shown, and the summary and empty-state texts. Date rendering is a
    parameter. */
module WaitlistTable {
  import opened Text
  import Seqs

  datatype WaitlistEntry = WaitlistEntry(id: string, email: string, createdAt: string)

  /** An entry is shown iff its lower-cased e-mail contains the lower-cased
      search term. */
  predicate Matches(searchTerm: string, entry: WaitlistEntry)
  {
    Contains(Lower(entry.email), Lower(searchTerm))
  }

  /** `filteredEmails`. */
  function Filtered(searchTerm: string, emails: seq<WaitlistEntry>): seq<WaitlistEntry>
  {
    Seqs.Filter((entry: WaitlistEntry) => Matches(searchTerm, entry), emails)
  }

  /** The filter keeps exactly the matching entries, each as often as in
      the input, in their order, and never more than there are. */
  lemma FilteredEntries(searchTerm: string, emails: seq<WaitlistEntry>, entry: WaitlistEntry)
    ensures entry in Filtered(searchTerm, emails) <==> entry in emails && Matches(searchTerm, entry)
    ensures Seqs.IsSubsequence(Filtered(searchTerm, emails), emails)
    ensures multiset(Filtered(searchTerm, emails))[entry] == if Matches(searchTerm, entry) then multiset(emails)[entry] else 0
    ensures |Filtered(searchTerm, emails)| <= |emails|
  {
    Seqs.FilterMembership((e: WaitlistEntry) => Matches(searchTerm, e), emails, entry);
    Seqs.FilterIsSubsequence((e: WaitlistEntry) => Matches(searchTerm, e), emails);
    Seqs.FilterCount((e: WaitlistEntry) => Matches(searchTerm, e), emails, entry);
  }

  /** An empty search shows every entry. */
  lemma EmptySearchKeepsAll(emails: seq<WaitlistEntry>)
    ensures Filtered("", emails) == emails
  {
    forall i | 0 <= i < |emails| ensures Matches("", emails[i]) {
      ContainsEmpty(Lower(emails[i].email));
    }
    Seqs.FilterAll((e: WaitlistEntry) => Matches("", e), emails);
  }

  // ------------------------------------------------------------------- CSV

  const CsvHeader: seq<string> := ["Email", "Date Joined"]

  /** The CSV row of an entry: its e-mail and its ISO date. */
  function EntryRow(isoDate: string -> string, entry: WaitlistEntry): seq<string>
  {
    [entry.email, isoDate(entry.createdAt)]
  }

  /** The rows of the export: the header, then one row per shown entry. */
  function CsvRows(isoDate: string -> string, shown: seq<WaitlistEntry>): seq<seq<string>>
  {
    [CsvHeader] + Seqs.Map((entry: WaitlistEntry) => EntryRow(isoDate, entry), shown)
  }

  function JoinRow(row: seq<string>): string
  {
    Join(row, ",")
  }

  /** `csvContent` of `handleExportCSV`: the rows, fields joined with `,` and
      rows with a newline. */
  function CsvContent(isoDate: string -> string, searchTerm: string, emails: seq<WaitlistEntry>): string
  {
    Join(Seqs.Map(JoinRow, CsvRows(isoDate, Filtered(searchTerm, emails))), "\n")
  }

  /** No entry's e-mail or rendered date holds a line break. */
  predicate NoLineBreaks(isoDate: string -> string, emails: seq<WaitlistEntry>)
  {
    forall i :: 0 <= i < |emails| ==> '\n' !in emails[i].email && '\n' !in isoDate(emails[i].createdAt)
  }

  /** The line of a shown entry is its e-mail, a comma and its date, with
      no line break in it. */
  lemma ShownLine(isoDate: string -> string, searchTerm: string, emails: seq<WaitlistEntry>, i: nat)
    requires NoLineBreaks(isoDate, emails)
    requires i < |Filtered(searchTerm, emails)|
    ensures var entry := Filtered(searchTerm, emails)[i];
      var line := JoinRow(EntryRow(isoDate, entry));
      line == entry.email + "," + isoDate(entry.createdAt) && '\n' !in line
  {
    var entry := Filtered(searchTerm, emails)[i];
    FilteredEntries(searchTerm, emails, entry);
    TwoFields(entry.email, isoDate(entry.createdAt));
    var k :| 0 <= k < |emails| && emails[k] == entry;
  }

  lemma TwoFields(a: string, b: string)
    ensures Join([a, b], ",") == a + "," + b
  {
    assert [a, b][1..] == [b];
  }

  /** The header line followed by the `email,date` line of each shown
      entry, in order. */
  predicate ExportLines(isoDate: string -> string, shown: seq<WaitlistEntry>, lines: seq<string>)
  {
    |lines| == |shown| + 1 && lines[0] == "Email,Date Joined" &&
    forall i :: 0 <= i < |shown| ==> lines[i + 1] == shown[i].email + "," + isoDate(shown[i].createdAt)
  }

  /** Read back line by line, the export is the header followed by the
      `email,date` line of each shown entry, in order, with no trailing
      line: one line more than there are shown entries. */
  lemma CsvLines(isoDate: string -> string, searchTerm: string, emails: seq<WaitlistEntry>)
    requires NoLineBreaks(isoDate, emails)
    ensures var lines := Split(CsvContent(isoDate, searchTerm, emails), '\n');
      var shown := Filtered(searchTerm, emails);
      |lines| == |shown| + 1 && lines[0] == "Email,Date Joined" &&
      forall i :: 0 <= i < |shown| ==> lines[i + 1] == shown[i].email + "," + isoDate(shown[i].createdAt)
  {
    var lines := Seqs.Map(JoinRow, CsvRows(isoDate, Filtered(searchTerm, emails)));
    JoinedLines(isoDate, searchTerm, emails);
    SplitJoin(lines, '\n');
    assert ExportLines(isoDate, Filtered(searchTerm, emails), Split(CsvContent(isoDate, searchTerm, emails), '\n'));
  }

  /** Before they are joined, the export's lines are the header and one
      line per shown entry, none holding a line break. */
  lemma JoinedLines(isoDate: string -> string, searchTerm: string, emails: seq<WaitlistEntry>)
    requires NoLineBreaks(isoDate, emails)
    ensures var lines := Seqs.Map(JoinRow, CsvRows(isoDate, Filtered(searchTerm, emails)));
      ExportLines(isoDate, Filtered(searchTerm, emails), lines) && NoneContains(lines, '\n')
  {
    var shown := Filtered(searchTerm, emails);
    var lines := Seqs.Map(JoinRow, CsvRows(isoDate, shown));
    TwoFields("Email", "Date Joined");
    assert lines[0] == "Email,Date Joined";
    EntryLines(isoDate, searchTerm, emails);
    forall j | 0 <= j < |lines| ensures '\n' !in lines[j] {
      if j > 0 {
        assert lines[(j - 1) + 1] == lines[j];
      }
    }
  }

  /** The line after the header for each shown entry. */
  lemma EntryLines(isoDate: string -> string, searchTerm: string, emails: seq<WaitlistEntry>)
    requires NoLineBreaks(isoDate, emails)
    ensures var shown := Filtered(searchTerm, emails);
      var lines := Seqs.Map(JoinRow, CsvRows(isoDate, shown));
      forall i :: 0 <= i < |shown| ==>
        lines[i + 1] == shown[i].email + "," + isoDate(shown[i].createdAt) && '\n' !in lines[i + 1]
  {
    var shown := Filtered(searchTerm, emails);
    var rows := CsvRows(isoDate, shown);
    var lines := Seqs.Map(JoinRow, rows);
    forall i | 0 <= i < |shown|
      ensures lines[i + 1] == shown[i].email + "," + isoDate(shown[i].createdAt)
      ensures '\n' !in lines[i + 1]
    {
      assert rows[i + 1] == EntryRow(isoDate, shown[i]);
      ShownLine(isoDate, searchTerm, emails, i);
    }
  }

  // ------------------------------------------------------------- the texts

  /** The table's empty-state text, shown only when nothing matches: it
      depends on nothing but whether a search term was entered. */
  function EmptyState(searchTerm: string, emails: seq<WaitlistEntry>): (r: Option<string>)
    ensures r.Some? <==> Filtered(searchTerm, emails) == []
    ensures r.Some? ==> r.value == (if searchTerm != "" then "No emails found matching your search"
                                    else "No waitlist signups yet")
  {
    if |Filtered(searchTerm, emails)| == 0 then
      Some(if searchTerm != "" then "No emails found matching your search" else "No waitlist signups yet")
    else None
  }

  /** `Showing f of t email(s)` under the table, only when something is
      shown; the noun agrees with the total. */
  function Summary(searchTerm: string, emails: seq<WaitlistEntry>): (r: Option<string>)
    ensures r.Some? <==> |Filtered(searchTerm, emails)| > 0
    ensures r.Some? ==>
      r.value == "Showing " + NatToString(|Filtered(searchTerm, emails)|) + " of "
                 + NatToString(|emails|) + " " + (if |emails| == 1 then "email" else "emails")
  {
    var shown := |Filtered(searchTerm, emails)|;
    if shown > 0 then
      Some("Showing " + NatToString(shown) + " of " + NatToString(|emails|) + " "
           + (if |emails| == 1 then "email" else "emails"))
    else None
  }

  /** Exactly one of the empty state and the summary shows, and the summary
      never claims more shown entries than there are. */
  lemma EmptyStateOrSummary(searchTerm: string, emails: seq<WaitlistEntry>)
    ensures EmptyState(searchTerm, emails).Some? != Summary(searchTerm, emails).Some?
    ensures Summary(searchTerm, emails).Some? ==> 0 < |Filtered(searchTerm, emails)| <= |emails|
  {
  }
}
