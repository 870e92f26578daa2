/** The record loop of a resolved-ticket export (cygnus/governance/ticket_import.py). */
module TicketParsing {
  import opened Wrappers
  import opened TicketRecords

  const MAX_DIAGNOSTICS := 20
  const MAX_RECORDS := 5000

  datatype Problem = BadField(code: string) | RecordLimit | DuplicateTicket(firstLine: int) | EmptyExport

  datatype Diagnostic = Diagnostic(line: Option<int>, problem: Problem)

  /** What field validation makes of one row. */
  datatype RowResult = Accepted(line: int, record: TicketRecord) | Rejected(line: int, problems: seq<Diagnostic>)

  /** It rejects a row only with a diagnostic, and accepts no blank ticket id. */
  type Row = r: RowResult | if r.Rejected? then r.problems != [] else r.record.ticketId != ""
    witness Rejected(1, [Diagnostic(None, EmptyExport)])

  datatype Rejection = Rejection(diagnostics: seq<Diagnostic>, total: nat)

  function Bounded(problems: seq<Diagnostic>): seq<Diagnostic> {
    if |problems| <= MAX_DIAGNOSTICS then problems else problems[..MAX_DIAGNOSTICS]
  }

  /** Keeps the first diagnostics and counts them all. */
  class DiagnosticCollector {
    var items: seq<Diagnostic>
    var total: nat
    ghost var all: seq<Diagnostic>

    ghost predicate Valid()
      reads this
    {
      items == Bounded(all) && total == |all|
    }

    constructor ()
      ensures Valid() && all == []
    {
      items, total, all := [], 0, [];
    }

    method Add(d: Diagnostic)
      requires Valid()
      modifies this
      ensures Valid() && all == old(all) + [d]
    {
      total := total + 1;
      if |items| < MAX_DIAGNOSTICS {
        items := items + [d];
      }
      all := all + [d];
    }
  }

  /** The line of the first accepted row among the first k that carries the id. */
  function FirstLine(rows: seq<Row>, k: nat, id: string): Option<int>
    requires k <= |rows|
  {
    if k == 0 then None
    else
      var earlier := FirstLine(rows, k - 1, id);
      if earlier.None? && rows[k - 1].Accepted? && rows[k - 1].record.ticketId == id
      then Some(rows[k - 1].line) else earlier
  }

  function RowProblems(rows: seq<Row>, i: nat): seq<Diagnostic>
    requires i < |rows|
  {
    match rows[i]
    case Rejected(line, problems) => problems
    case Accepted(line, record) =>
      var first := FirstLine(rows, i, record.ticketId);
      if first.Some? then [Diagnostic(Some(line), DuplicateTicket(first.value))] else []
  }

  function Problems(initial: seq<Diagnostic>, rows: seq<Row>, k: nat): seq<Diagnostic>
    requires k <= |rows|
  {
    if k == 0 then initial else Problems(initial, rows, k - 1) + RowProblems(rows, k - 1)
  }

  /** The records among the first k rows, each ticket id once. */
  function Records(rows: seq<Row>, k: nat): seq<TicketRecord>
    requires k <= |rows|
  {
    if k == 0 then []
    else Records(rows, k - 1)
         + (if rows[k - 1].Accepted? && RowProblems(rows, k - 1) == [] then [rows[k - 1].record] else [])
  }

  /** How many rows are looked at. */
  function Examined(rows: seq<Row>): (n: nat)
    ensures n <= |rows|
  {
    if |rows| > MAX_RECORDS then MAX_RECORDS else |rows|
  }

  /** Every diagnostic of an export, in order. */
  function Complaints(initial: seq<Diagnostic>, rows: seq<Row>): seq<Diagnostic> {
    var n := Examined(rows);
    var problems := Problems(initial, rows, n);
    if n < |rows| then problems + [Diagnostic(Some(rows[n].line), RecordLimit)]
    else if problems == [] && Records(rows, n) == [] then [Diagnostic(None, EmptyExport)]
    else problems
  }

  /** Collects records and diagnostics row by row; one diagnostic rejects the whole export. */
  method ParseResolvedTicketExport(diagnostics: DiagnosticCollector, rows: seq<Row>)
    returns (r: Result<seq<TicketRecord>, Rejection>)
    requires diagnostics.Valid()
    modifies diagnostics
    ensures var complaints := Complaints(old(diagnostics.all), rows);
            r == if complaints == [] then Ok(Records(rows, |rows|))
                 else Err(Rejection(Bounded(complaints), |complaints|))
  {
    ghost var initial := diagnostics.all;
    var records: seq<TicketRecord> := [];
    var seen: map<string, int> := map[];
    var i := 0;
    while i < |rows| && i < MAX_RECORDS
      invariant i <= |rows| && i <= MAX_RECORDS
      invariant diagnostics.Valid() && diagnostics.all == Problems(initial, rows, i)
      invariant records == Records(rows, i)
      invariant forall id :: (if id in seen then Some(seen[id]) else None) == FirstLine(rows, i, id)
    {
      match rows[i] {
        case Rejected(line, problems) =>
          AddAll(diagnostics, problems);
        case Accepted(line, record) =>
          assert (if record.ticketId in seen then Some(seen[record.ticketId]) else None)
                 == FirstLine(rows, i, record.ticketId);
          if record.ticketId in seen {
            diagnostics.Add(Diagnostic(Some(line), DuplicateTicket(seen[record.ticketId])));
          } else {
            seen := seen[record.ticketId := line];
            records := records + [record];
          }
      }
      i := i + 1;
    }
    assert i == Examined(rows);
    if i < |rows| {
      diagnostics.Add(Diagnostic(Some(rows[i].line), RecordLimit));
      assert diagnostics.all == Complaints(initial, rows);
    }
    if records == [] && diagnostics.total == 0 {
      diagnostics.Add(Diagnostic(None, EmptyExport));
      assert diagnostics.all == Complaints(initial, rows);
    }
    assert diagnostics.all == Complaints(initial, rows);
    if diagnostics.total > 0 {
      return Err(Rejection(diagnostics.items, diagnostics.total));
    }
    return Ok(records);
  }

  /** The field checks report their findings one at a time. */
  method AddAll(diagnostics: DiagnosticCollector, problems: seq<Diagnostic>)
    requires diagnostics.Valid()
    modifies diagnostics
    ensures diagnostics.Valid() && diagnostics.all == old(diagnostics.all) + problems
  {
    for k := 0 to |problems|
      invariant diagnostics.Valid() && diagnostics.all == old(diagnostics.all) + problems[..k]
    {
      diagnostics.Add(problems[k]);
    }
  }

  /** All rows are records, and no two carry one ticket id. */
  ghost predicate AllAccepted(rows: seq<Row>, k: nat)
    requires k <= |rows|
  {
    && (forall i | 0 <= i < k :: rows[i].Accepted?)
    && (forall i, j | 0 <= i < j < k :: rows[i].record.ticketId != rows[j].record.ticketId)
  }

  lemma {:induction false} FirstLineFinds(rows: seq<Row>, k: nat, id: string)
    requires k <= |rows|
    ensures FirstLine(rows, k, id).Some?
       <==> exists i :: 0 <= i < k && rows[i].Accepted? && rows[i].record.ticketId == id
  {
    if k > 0 { FirstLineFinds(rows, k - 1, id); }
  }

  /** The records are the first k rows' records, in file order. */
  ghost predicate KeepsAll(rows: seq<Row>, k: nat)
    requires k <= |rows| && AllAccepted(rows, k)
  {
    |Records(rows, k)| == k && forall i | 0 <= i < k :: Records(rows, k)[i] == rows[i].record
  }

  lemma AllAcceptedNext(rows: seq<Row>, k: nat)
    requires 0 < k <= |rows|
    ensures AllAccepted(rows, k) <==> AllAccepted(rows, k - 1) && RowProblems(rows, k - 1) == []
  {
    if rows[k - 1].Accepted? { FirstLineFinds(rows, k - 1, rows[k - 1].record.ticketId); }
  }

  lemma {:induction false} NoProblemsIff(initial: seq<Diagnostic>, rows: seq<Row>, k: nat)
    requires k <= |rows|
    ensures Problems(initial, rows, k) == [] <==> initial == [] && AllAccepted(rows, k)
  {
    if k > 0 {
      NoProblemsIff(initial, rows, k - 1);
      AllAcceptedNext(rows, k);
    }
  }

  lemma {:induction false} RecordsKept(rows: seq<Row>, k: nat)
    requires k <= |rows| && AllAccepted(rows, k)
    ensures KeepsAll(rows, k)
  {
    if k > 0 {
      AllAcceptedNext(rows, k);
      RecordsKept(rows, k - 1);
      assert Records(rows, k) == Records(rows, k - 1) + [rows[k - 1].record];
    }
  }

  /**
   An export is accepted exactly when it holds 1 to 5000 rows, every row is a record and the
   ticket ids are distinct; then the result is the records in file order.
   */
  lemma AcceptedIff(initial: seq<Diagnostic>, rows: seq<Row>)
    ensures Complaints(initial, rows) == []
       <==> initial == [] && 1 <= |rows| <= MAX_RECORDS && AllAccepted(rows, |rows|)
    ensures Complaints(initial, rows) == [] ==>
              AllAccepted(rows, |rows|) && KeepsAll(rows, |rows|)
  {
    if |rows| <= MAX_RECORDS {
      NoProblemsIff(initial, rows, |rows|);
      if AllAccepted(rows, |rows|) { RecordsKept(rows, |rows|); }
    }
  }

  // ---------------------------------------------------------------- which diagnostics there are

  /** The j-th row is the first record with this ticket id among the first k rows. */
  predicate FirstWith(rows: seq<Row>, k: nat, j: nat, id: string)
    requires k <= |rows|
  {
    j < k && rows[j].Accepted? && rows[j].record.ticketId == id
    && forall l | 0 <= l < j :: rows[l].Accepted? ==> rows[l].record.ticketId != id
  }

  lemma {:induction false} FirstLineIs(rows: seq<Row>, k: nat, j: nat, id: string)
    requires k <= |rows| && FirstWith(rows, k, j, id)
    ensures FirstLine(rows, k, id) == Some(rows[j].line)
  {
    if j < k - 1 {
      FirstLineIs(rows, k - 1, j, id);
    } else {
      FirstLineFinds(rows, k - 1, id);
    }
  }

  lemma {:induction false} FirstWithExists(rows: seq<Row>, k: nat, id: string) returns (j: nat)
    requires k <= |rows| && FirstLine(rows, k, id).Some?
    ensures FirstWith(rows, k, j, id)
  {
    if FirstLine(rows, k - 1, id).Some? {
      j := FirstWithExists(rows, k - 1, id);
    } else {
      FirstLineFinds(rows, k - 1, id);
      j := k - 1;
    }
  }

  /** What one row is reported for: its own findings, or the line that carried its ticket id first. */
  ghost predicate ReportedFor(rows: seq<Row>, i: nat, d: Diagnostic)
    requires i < |rows|
  {
    match rows[i]
    case Rejected(line, problems) => d in problems
    case Accepted(line, record) =>
      d.line == Some(line) && d.problem.DuplicateTicket?
      && exists j: nat :: FirstWith(rows, i, j, record.ticketId) && d.problem.firstLine == rows[j].line
  }

  lemma RowProblemsAre(rows: seq<Row>, i: nat, d: Diagnostic)
    requires i < |rows|
    ensures d in RowProblems(rows, i) <==> ReportedFor(rows, i, d)
  {
    if rows[i].Accepted? {
      var id := rows[i].record.ticketId;
      if FirstLine(rows, i, id).Some? {
        var j := FirstWithExists(rows, i, id);
        FirstLineIs(rows, i, j, id);
      }
      if exists j: nat :: FirstWith(rows, i, j, id) && d.problem == DuplicateTicket(rows[j].line) {
        var j: nat :| FirstWith(rows, i, j, id) && d.problem == DuplicateTicket(rows[j].line);
        FirstLineIs(rows, i, j, id);
      }
    }
  }

  lemma {:induction false} ProblemsAre(initial: seq<Diagnostic>, rows: seq<Row>, k: nat, d: Diagnostic)
    requires k <= |rows|
    ensures d in Problems(initial, rows, k)
       <==> d in initial || exists i :: 0 <= i < k && ReportedFor(rows, i, d)
  {
    if k > 0 {
      ProblemsAre(initial, rows, k - 1, d);
      RowProblemsAre(rows, k - 1, d);
    }
  }

  /**
   A diagnostic is reported exactly when it was there before, one of the first five thousand rows is
   reported for it, there is a row too many, or there is nothing at all.
   */
  lemma ComplaintsIff(initial: seq<Diagnostic>, rows: seq<Row>, d: Diagnostic)
    ensures d in Complaints(initial, rows) <==>
              || d in initial
              || (exists i :: 0 <= i < |rows| && i < 5000 && ReportedFor(rows, i, d))
              || (|rows| > 5000 && d == Diagnostic(Some(rows[5000].line), RecordLimit))
              || (initial == [] && rows == [] && d == Diagnostic(None, EmptyExport))
  {
    var n := Examined(rows);
    ProblemsAre(initial, rows, n, d);
    if n == |rows| && Problems(initial, rows, n) == [] {
      NoProblemsIff(initial, rows, n);
      RecordsKept(rows, n);
    }
  }
}
