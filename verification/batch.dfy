/**
 The analysis loop: one result record per prepared row, in row order, with a
 failed scoring call recorded on its row instead of stopping the batch.
 */
module Batch {
  import opened Wrappers
  import opened Text
  import opened Intake
  import opened Decision

  /** The four category scores of one PageSpeed report, each absent when the service did not report it. */
  datatype Scores = Scores(
    mobilePerformance: Option<int>,
    accessibility: Option<int>,
    bestPractices: Option<int>,
    seo: Option<int>)

  const NoScores: Scores := Scores(None, None, None, None)

  /** What the scoring call returned for one website: its scores, or the text of the exception it raised. */
  type ScoringOutcome = Result<Scores, string>

  /** One row of the full results table (the timestamp column is not modelled). */
  datatype ResultRecord = ResultRecord(
    website: string,
    email: Cell,
    name: Cell,
    company: Cell,
    scores: Scores,
    decision: Action,
    emailSubject: string,
    emailBody: string,
    auditNote: string,
    error: string)

  const ErrorNote: string := "Error during analysis"
  const MaxErrorLength: nat := 300

  /** Python's `s[:n]`. */
  function Truncate(s: string, n: nat): (r: string)
    ensures r <= s
    ensures |r| == if |s| < n then |s| else n
  {
    if |s| <= n then s else s[..n]
  }

  /** `str(cell).strip() or None`: the name handed to the decision engine. */
  function NameArgument(c: Cell): (r: Option<string>)
    ensures r.None? <==> Trim(CellString(c)) == ""
    ensures r.Some? ==> r.value == Trim(CellString(c)) && |r.value| > 0
    ensures r.None? <==> forall k :: 0 <= k < |CellString(c)| ==> IsSpace(CellString(c)[k])
    ensures r.Some? ==> IsTrimmed(r.value)
  {
    TrimEmptyIffAllSpace(CellString(c));
    var n := Trim(CellString(c));
    if n == "" then None else Some(n)
  }

  /** The scoring call succeeded and reported a mobile performance of at most 90. */
  predicate Scored(outcome: ScoringOutcome) {
    outcome.Success? && outcome.value.mobilePerformance.Some? && outcome.value.mobilePerformance.value <= 90
  }

  /** The record the loop body appends for one row, given what the scoring call did. */
  function ProcessRow(headers: seq<string>, row: seq<Cell>, outcome: ScoringOutcome): (rec: ResultRecord)
    requires |row| == |headers|
    ensures rec.website == Trim(CellString(Get(headers, row, WebsiteColumn, Filled(""))))
    ensures rec.email == Get(headers, row, EmailColumn, Filled(""))
    ensures rec.name == Get(headers, row, NameColumn, Filled(""))
    ensures rec.company == Get(headers, row, CompanyColumn, Filled(""))
    ensures outcome.Failure? ==>
      && rec.scores == NoScores
      && rec.decision == Skip
      && rec.emailSubject == "" && rec.emailBody == ""
      && rec.auditNote == ErrorNote
      && rec.error <= outcome.error
      && |rec.error| == (if |outcome.error| < MaxErrorLength then |outcome.error| else MaxErrorLength)
    ensures outcome.Success? ==>
      && rec.scores == outcome.value
      && rec.error == ""
      && Verdict(rec.decision, rec.emailSubject, rec.emailBody, rec.auditNote)
         == DecisionAndEmail(outcome.value.mobilePerformance, NameArgument(rec.name))
    ensures rec.decision == Send <==> Scored(outcome)
    ensures rec.decision == Send ==> rec.emailSubject != "" && rec.emailBody != ""
  {
    var url := Trim(CellString(Get(headers, row, WebsiteColumn, Filled(""))));
    var nameCell := Get(headers, row, NameColumn, Filled(""));
    var email := Get(headers, row, EmailColumn, Filled(""));
    var company := Get(headers, row, CompanyColumn, Filled(""));
    match outcome
    case Success(scores) =>
      var d := DecisionAndEmail(scores.mobilePerformance, NameArgument(nameCell));
      ResultRecord(url, email, nameCell, company, scores, d.action, d.subject, d.body, d.note, "")
    case Failure(message) =>
      ResultRecord(url, email, nameCell, company, NoScores, Skip, "", "", ErrorNote, Truncate(message, MaxErrorLength))
  }

  /**
   The loop shape of the analysis: one `step` result per row, appended in row
   order, whatever the step does with its row.
   */
  method MapRows<R>(rows: seq<seq<Cell>>, outcomes: seq<ScoringOutcome>, step: (seq<Cell>, ScoringOutcome) --> R)
    returns (results: seq<R>)
    requires |outcomes| == |rows|
    requires forall i :: 0 <= i < |rows| ==> step.requires(rows[i], outcomes[i])
    ensures |results| == |rows|
    ensures forall i :: 0 <= i < |rows| ==> results[i] == step(rows[i], outcomes[i])
  {
    results := [];
    var i := 0;
    while i < |rows|
      invariant 0 <= i <= |rows|
      invariant |results| == i
      invariant forall k :: 0 <= k < i ==> results[k] == step(rows[k], outcomes[k])
    {
      results := results + [step(rows[i], outcomes[i])];
      i := i + 1;
    }
  }

  /**
   The analysis loop over a prepared table; `outcomes[i]` is what the scoring
   call did for row `i`. Every row yields exactly one record, in order.
   */
  method RunBatch(t: Table, outcomes: seq<ScoringOutcome>) returns (results: seq<ResultRecord>)
    requires Rectangular(t)
    requires |outcomes| == |t.rows|
    ensures |results| == |t.rows|
    ensures forall i :: 0 <= i < |results| ==> results[i] == ProcessRow(t.headers, t.rows[i], outcomes[i])
  {
    var headers := t.headers;
    results := MapRows(t.rows, outcomes, (row: seq<Cell>, outcome: ScoringOutcome) requires |row| == |headers| =>
      ProcessRow(headers, row, outcome));
  }

  /** Every "send" record carries an email subject and body. */
  predicate SendRecordsHaveText(results: seq<ResultRecord>) {
    forall i :: 0 <= i < |results| && results[i].decision == Send ==>
      results[i].emailSubject != "" && results[i].emailBody != ""
  }

  /**
   Over a whole batch, a record is marked "send" exactly when its row was
   scored at 90 or below, and every such record carries a subject and a body.
   */
  lemma SendRecordsAreScored(t: Table, outcomes: seq<ScoringOutcome>, results: seq<ResultRecord>)
    requires Rectangular(t)
    requires |outcomes| == |t.rows| == |results|
    requires forall i :: 0 <= i < |results| ==> results[i] == ProcessRow(t.headers, t.rows[i], outcomes[i])
    ensures forall i :: 0 <= i < |results| ==> (results[i].decision == Send <==> Scored(outcomes[i]))
    ensures SendRecordsHaveText(results)
  {
  }

  /** A missing name cell prints as "nan", which is truthy, so the decision engine greets "nan". */
  lemma MissingNameGreetsNan()
    ensures NameArgument(Missing) == Some("nan")
    ensures Greeting(NameArgument(Missing)) == "Hi nan,"
  {
    assert CellString(Missing) == "nan";
    assert IsTrimmed("nan");
    TrimFixesExactlyTrimmed("nan");
    assert Trim("nan") != "";
  }
}
