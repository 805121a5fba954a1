/** The outreach import file: the send rows of the results, reshaped to seven columns. */
module Export {
  import opened Wrappers
  import opened Intake
  import opened Decision
  import opened Batch

  /** One row of the outreach CSV; `firstName` is the raw `name` cell of the record. */
  datatype OutreachRow = OutreachRow(
    email: Cell,
    firstName: Cell,
    website: string,
    mobilePerformance: Option<int>,
    emailSubject: string,
    emailBody: string,
    auditNote: string)

  function Project(rec: ResultRecord): OutreachRow {
    OutreachRow(rec.email, rec.name, rec.website, rec.scores.mobilePerformance,
                rec.emailSubject, rec.emailBody, rec.auditNote)
  }

  /** `res[res["decision"] == "send"]` projected to the outreach columns, keeping row order. */
  function OutreachRows(results: seq<ResultRecord>): (out: seq<OutreachRow>)
    ensures |out| <= |results|
    ensures |out| == 0 <==> forall i :: 0 <= i < |results| ==> results[i].decision != Send
  {
    if |results| == 0 then []
    else
      var rest := OutreachRows(results[1..]);
      assert forall i :: 1 <= i < |results| ==> results[i] == results[1..][i - 1];
      if results[0].decision.Label() == "send" then [Project(results[0])] + rest else rest
  }

  /**
   The error the export step raises on an empty batch: a frame built from an
   empty list of records has no columns, so selecting `decision` fails.
   */
  const NoDecisionColumnError: string := "KeyError: 'decision'"

  /**
   The export step as the app runs it: the filtered projection, except that an
   empty batch raises before any row is filtered.
   */
  function OutreachExport(results: seq<ResultRecord>): (r: Result<seq<OutreachRow>, string>)
    ensures r.Failure? <==> |results| == 0
    ensures r.Failure? ==> r.error == NoDecisionColumnError
    ensures r.Success? ==> r.value == OutreachRows(results) && |r.value| <= |results|
  {
    if |results| == 0 then Failure(NoDecisionColumnError) else Success(OutreachRows(results))
  }

  /**
   The export step fails on an empty batch, where the filtered projection
   gives the empty outreach file the step evidently means to write.
   */
  lemma EmptyBatchExportFails()
    ensures OutreachExport([]) == Failure(NoDecisionColumnError)
    ensures OutreachRows([]) == []
  {
  }

  /**
   An upload holding only a header row passes preparation and yields no
   records, so its export step fails; with the cap of at least 1 that the
   row limit input enforces, any upload with a row exports.
   */
  lemma HeaderOnlyUploadFailsExport(t: Table, maxRows: nat, results: seq<ResultRecord>)
    requires Rectangular(t)
    ensures PrepareTable(t, maxRows).Success? && |results| == |PrepareTable(t, maxRows).value.rows| ==>
      (OutreachExport(results).Failure? <==> |t.rows| == 0 || maxRows == 0)
    ensures maxRows >= 1 && PrepareTable(t, maxRows).Success? && |results| == |PrepareTable(t, maxRows).value.rows| ==>
      (OutreachExport(results).Failure? <==> |t.rows| == 0)
  {
  }

  /** The export of a concatenation is the concatenation of the exports: relative order is kept. */
  lemma {:induction false} OutreachRowsAppend(a: seq<ResultRecord>, b: seq<ResultRecord>)
    ensures OutreachRows(a + b) == OutreachRows(a) + OutreachRows(b)
    decreases |a|
  {
    if |a| == 0 {
      assert a + b == b;
    } else {
      assert (a + b)[1..] == a[1..] + b;
      OutreachRowsAppend(a[1..], b);
    }
  }

  /** A row is exported exactly when it is the projection of some send record. */
  lemma {:induction false} OutreachRowsMembership(results: seq<ResultRecord>, x: OutreachRow)
    ensures x in OutreachRows(results) <==>
      exists i :: 0 <= i < |results| && results[i].decision == Send && Project(results[i]) == x
    decreases |results|
  {
    if |results| > 0 {
      OutreachRowsMembership(results[1..], x);
      if x in OutreachRows(results[1..]) {
        var i :| 0 <= i < |results[1..]| && results[1..][i].decision == Send && Project(results[1..][i]) == x;
        assert results[i + 1] == results[1..][i];
      }
      if exists i :: 0 <= i < |results| && results[i].decision == Send && Project(results[i]) == x {
        var i :| 0 <= i < |results| && results[i].decision == Send && Project(results[i]) == x;
        if i > 0 {
          assert results[1..][i - 1] == results[i];
        }
      }
    }
  }

  /** The export holds exactly the projections of the records whose scoring outcome is `Scored`. */
  ghost predicate ExportsExactlyScored(outcomes: seq<ScoringOutcome>, results: seq<ResultRecord>)
    requires |outcomes| == |results|
  {
    forall x :: x in OutreachRows(results) <==>
      exists i :: 0 <= i < |results| && Project(results[i]) == x && Scored(outcomes[i])
  }

  /**
   When a record is "send" exactly when its outcome is scored, the export
   holds exactly the projections of the scored rows.
   */
  lemma ExportedExactlyScored(outcomes: seq<ScoringOutcome>, results: seq<ResultRecord>)
    requires |outcomes| == |results|
    requires forall i :: 0 <= i < |results| ==> (results[i].decision == Send <==> Scored(outcomes[i]))
    ensures ExportsExactlyScored(outcomes, results)
  {
    forall x
      ensures x in OutreachRows(results) <==>
        exists i :: 0 <= i < |results| && Project(results[i]) == x && Scored(outcomes[i])
    {
      OutreachRowsMembership(results, x);
      if exists i :: 0 <= i < |results| && Project(results[i]) == x && Scored(outcomes[i]) {
        var i :| 0 <= i < |results| && Project(results[i]) == x && Scored(outcomes[i]);
        assert results[i].decision == Send;
      }
    }
  }

  /** Every row of the export of `results` has a subject and a body to send. */
  ghost predicate ExportHasText(results: seq<ResultRecord>) {
    forall x :: x in OutreachRows(results) ==> x.emailSubject != "" && x.emailBody != ""
  }

  /** When every send record has a subject and a body, so does every exported row. */
  lemma ExportedRowsHaveText(results: seq<ResultRecord>)
    requires SendRecordsHaveText(results)
    ensures ExportHasText(results)
  {
    forall x | x in OutreachRows(results)
      ensures x.emailSubject != "" && x.emailBody != ""
    {
      OutreachRowsMembership(results, x);
    }
  }

  /**
   Over a batch, the export holds exactly the rows whose scoring call
   succeeded with a mobile score of at most 90, each with a non-empty subject
   and body.
   */
  lemma ExportedRowsWereScoredAtMost90(t: Table, outcomes: seq<ScoringOutcome>, results: seq<ResultRecord>)
    requires Rectangular(t)
    requires |outcomes| == |t.rows| == |results|
    requires forall i :: 0 <= i < |results| ==> results[i] == ProcessRow(t.headers, t.rows[i], outcomes[i])
    ensures ExportsExactlyScored(outcomes, results)
    ensures ExportHasText(results)
  {
    SendRecordsAreScored(t, outcomes, results);
    ExportedExactlyScored(outcomes, results);
    ExportedRowsHaveText(results);
  }
}
