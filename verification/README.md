# PageSpeed outreach demo — Dafny model

A model of the pure logic inside `app.py` of the PageSpeed outreach demo. The
app takes an uploaded lead list, scores each lead's website with Google
PageSpeed Insights (mobile), and decides for each lead whether to send an
outreach email. It then exports the full results and an outreach import file
that holds only the "send" rows.

The model covers four parts of that logic.

- **Decision engine** (`decision.dfy`, module `Decision`). This is
  `decision_and_email(perf, name)`. A missing score skips with "Score not
  available". A score of 91 or more skips with "Performance is 90+ (no
  outreach)". Every other score falls into exactly one of the three template
  buckets: `0-50`, with no lower bound, then `51-75`, then `76-90`. The email
  body is the greeting line `Hi <name>,` (or `Hi,` when the name is falsy), a
  blank line, and the bucket's fixed text. The literal subjects and bodies are
  copied character for character, including the en dashes and the
  typographic apostrophe. The audit note is `Mobile performance <score>.
  Offer depends on bucket <label>.`.
- **Table preparation** (`intake.dfy`, module `Intake`). Each column label is
  stripped and lower-cased. The upload is rejected with "CSV must contain a
  'website' column." when no `website` label remains. The rows are then
  capped at `max_rows`, and the columns `email`, `name` and `company` are
  added, filled with `""`, when they are missing. Cells are `Filled(text)` or
  `Missing`. `Missing` stands for the NaN pandas stores for an empty field,
  and Python's `str()` prints it as `nan`.
- **Analysis loop** (`batch.dfy`, module `Batch`). Every row yields exactly
  one result record, in row order. The website is the stripped cell text. The
  name argument is the stripped name cell, or `None` when that is empty. A
  scoring call that fails produces a record with no scores, `skip`, the note
  "Error during analysis", and the error message cut to 300 characters. A
  successful call produces the decision engine's output for the mobile
  performance score.
- **Outreach export** (`export.dfy`, module `Export`). The results are
  filtered to `decision == "send"` and keep their order. Each remaining record
  is projected to seven fields: email, first name (the raw `name` cell),
  website, mobile performance, subject, body and note.

`text.dfy` (module `Text`) holds the Python string operations these parts
use:

- `str.strip()`, with the full `str.isspace` character set;
- `str.lower()`, for ASCII letters only;
- `str(int)`, with a reader that inverts it;
- prefix and concatenation facts.

`wrappers.dfy` holds `Option` and `Result`.

The scoring call is not a function in the model. The caller supplies one
`Result<Scores, string>` per row: `Success(scores)` when `get_pagespeed`
returned, and `Failure(message)` when it raised, where `message` is
`str(e)`.

One consequence of the code as written shows in the model. An empty `name`
cell is NaN in pandas. `str(NaN).strip()` is `"nan"`, which is truthy, so that
lead is greeted `Hi nan,`. `Batch.MissingNameGreetsNan` states this. A `name`
column that is missing altogether is added filled with `""`, which gives the
`Hi,` greeting instead.

A few details of the code fix the exact output:

- the fallback greeting is `Hi,`;
- the audit note ends with a period;
- the outreach export has exactly seven columns, and `company` is not among them;
- column labels are only stripped and lower-cased, with no other renaming.

The export step also fails on an empty batch. An upload holding only a header
line passes the `website` check and yields no records. `pd.DataFrame([])` then
has no columns, so selecting `decision` raises `KeyError` and no outreach file
is written. `Export.OutreachExport` models this, and "## Findings" records it.

## Model

| member | source | states |
|---|---|---|
| Decision.DecisionAndEmail | app.py:44-95 | No score gives exactly `(skip, "", "", "Score not available")`. A score of 91 or more gives exactly `(skip, "", "", "Performance is 90+ (no outreach)")`. The action is send iff a score of at most 90 is present. Subject and body are non-empty iff the action is send. For the bucket whose range holds the score, subject, body and note are that bucket's subject, greeting plus blank line plus template, and note. |
| Decision.Action.Label | app.py:47-95 | The stored decision text is `"send"` exactly for a send and `"skip"` exactly for a skip, which the export filter at line 178 relies on. |
| Decision.RangesPartition | app.py:53-92 | The three bucket ranges cover exactly the scores of at most 90 and never overlap. Negative scores fall in `0-50`. |
| Decision.BucketOf | app.py:54-92 | The if/elif/else chain selects a bucket whose range contains the score. |
| Decision.BodyOpensWithGreeting | app.py:57-83 | On every send the body starts with `Hi <name>,` when the name is truthy, and with `Hi,` otherwise. |
| Decision.NameOnlyShapesGreeting | app.py:44-95 | Action, subject and note never depend on the name. Any two falsy names give identical output. |
| Decision.SendNoteReadsBack | app.py:94 | The score can be read back out of every send note that was built from it. |
| Decision.SkipNotesCarryNoScore | app.py:46-51 | Neither skip note reads as a score. |
| Decision.NoteRecordsScore | app.py:46-95 | The audit note carries a readable score exactly on the send path, and that score is the input score. |
| Text.Trim | app.py:106 | `strip()` gives a string with no leading or trailing whitespace. It is the infix left after dropping the leading whitespace run, and everything after it is whitespace. |
| Text.TrimFixesExactlyTrimmed | app.py:106 | `strip()` leaves a string unchanged iff the string has no leading or trailing whitespace. |
| Text.TrimEmptyIffAllSpace | app.py:131 | `strip()` gives the empty string exactly when every character is whitespace. |
| Text.TrimIdempotent | app.py:130-131 | Stripping twice equals stripping once. |
| Text.Lower | app.py:106 | `lower()` keeps the length and maps each character on its own, position by position. |
| Text.LowerNormalises | app.py:106 | A lower-cased string has no upper-case letter, and lower-casing it again changes nothing. |
| Text.LowerKeepsTrimmed | app.py:106 | Lower-casing a stripped string leaves it stripped. |
| Text.IntToString | app.py:94 | `str(perf)` is non-empty, starts with `-` exactly when `perf` is negative, and holds no `.`. |
| Text.NatRoundTrip | app.py:94 | Parsing the decimal digits of a natural number gives it back. |
| Text.IntRoundTrip | app.py:94 | `str(perf)` is an integer literal, and parsing it gives `perf` back, negative scores included. |
| Text.UpToDotSplits | app.py:94 | A dot-free text followed by a dot is recovered by reading up to the first dot. |
| Intake.NormalizeHeader | app.py:106 | A normalised label has no surrounding whitespace and no upper-case letter. |
| Intake.NormalizeHeaderIdempotent | app.py:106 | Normalising a label twice equals normalising it once. |
| Intake.NormalizeHeadersIdempotent | app.py:106 | Normalising a whole header row twice equals normalising it once. |
| Intake.Head | app.py:112 | The capped rows are a prefix of the input, of length `min(rows, max_rows)`. |
| Intake.AddColumnIfMissing | app.py:113-114 | Afterwards the column exists. Existing labels and cells are unchanged, and a new column is appended, filled with `""`, only when it was missing. |
| Intake.AddColumnsIfMissing | app.py:113-118 | Afterwards every optional column exists. The old labels are a prefix of the new ones. Each added label is one of the optional columns, was not there before, and is added only once. Every added cell is `""`, and the old cells are unchanged. |
| Intake.PrepareTable | app.py:106-118 | Rejects with the website message iff `website` is not among the normalised labels. On success the table is rectangular, holds `website`, `email`, `name` and `company`, and keeps the normalised labels as a prefix. It has `min(rows, max_rows)` rows, each extending the original row, with `""` in every added column. |
| Intake.AddColumnsIfMissingPresent | app.py:113-118 | When every optional column is already present, adding the defaults changes nothing. |
| Intake.OptionalColumnsNormalized | app.py:113-118 | `email`, `name` and `company` are already normalised labels. |
| Intake.PreparedHeadersNormalized | app.py:106-118 | Every label of a prepared table is already stripped and lower-cased. |
| Intake.PrepareTableFixes | app.py:106-118 | A table with normalised labels, a `website` column, every optional column and at most `max_rows` rows is accepted unchanged. |
| Intake.PrepareTableIdempotent | app.py:106-118 | Preparing an accepted table a second time with the same cap gives the same table. |
| Intake.ColumnIndex | app.py:130 | Finds the first position holding the label, and nothing iff the label is absent. |
| Intake.Get | app.py:130-131 | `row.get(key, default)` gives the default when the label is absent, and otherwise a cell stored under that label. |
| Batch.Truncate | app.py:144 | `s[:300]` is a prefix of `s` of length `min(len(s), 300)`. |
| Batch.NameArgument | app.py:131 | The name is `None` iff every character of `str(cell)` is whitespace, Unicode spaces included. Otherwise it is the stripped, non-empty text, with neither end whitespace. |
| Batch.ProcessRow | app.py:129-158 | The website is the stripped cell. Email, name and company are the raw cells. A failed call gives no scores, `skip`, empty subject and body, "Error during analysis", and as error exactly the first 300 characters of the message: a prefix of length `min(len(message), 300)`, so the whole message when it is short enough. A successful call gives the scores, no error, and the decision engine's output for the mobile score and the stripped name. The record is a send iff the call succeeded with a mobile score of at most 90, and a send record always has a subject and a body. |
| Batch.MapRows | app.py:129-146 | The loop appends exactly one step result per row, in row order. |
| Batch.RunBatch | app.py:124-158 | One record per prepared row, in row order. Record `i` is the row step applied to row `i` and its scoring outcome. |
| Batch.SendRecordsAreScored | app.py:136-158 | Across a whole batch, a record is a send exactly when its scoring call succeeded with a mobile score of at most 90. Every send record has a subject and a body. |
| Batch.MissingNameGreetsNan | app.py:131 | An empty (NaN) name cell yields the name `nan`, so the greeting is `Hi nan,`. |
| Export.OutreachRows | app.py:176-188 | The send-only projection, filtered on the `"send"` label. It has at most as many rows as the results, and it is empty iff no record is a send. This is the intended export, and it is total, giving `[]` for an empty batch. |
| Export.OutreachExport | app.py:164-188 | The export step as written. It fails with `KeyError: 'decision'` iff the batch is empty, and otherwise it is exactly the send-only projection. |
| Export.EmptyBatchExportFails | app.py:164-178 | On an empty batch the step as written fails, while the send-only projection gives the empty export. |
| Export.HeaderOnlyUploadFailsExport | app.py:102-178 | For an accepted upload, the export step fails exactly when the upload has no data rows or the cap is 0. The number input at line 102 keeps the cap at 1 or more, and for such a cap the step fails exactly when the upload has no data rows. |
| Export.OutreachRowsAppend | app.py:178 | Filtering a concatenation gives the concatenation of the filtered parts, so relative order is kept. |
| Export.OutreachRowsMembership | app.py:176-188 | A row is in the export iff it is the seven-field projection of some send record. |
| Export.ExportedExactlyScored | app.py:176-188 | When a record is a send exactly when its outcome scored at most 90, the export holds exactly the projections of those records. |
| Export.ExportedRowsHaveText | app.py:176-188 | When every send record has a subject and a body, so does every exported row. |
| Export.ExportedRowsWereScoredAtMost90 | app.py:129-188 | For a batch built by the row step, the export holds exactly the projections of the rows whose scoring call succeeded with a mobile score of at most 90. Every exported row has a non-empty subject and body. |

## Findings

| source | as written | input that shows it | evidently intended | confidence | as-written member | corrected member |
|---|---|---|---|---|---|---|
| app.py:164-178 | `res = pd.DataFrame(results)` followed by `res["decision"] == "send"` | a CSV whose only line is the header `website`: it passes the check at line 108, `results` stays `[]`, and the frame has no `decision` column, so line 178 raises `KeyError` | an empty outreach file, since no record is a send | high; not executed | Export.OutreachExport (shown by Export.EmptyBatchExportFails and Export.HeaderOnlyUploadFailsExport) | Export.OutreachRows (empty iff no record is a send, so `[]` for an empty batch) |

## Left out

- The Streamlit interface is not modelled: page setup, uploader, slider, number input, preview, progress bar, status line and download buttons. It is presentation only.
- The HTTP request to the PageSpeed Insights v5 endpoint and its JSON navigation are not modelled. They are network I/O against a foreign service. Their result enters the model as one `Result<Scores, string>` per row.
- The conversion `int(round(v * 100))` of a category score is not modelled. It is floating-point arithmetic with round-half-to-even. `Scores` holds the already-converted integers, or `None` where the service reported no score.
- `time.sleep`, `datetime.utcnow()` and the `timestamp_utc` column are left out, because they are side effects and clock reads. The `PAGESPEED_API_KEY` environment check is left out for the same reason.
- pandas CSV parsing and the XLSX and CSV writers are library I/O and are not modelled. The model starts from a parsed table of text cells. Two consequences fall outside it: the float rendering of a numeric score column in the written CSV, and the `str()` of cells pandas parsed as numbers.
- The full-results XLSX export is just the sequence of records the loop returns. It has no separate model.
- Text.Lower: maps ASCII letters only, while Python's `str.lower()` follows the whole Unicode case table.
- Intake.NormalizeHeader: inherits the ASCII-only lower-casing of `Text.Lower`.
- Intake.Get: returns the cell under the first matching label. After normalisation two labels can coincide, and pandas would then return a Series rather than one cell; that case is not modelled.
- Text.IntRoundTrip: states the round trip for `str(int)` only. `perf` is always an `int` here, so float formatting does not arise.
