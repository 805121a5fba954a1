/**
 The uploaded table after parsing, and the preparation the app applies to it
 before analysis: header normalisation, the mandatory `website` column, the
 row cap, and the optional columns filled with empty strings.
 */
module Intake {
  import opened Wrappers
  import opened Text

  /** One parsed cell; pandas represents an empty CSV field as NaN, modelled as `Missing`. */
  datatype Cell = Filled(text: string) | Missing

  /** Python's `str(cell)`: the text itself, or `"nan"` for a missing value. */
  function CellString(c: Cell): string {
    match c
    case Filled(t) => t
    case Missing => "nan"
  }

  /** A parsed table: column labels in order and one cell per label in every row. */
  datatype Table = Table(headers: seq<string>, rows: seq<seq<Cell>>)

  predicate Rectangular(t: Table) {
    forall i :: 0 <= i < |t.rows| ==> |t.rows[i]| == |t.headers|
  }

  /** `c.strip().lower()` for one column label. */
  function NormalizeHeader(h: string): (r: string)
    ensures IsTrimmed(r)
    ensures forall i :: 0 <= i < |r| ==> !IsUpper(r[i])
  {
    LowerKeepsTrimmed(Trim(h));
    LowerNormalises(Trim(h));
    Lower(Trim(h))
  }

  /** Normalising a label that is already normalised changes nothing. */
  lemma NormalizeHeaderIdempotent(h: string)
    ensures NormalizeHeader(NormalizeHeader(h)) == NormalizeHeader(h)
  {
    var n := NormalizeHeader(h);
    TrimFixesExactlyTrimmed(n);
    assert Trim(n) == n;
    LowerNormalises(Trim(h));
  }

  function NormalizeHeaders(hs: seq<string>): seq<string> {
    seq(|hs|, i requires 0 <= i < |hs| => NormalizeHeader(hs[i]))
  }

  /** Normalising a whole header row twice is the same as once. */
  lemma NormalizeHeadersIdempotent(hs: seq<string>)
    ensures NormalizeHeaders(NormalizeHeaders(hs)) == NormalizeHeaders(hs)
  {
    forall i | 0 <= i < |hs|
      ensures NormalizeHeaders(NormalizeHeaders(hs))[i] == NormalizeHeaders(hs)[i]
    {
      NormalizeHeaderIdempotent(hs[i]);
    }
  }

  /** pandas `df.head(n)`: the first `n` rows, or all of them when there are fewer. */
  function Head<T>(rows: seq<T>, n: nat): (r: seq<T>)
    ensures |r| == if |rows| < n then |rows| else n
    ensures r <= rows
  {
    if |rows| <= n then rows else rows[..n]
  }

  /** `df[col] = ""` when `col` is not yet a column. */
  function AddColumnIfMissing(t: Table, col: string): (r: Table)
    requires Rectangular(t)
    ensures Rectangular(r)
    ensures col in r.headers
    ensures t.headers <= r.headers
    ensures r.headers == if col in t.headers then t.headers else t.headers + [col]
    ensures |r.rows| == |t.rows|
    ensures forall i :: 0 <= i < |r.rows| ==> t.rows[i] <= r.rows[i]
    ensures forall i, j :: 0 <= i < |r.rows| && |t.headers| <= j < |r.headers| ==> r.rows[i][j] == Filled("")
  {
    if col in t.headers then t
    else Table(t.headers + [col], seq(|t.rows|, i requires 0 <= i < |t.rows| => t.rows[i] + [Filled("")]))
  }

  const WebsiteColumn: string := "website"
  const EmailColumn: string := "email"
  const NameColumn: string := "name"
  const CompanyColumn: string := "company"

  const MissingWebsiteMessage: string := "CSV must contain a 'website' column."

  /** The columns the app fills with empty strings when the upload lacks them, in the order it adds them. */
  const OptionalColumns: seq<string> := [EmailColumn, NameColumn, CompanyColumn]

  /**
   Adds each of `cols` that is not yet a column, in order, filled with empty
   strings; existing columns and cells are left as they are.
   */
  function AddColumnsIfMissing(t: Table, cols: seq<string>): (r: Table)
    requires Rectangular(t)
    ensures Rectangular(r)
    ensures t.headers <= r.headers
    ensures forall c :: c in cols ==> c in r.headers
    ensures forall j :: |t.headers| <= j < |r.headers| ==> r.headers[j] in cols && r.headers[j] !in t.headers
    ensures forall j, k :: |t.headers| <= j < k < |r.headers| ==> r.headers[j] != r.headers[k]
    ensures |r.rows| == |t.rows|
    ensures forall i :: 0 <= i < |r.rows| ==> t.rows[i] <= r.rows[i]
    ensures forall i, j :: 0 <= i < |r.rows| && |t.headers| <= j < |r.headers| ==> r.rows[i][j] == Filled("")
    decreases |cols|
  {
    if |cols| == 0 then t
    else
      var next := AddColumnIfMissing(t, cols[0]);
      var r := AddColumnsIfMissing(next, cols[1..]);
      assert forall i :: 0 <= i < |r.rows| ==> next.rows[i] <= r.rows[i] && t.rows[i] <= next.rows[i];
      r
  }

  /** Adding columns that are all present already changes nothing. */
  lemma {:induction false} AddColumnsIfMissingPresent(t: Table, cols: seq<string>)
    requires Rectangular(t)
    requires forall c :: c in cols ==> c in t.headers
    ensures AddColumnsIfMissing(t, cols) == t
    decreases |cols|
  {
    if |cols| > 0 {
      assert AddColumnIfMissing(t, cols[0]) == t;
      AddColumnsIfMissingPresent(t, cols[1..]);
    }
  }

  /** A label with no surrounding whitespace and no capitals is already normalised. */
  lemma NormalizedLabelFixed(h: string)
    requires IsTrimmed(h)
    requires forall i :: 0 <= i < |h| ==> !IsUpper(h[i])
    ensures NormalizeHeader(h) == h
  {
    TrimFixesExactlyTrimmed(h);
    LowerFixesLowerCase(h);
  }

  /** The optional column names are already normalised labels. */
  lemma OptionalColumnsNormalized()
    ensures forall c :: c in OptionalColumns ==> NormalizeHeader(c) == c
  {
    forall c | c in OptionalColumns
      ensures NormalizeHeader(c) == c
    {
      if c == EmailColumn {
        NormalizedLabelFixed(EmailColumn);
      } else if c == NameColumn {
        NormalizedLabelFixed(NameColumn);
      } else {
        NormalizedLabelFixed(CompanyColumn);
      }
    }
  }

  /**
   Header normalisation, the `website` check, the row cap and the empty
   defaults, in the order the app applies them.
   */
  function PrepareTable(t: Table, maxRows: nat): (r: Result<Table, string>)
    requires Rectangular(t)
    ensures r.Failure? <==> WebsiteColumn !in NormalizeHeaders(t.headers)
    ensures r.Failure? ==> r.error == MissingWebsiteMessage
    ensures r.Success? ==>
      && Rectangular(r.value)
      && WebsiteColumn in r.value.headers
      && (forall c :: c in OptionalColumns ==> c in r.value.headers)
      && NormalizeHeaders(t.headers) <= r.value.headers
      && (forall j :: |t.headers| <= j < |r.value.headers| ==>
            r.value.headers[j] in OptionalColumns && r.value.headers[j] !in NormalizeHeaders(t.headers))
      && (forall j, k :: |t.headers| <= j < k < |r.value.headers| ==> r.value.headers[j] != r.value.headers[k])
      && |r.value.rows| == (if |t.rows| < maxRows then |t.rows| else maxRows)
      && (forall i :: 0 <= i < |r.value.rows| ==> t.rows[i] <= r.value.rows[i])
      && (forall i, j :: 0 <= i < |r.value.rows| && |t.headers| <= j < |r.value.headers| ==>
            r.value.rows[i][j] == Filled(""))
  {
    var headers := NormalizeHeaders(t.headers);
    if WebsiteColumn !in headers then Failure(MissingWebsiteMessage)
    else
      var capped := Table(headers, Head(t.rows, maxRows));
      Success(AddColumnsIfMissing(capped, OptionalColumns))
  }

  /** Position of the first column labelled `key`, if any. */
  function ColumnIndex(headers: seq<string>, key: string): (r: Option<nat>)
    ensures r.None? <==> key !in headers
    ensures r.Some? ==> r.value < |headers| && headers[r.value] == key
    ensures r.Some? ==> forall k :: 0 <= k < r.value ==> headers[k] != key
  {
    if |headers| == 0 then None
    else if headers[0] == key then Some(0)
    else match ColumnIndex(headers[1..], key)
      case None => None
      case Some(k) => Some(k + 1)
  }

  /** pandas `row.get(key, default)` for a row whose labels are `headers`. */
  function Get(headers: seq<string>, row: seq<Cell>, key: string, default: Cell): (c: Cell)
    requires |row| == |headers|
    ensures key !in headers ==> c == default
    ensures key in headers ==> exists k :: 0 <= k < |headers| && headers[k] == key && c == row[k]
  {
    match ColumnIndex(headers, key)
    case None => default
    case Some(k) => row[k]
  }

  /** Every label is its own normal form. */
  predicate AllNormalized(hs: seq<string>) {
    forall j :: 0 <= j < |hs| ==> NormalizeHeader(hs[j]) == hs[j]
  }

  lemma NormalizeHeadersNormalized(hs: seq<string>)
    ensures AllNormalized(NormalizeHeaders(hs))
  {
    forall j | 0 <= j < |hs|
      ensures NormalizeHeader(NormalizeHeaders(hs)[j]) == NormalizeHeaders(hs)[j]
    {
      NormalizeHeaderIdempotent(hs[j]);
    }
  }

  /** Normalising an already normalised header row changes nothing. */
  lemma AllNormalizedFixed(hs: seq<string>)
    requires AllNormalized(hs)
    ensures NormalizeHeaders(hs) == hs
  {
  }

  /** Adding normalised labels to a normalised header row keeps it normalised. */
  lemma AddColumnsKeepsNormalized(t: Table, cols: seq<string>)
    requires Rectangular(t)
    requires AllNormalized(t.headers)
    requires forall c :: c in cols ==> NormalizeHeader(c) == c
    ensures AllNormalized(AddColumnsIfMissing(t, cols).headers)
  {
    var hs := AddColumnsIfMissing(t, cols).headers;
    forall j | 0 <= j < |hs|
      ensures NormalizeHeader(hs[j]) == hs[j]
    {
      if j < |t.headers| {
        assert hs[j] == t.headers[j];
      } else {
        assert hs[j] in cols;
      }
    }
  }

  /** Every label of a prepared table is already normalised. */
  lemma PreparedHeadersNormalized(t: Table, maxRows: nat)
    requires Rectangular(t)
    requires PrepareTable(t, maxRows).Success?
    ensures AllNormalized(PrepareTable(t, maxRows).value.headers)
  {
    var capped := Table(NormalizeHeaders(t.headers), Head(t.rows, maxRows));
    var headers := PrepareTable(t, maxRows).value.headers;
    assert headers == AddColumnsIfMissing(capped, OptionalColumns).headers;
    NormalizeHeadersNormalized(t.headers);
    OptionalColumnsNormalized();
    AddColumnsKeepsNormalized(capped, OptionalColumns);
  }

  /**
   A table whose labels are normalised, that has a `website` column and every
   optional column, and that is within the row cap, is left as it is.
   */
  lemma PrepareTableFixes(r: Table, maxRows: nat)
    requires Rectangular(r)
    requires AllNormalized(r.headers)
    requires WebsiteColumn in r.headers
    requires forall c :: c in OptionalColumns ==> c in r.headers
    requires |r.rows| <= maxRows
    ensures PrepareTable(r, maxRows) == Success(r)
  {
    AllNormalizedFixed(r.headers);
    assert Table(r.headers, Head(r.rows, maxRows)) == r;
    AddColumnsIfMissingPresent(r, OptionalColumns);
  }

  /** Preparing a table that was already prepared with the same cap changes nothing. */
  lemma PrepareTableIdempotent(t: Table, maxRows: nat)
    requires Rectangular(t)
    requires PrepareTable(t, maxRows).Success?
    ensures PrepareTable(PrepareTable(t, maxRows).value, maxRows) == PrepareTable(t, maxRows)
  {
    PreparedHeadersNormalized(t, maxRows);
    PrepareTableFixes(PrepareTable(t, maxRows).value, maxRows);
  }
}
