/** The row loop of `parse_csv`: every data row becomes a 7-field address,
    and an eighth column, where present, a product override. Rows arrive
    already split into columns. */
module CsvRows {
  import opened Wrappers
  import opened Errors
  import opened Addresses

  /** The number of address columns. */
  const Width: nat := 7

  /** Python's `[''] * n`: `n` empty strings, none at all for `n <= 0`. */
  function Blanks(n: int): (r: seq<string>)
    ensures |r| == if n > 0 then n else 0
    ensures forall k :: 0 <= k < |r| ==> r[k] == ""
  {
    if n <= 0 then [] else [""] + Blanks(n - 1)
  }

  /** `r[0:7] + [''] * (7 - len(r))`: the row cut or padded to exactly
      seven columns, the missing ones empty. */
  function NormaliseRow(row: seq<string>): (fields: seq<string>)
    ensures |fields| == Width
    ensures forall k :: 0 <= k < Width ==> fields[k] == if k < |row| then row[k] else ""
  {
    var kept := if |row| < Width then row else row[..Width];
    kept + Blanks(Width - |row|)
  }

  /** A row that already has seven columns is left as it is. */
  lemma NormaliseSevenColumns(row: seq<string>)
    requires |row| == Width
    ensures NormaliseRow(row) == row
  {
  }

  /** The product overrides of some data rows: the eighth column of every
      row that has one, in row order. */
  function Overrides(rows: seq<seq<string>>): (ps: seq<string>)
    ensures |ps| <= |rows|
  {
    if |rows| == 0 then []
    else
      var last := rows[|rows| - 1];
      Overrides(rows[..|rows| - 1]) + (if |last| > Width then [last[Width]] else [])
  }

  /** Indices of the rows that carry an override. */
  function OverrideRows(rows: seq<seq<string>>): (ix: seq<nat>)
    ensures forall j :: 0 <= j < |ix| ==> ix[j] < |rows| && |rows[ix[j]]| > Width
    ensures forall j, j' :: 0 <= j < j' < |ix| ==> ix[j] < ix[j']
    ensures forall k :: 0 <= k < |rows| && |rows[k]| > Width ==> k in ix
  {
    if |rows| == 0 then []
    else
      var n := |rows| - 1;
      var front := OverrideRows(rows[..n]);
      assert forall j :: 0 <= j < |front| ==> rows[..n][front[j]] == rows[front[j]];
      front + (if |rows[n]| > Width then [n] else [])
  }

  /** `ps[j]` is the eighth column of row `ix[j]`, for every j. */
  predicate ColumnsOf(ps: seq<string>, ix: seq<nat>, rows: seq<seq<string>>)
  {
    && |ps| == |ix|
    && forall j :: 0 <= j < |ix| ==> ix[j] < |rows| && |rows[ix[j]]| > Width && ps[j] == rows[ix[j]][Width]
  }

  /** Adding one row keeps the columns already collected and adds its own. */
  lemma ColumnsOfSnoc(ps: seq<string>, ix: seq<nat>, rows: seq<seq<string>>)
    requires |rows| > 0
    requires ColumnsOf(ps, ix, rows[..|rows| - 1])
    ensures var last := rows[|rows| - 1];
      ColumnsOf(ps + (if |last| > Width then [last[Width]] else []),
                ix + (if |last| > Width then [|rows| - 1] else []), rows)
  {
    var n := |rows| - 1;
    forall j | 0 <= j < |ix|
      ensures rows[..n][ix[j]] == rows[ix[j]]
    {
    }
  }

  /** The j-th override is the eighth column of the j-th row that has more
      than seven columns: overrides are collected exactly for those rows,
      in order. */
  lemma {:induction false} OverridesOfRows(rows: seq<seq<string>>)
    ensures |Overrides(rows)| == |OverrideRows(rows)|
    ensures forall j :: 0 <= j < |Overrides(rows)| ==>
      Overrides(rows)[j] == rows[OverrideRows(rows)[j]][Width]
  {
    OverridesColumns(rows);
  }

  lemma {:induction false} OverridesColumns(rows: seq<seq<string>>)
    ensures ColumnsOf(Overrides(rows), OverrideRows(rows), rows)
  {
    if |rows| > 0 {
      OverridesColumns(rows[..|rows| - 1]);
      ColumnsOfSnoc(Overrides(rows[..|rows| - 1]), OverrideRows(rows[..|rows| - 1]), rows);
    }
  }

  /** What a CSV file yields: the recipients and the product overrides. */
  datatype Table = Table(addresses: seq<Address>, overrides: seq<string>)

  /** `parse_csv` on a file given as rows of columns: the first row is a
      header and is skipped; a file without any row fails where the
      header is read. */
  method ParseCsv(rows: seq<seq<string>>) returns (r: Result<Table, Error>)
    ensures r.Err? <==> |rows| == 0
    ensures r.Err? ==> r.error == MissingHeader
    ensures r.Ok? ==> |r.value.addresses| == |rows| - 1
    ensures r.Ok? ==> forall k :: 0 <= k < |rows| - 1 ==>
      ToFields(r.value.addresses[k]) == NormaliseRow(rows[k + 1])
    ensures r.Ok? ==> r.value.overrides == Overrides(rows[1..])
  {
    if |rows| == 0 {
      return Err(MissingHeader);
    }
    var xs: seq<Address> := [];
    var ps: seq<string> := [];
    var i := 1;
    while i < |rows|
      invariant 1 <= i <= |rows|
      invariant |xs| == i - 1
      invariant forall k :: 0 <= k < i - 1 ==> ToFields(xs[k]) == NormaliseRow(rows[k + 1])
      invariant ps == Overrides(rows[1..i])
    {
      var row := rows[i];
      xs := xs + [FromFields(NormaliseRow(row))];
      if |row| > Width {
        ps := ps + [row[Width]];
      }
      assert rows[1..i + 1][..i - 1] == rows[1..i];
      i := i + 1;
    }
    assert rows[1..i] == rows[1..];
    return Ok(Table(xs, ps));
  }
}
