/** Lookups in the static format catalog (`get_format`, `get_page_info`)
    and the price column padding of the product listing. */
module Catalog {
  import opened Wrappers
  import opened Errors
  import opened Strings
  import opened Layout

  /** A paper format of the catalog, reduced to what the core reads: its
      id and its label grid (labels per row, rows per page). */
  datatype Format = Format(id: int, labelX: nat, labelY: nat)

  /** Position of the first format with the given id, `|formats|` if none. */
  function FormatIndex(formats: seq<Format>, id: int): (k: nat)
    ensures k <= |formats|
    ensures forall j :: 0 <= j < k ==> formats[j].id != id
    ensures k < |formats| ==> formats[k].id == id
  {
    if |formats| == 0 then 0
    else if formats[0].id == id then 0
    else 1 + FormatIndex(formats[1..], id)
  }

  /** `get_format`: the first catalog entry with the id; failing when no
      entry has it. */
  function GetFormat(formats: seq<Format>, id: int): (r: Result<Format, Error>)
    ensures r.Err? <==> forall j :: 0 <= j < |formats| ==> formats[j].id != id
    ensures r.Err? ==> r.error == UnknownFormat(id)
    ensures r.Ok? ==> r.value.id == id
    ensures r.Ok? ==>
      exists k :: 0 <= k < |formats| && formats[k] == r.value && forall j :: 0 <= j < k ==> formats[j].id != id
  {
    var k := FormatIndex(formats, id);
    if k < |formats| then Ok(formats[k]) else Err(UnknownFormat(id))
  }

  /** `get_page_info`: the label grid of a format, `labelX` labels per row
      (the divisor of the column) and `labelY` rows per page. */
  function GetPageInfo(f: Format): (g: Grid)
    ensures g.columns == f.labelX && g.rows == f.labelY
    ensures ValidGrid(g) <==> f.labelX >= 1 && f.labelY >= 1
  {
    Grid(f.labelX, f.labelY)
  }

  /** A page of a format holds `labelX * labelY` stamps: stamp number
      `n * labelX * labelY` is the first one of page n + 1. */
  lemma PageCapacity(f: Format, n: nat)
    requires f.labelX >= 1 && f.labelY >= 1
    ensures Place(n * (f.labelX * f.labelY), GetPageInfo(f)) == Placement(n + 1, 1, 1)
  {
    var g := GetPageInfo(f);
    var p := Placement(n + 1, 1, 1);
    assert Index(p, g) == n * (f.labelX * f.labelY);
    PlaceOfIndex(p, g);
  }

  /** Python's `' ' * n`: `n` spaces, none for `n <= 0`. */
  function Spaces(n: int): (r: string)
    ensures |r| == if n > 0 then n else 0
    ensures forall k :: 0 <= k < |r| ==> r[k] == ' '
  {
    if n <= 0 then "" else " " + Spaces(n - 1)
  }

  /** The price column of the product listing: a price without a decimal
      point gets three trailing spaces, one with a point enough to fill
      two decimals. */
  function PadPrice(s: string): (r: string)
    ensures |r| >= |s| && r[..|s|] == s
    ensures forall k :: |s| <= k < |r| ==> r[k] == ' '
  {
    var t := Split(s, '.');
    if |t| == 1 then s + Spaces(3) else s + Spaces(2 - |t[1]|)
  }

  /** The padding lines prices up: a whole-euro price and a price with at
      most two decimals are padded to the same width, the euro part plus
      three. */
  lemma PadPriceAligns(euros: string, cents: string)
    requires '.' !in euros && '.' !in cents && |cents| <= 2
    ensures |PadPrice(euros)| == |euros| + 3
    ensures |PadPrice(euros + "." + cents)| == |euros| + 3
  {
    SplitNoSep(euros, '.');
    var pieces := [euros, cents];
    assert Join(pieces, '.') == euros + "." + cents by {
      assert pieces[1..] == [cents];
    }
    SplitJoin(pieces, '.');
  }

  /** Prices with more than two decimals are not padded at all. */
  lemma PadPriceLongFraction(euros: string, cents: string)
    requires '.' !in euros && '.' !in cents && |cents| > 2
    ensures PadPrice(euros + "." + cents) == euros + "." + cents
  {
    var pieces := [euros, cents];
    assert Join(pieces, '.') == euros + "." + cents by {
      assert pieces[1..] == [cents];
    }
    SplitJoin(pieces, '.');
  }
}
