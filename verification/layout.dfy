/** Placement of the i-th stamp on a multi-page label sheet (the
    page/column/row arithmetic in `buy`). */
module Layout {

  /** A paper format's label grid: labels per row (`labelX`) and rows per
      page (`labelY`). */
  datatype Grid = Grid(columns: nat, rows: nat)

  /** Where one stamp goes; all three coordinates are 1-based. */
  datatype Placement = Placement(page: nat, column: nat, row: nat)

  /** A grid stamps can be placed on; any other one makes `buy` divide by zero. */
  predicate ValidGrid(g: Grid)
  {
    g.columns >= 1 && g.rows >= 1
  }

  /** A placement that lies on some page of the grid. */
  predicate OnSheet(p: Placement, g: Grid)
  {
    p.page >= 1 && 1 <= p.column <= g.columns && 1 <= p.row <= g.rows
  }

  /** The sequential number of a placement: stamps fill a row left to
      right, rows top to bottom, then the next page. */
  function Index(p: Placement, g: Grid): int
  {
    (p.page - 1) * (g.columns * g.rows) + (p.row - 1) * g.columns + (p.column - 1)
  }

  lemma MulPos(k: int, d: int)
    requires d > 0
    ensures k >= 1 ==> k * d >= d
    ensures k <= -1 ==> k * d <= -d
  {
  }

  lemma Distrib(a: int, b: int, c: int)
    ensures (a + b) * c == a * c + b * c
  {
  }

  lemma Assoc(a: int, b: int, c: int)
    ensures a * (b * c) == (a * b) * c && a * b == b * a
  {
  }

  lemma MulLe(a: int, b: int, c: int)
    requires 0 <= a <= b && c >= 0
    ensures a * c <= b * c
  {
  }

  /** Division with remainder is unique. */
  lemma DivModUnique(i: int, d: int, q: int, m: int)
    requires d > 0 && 0 <= m < d && i == q * d + m
    ensures i / d == q && i % d == m
  {
    var q', m' := i / d, i % d;
    assert i == q' * d + m';
    assert (q - q') * d == m' - m;
    MulPos(q - q', d);
  }

  /** Dividing by the page size is dividing by the row length, then by the
      rows per page. */
  lemma DivDiv(i: nat, c: nat, r: nat)
    requires c >= 1 && r >= 1
    ensures i / (c * r) == (i / c) / r
  {
    var q, m := i / c, i % c;
    var q2, m2 := q / r, q % r;
    assert i == q * c + m;
    assert q == q2 * r + m2;
    Distrib(q2 * r, m2, c);
    Assoc(q2, r, c);
    Assoc(q2, c, r);
    assert i == q2 * (c * r) + (m2 * c + m);
    MulLe(m2, r - 1, c);
    Distrib(r, -1, c);
    Assoc(c, r, 1);
    DivModUnique(i, c * r, q2, m2 * c + m);
  }

  /** The placement of the stamp with 0-based sequential number `i`. */
  function Place(i: nat, g: Grid): (p: Placement)
    requires ValidGrid(g)
    ensures OnSheet(p, g)
    ensures i == 0 ==> p == Placement(1, 1, 1)
  {
    var c, r := g.columns, g.rows;
    PlaceBounds(i, c, r);
    Placement(i / (c * r) + 1, i % c + 1, (i / c) % r + 1)
  }

  /** The three quotients and remainders `buy` computes stay in range. */
  lemma PlaceBounds(i: nat, c: nat, r: nat)
    requires c >= 1 && r >= 1
    ensures c * r >= 1 && i / (c * r) >= 0
    ensures 0 <= i % c < c && 0 <= (i / c) % r < r
    ensures i == 0 ==> i / (c * r) == 0 && i % c == 0 && (i / c) % r == 0
  {
    MulPos(c, r);
    DivModRange(i, c * r);
    DivModRange(i, c);
    DivModRange(i / c, r);
  }

  lemma DivModRange(a: nat, d: int)
    requires d >= 1
    ensures 0 <= a / d && 0 <= a % d < d
    ensures a == 0 ==> a / d == 0 && a % d == 0
  {
  }

  /** The stamp's number is recovered from its placement. */
  lemma PlaceIndexOf(i: nat, g: Grid)
    requires ValidGrid(g)
    ensures Index(Place(i, g), g) == i
  {
    DivDiv(i, g.columns, g.rows);
    PlaceIndex(i, g.columns, g.rows);
  }

  lemma PlaceIndex(i: nat, c: nat, r: nat)
    requires c >= 1 && r >= 1
    ensures (i / c) / r * (c * r) + (i / c) % r * c + i % c == i
  {
    var q := i / c;
    assert i == q * c + i % c;
    assert q == q / r * r + q % r;
    Distrib(q / r * r, q % r, c);
    Assoc(q / r, r, c);
    Assoc(q / r, c, r);
  }

  /** Every spot on the sheet is taken by exactly the stamp whose number
      `Index` gives: `Place` and `Index` are inverse to each other. */
  lemma PlaceOfIndex(p: Placement, g: Grid)
    requires ValidGrid(g) && OnSheet(p, g)
    ensures Index(p, g) >= 0
    ensures Place(Index(p, g), g) == p
  {
    var c, r := g.columns, g.rows;
    var q := (p.page - 1) * r + (p.row - 1);
    MulLe(0, p.page - 1, r);
    var i := Index(p, g);
    Distrib((p.page - 1) * r, p.row - 1, c);
    Assoc(p.page - 1, r, c);
    Assoc(p.page - 1, c, r);
    assert i == q * c + (p.column - 1);
    MulLe(0, q, c);
    DivModUnique(i, c, q, p.column - 1);
    DivModUnique(q, r, p.page - 1, p.row - 1);
    DivDiv(i, c, r);
  }

  /** Different stamps never share a spot. */
  lemma PlaceInjective(i: nat, j: nat, g: Grid)
    requires ValidGrid(g) && Place(i, g) == Place(j, g)
    ensures i == j
  {
    PlaceIndexOf(i, g);
    PlaceIndexOf(j, g);
  }

  /** The next stamp goes one column to the right, or to the start of the
      next row, or to the top-left corner of the next page. */
  lemma PlaceNext(i: nat, g: Grid)
    requires ValidGrid(g)
    ensures var p, n := Place(i, g), Place(i + 1, g);
      if p.column < g.columns then n == Placement(p.page, p.column + 1, p.row)
      else if p.row < g.rows then n == Placement(p.page, 1, p.row + 1)
      else n == Placement(p.page + 1, 1, 1)
  {
    var p := Place(i, g);
    PlaceIndexOf(i, g);
    var n := if p.column < g.columns then Placement(p.page, p.column + 1, p.row)
      else if p.row < g.rows then Placement(p.page, 1, p.row + 1)
      else Placement(p.page + 1, 1, 1);
    assert OnSheet(n, g);
    assert Index(n, g) == i + 1 by {
      var c, r := g.columns, g.rows;
      if p.column < c {
      } else if p.row < r {
        Distrib(p.row - 1, 1, c);
      } else {
        Distrib(p.page - 1, 1, c * r);
        Distrib(r, -1, c);
        Assoc(c, r, 1);
      }
    }
    PlaceOfIndex(n, g);
  }

  /** The three placements worked out for a 2-by-3 grid. */
  lemma PlaceExamples()
    ensures Place(0, Grid(2, 3)) == Placement(1, 1, 1)
    ensures Place(5, Grid(2, 3)) == Placement(1, 2, 3)
    ensures Place(6, Grid(2, 3)) == Placement(2, 1, 1)
  {
  }
}
