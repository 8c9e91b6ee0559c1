/** Grid geometry of the Snek board: grid coordinates, the board's size in
    cells, the set of cell ids, and the pixel rectangle a cell is drawn in.
 */
module Geometry {

  /** A grid coordinate (row, column). */
  type Pos = (int, int)

  /** Python's floor division `a // b`, which rounds towards minus infinity
      (Dafny's `/` is Euclidean, which differs when the divisor is negative). */
  function FloorDiv(a: int, b: int): (q: int)
    requires b != 0
    ensures b > 0 ==> q * b <= a < q * b + b
    ensures b < 0 ==> q * b >= a > q * b + b
  {
    if b > 0 then a / b else (-a) / (-b)
  }

  /** For a positive divisor, `q` is the floor quotient of `a` exactly when
      `a` lies in the half-open interval `[q*b, q*b + b)`. */
  lemma FloorDivLocate(a: int, b: int, q: int)
    requires b > 0
    ensures (q * b <= a < q * b + b) <==> FloorDiv(a, b) == q
  {
    var r := FloorDiv(a, b);
    if q * b <= a < q * b + b && q != r {
      if q < r {
        assert (r - q) * b >= b by { MulMonotone(r - q, 1, b); }
      } else {
        assert (q - r) * b >= b by { MulMonotone(q - r, 1, b); }
      }
    }
  }

  lemma MulMonotone(x: int, y: int, b: int)
    requires x >= y && b > 0
    ensures x * b >= y * b
  {
  }

  /** The legal square of the board: rows `0..maxrows` and columns
      `0..maxcols`, both ends included. */
  predicate InBox(p: Pos, maxrows: int, maxcols: int)
  {
    0 <= p.0 <= maxrows && 0 <= p.1 <= maxcols
  }

  /** Ids `(i, n)` for `n` from `from` up to `maxcols`, in order. */
  function RowIds(i: int, from: int, maxcols: int): seq<Pos>
    decreases maxcols + 1 - from
  {
    if from > maxcols then [] else [(i, from)] + RowIds(i, from + 1, maxcols)
  }

  /** The rows of ids from row `from` up to `maxrows`, row by row. */
  function RowsFrom(from: int, maxrows: int, maxcols: int): seq<Pos>
    decreases maxrows + 1 - from
  {
    if from > maxrows then [] else RowIds(from, 0, maxcols) + RowsFrom(from + 1, maxrows, maxcols)
  }

  /** The board's cell ids `[(i, n) for i in range(maxrows+1) for n in range(maxcols+1)]`. */
  function CellIds(maxrows: int, maxcols: int): (ids: seq<Pos>)
    ensures forall p :: p in ids <==> InBox(p, maxrows, maxcols)
  {
    CellIdsMembership(maxrows, maxcols);
    RowsFrom(0, maxrows, maxcols)
  }

  lemma {:induction false} RowIdsMembership(i: int, from: int, maxcols: int)
    ensures forall p :: p in RowIds(i, from, maxcols) <==> p.0 == i && from <= p.1 <= maxcols
    decreases maxcols + 1 - from
  {
    if from <= maxcols {
      RowIdsMembership(i, from + 1, maxcols);
    }
  }

  lemma {:induction false} RowsFromMembership(from: int, maxrows: int, maxcols: int)
    ensures forall p :: p in RowsFrom(from, maxrows, maxcols) <==> from <= p.0 <= maxrows && 0 <= p.1 <= maxcols
    decreases maxrows + 1 - from
  {
    if from <= maxrows {
      RowIdsMembership(from, 0, maxcols);
      RowsFromMembership(from + 1, maxrows, maxcols);
    }
  }

  /** Every cell id is in the legal square and every cell of the square has an id. */
  lemma CellIdsMembership(maxrows: int, maxcols: int)
    ensures forall p :: p in RowsFrom(0, maxrows, maxcols) <==> InBox(p, maxrows, maxcols)
  {
    RowsFromMembership(0, maxrows, maxcols);
  }

  /** The rectangle `[x0, y0, x1, y1]` in pixels of the cell at `p` with
      side `size`: columns run along x and rows along y. */
  function Corners(p: Pos, size: int): (c: seq<int>)
    ensures |c| == 4
    ensures c[2] - c[0] == size && c[3] - c[1] == size
  {
    var x, y := p.1 * size, p.0 * size;
    [x, y, x + size, y + size]
  }

  /** For a positive cell size, a pixel lies in the rectangle of cell `p`
      exactly when floor-dividing its coordinates by the size gives `p`:
      the rectangles tile the plane without overlap. */
  lemma CornersLocate(p: Pos, size: int, px: int, py: int)
    requires size > 0
    ensures var c := Corners(p, size);
            (c[0] <= px < c[2] && c[1] <= py < c[3]) <==> (FloorDiv(py, size), FloorDiv(px, size)) == p
  {
    FloorDivLocate(px, size, p.1);
    FloorDivLocate(py, size, p.0);
  }

  /** Two different cells never get the same rectangle. */
  lemma CornersInjective(p: Pos, q: Pos, size: int)
    requires size > 0
    requires Corners(p, size) == Corners(q, size)
    ensures p == q
  {
  }

  /** The colours a cell is filled with. */
  datatype Color = Green | Red | White | Blue | Yellow | Cyan

  /** A cell of the board: its grid position, its size and the rectangle it
      is drawn in. */
  class Cell {
    var row: int
    var col: int
    const width: int
    const height: int
    const color: Color
    var x: int
    var y: int
    var corn: seq<int>

    /** The pixel data always follow from the position and the size. */
    ghost predicate Valid()
      reads this
    {
      width == height &&
      x == col * width && y == row * height &&
      corn == Corners((row, col), width)
    }

    constructor (loc: Pos, size: int, color: Color)
      ensures Valid()
      ensures (row, col) == loc && width == size && this.color == color
      ensures corn == Corners(loc, size)
    {
      this.color := color;
      width, height := size, size;
      row, col := loc.0, loc.1;
      var x0, y0 := loc.1 * size, loc.0 * size;
      x, y := x0, y0;
      corn := [x0, y0, x0 + size, y0 + size];
    }

    /** Moves the cell: the rectangle is recomputed from the new position and
        the unchanged size alone. */
    method Update(newcords: Pos)
      requires Valid()
      modifies this
      ensures Valid()
      ensures (row, col) == newcords && corn == Corners(newcords, width)
    {
      row, col := newcords.0, newcords.1;
      x := col * width;
      y := row * height;
      corn := [x, y, x + width, y + height];
    }
  }
}
