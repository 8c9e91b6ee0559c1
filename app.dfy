/** The game itself: the board size in cells, setting up a round, and the
    four direction keys. */
module Game {
  import opened Geometry
  import Heading
  import opened Snake

  /** The default canvas size and cell size in pixels. */
  const DefaultWidth := 1200
  const DefaultHeight := 1000
  const DefaultSize := 20

  /** The snake's bounds: every snake is built with the default board, so
      these are its column and row bounds whatever the canvas size. */
  function DefaultMaxCols(): (c: int)
    ensures c == 60
  {
    FloorDiv(DefaultWidth, DefaultSize)
  }

  function DefaultMaxRows(): (r: int)
    ensures r == 50
  {
    FloorDiv(DefaultHeight, DefaultSize)
  }

  /** The snake may enter row `DefaultMaxRows()` whatever the canvas size;
      on a canvas of at most that many whole rows, a cell on that row reaches
      past the bottom edge of the canvas. */
  lemma LastRowBelowCanvas(height: int, size: int)
    requires size > 0 && FloorDiv(height, size) <= DefaultMaxRows()
    ensures InBox((DefaultMaxRows(), 0), DefaultMaxRows(), DefaultMaxCols())
    ensures Corners((DefaultMaxRows(), 0), size)[3] > height
  {
  }

  /** The first tick of a round on the default board: the snake starts at
      (25, 30) heading right and, unless the food is just ahead, moves to
      (25, 31) with its segments on (25, 30) and (25, 29) and score 2. */
  lemma FirstTick(food: Pos)
    requires food != (25, 31)
    ensures var start := InitialState((FloorDiv(DefaultMaxRows(), 2), FloorDiv(DefaultMaxCols(), 2)));
            start.head == (25, 30) &&
            Advance(start, food, DefaultMaxRows(), DefaultMaxCols())
              == Alive(State((25, 31), (0, 1), [(25, 30), (25, 29)], 2))
  {
  }

  class App {
    var screenWidth: int
    var screenHeight: int
    var running: bool
    var paused: bool
    var cellsize: int
    var maxcols: int
    var maxrows: int
    var cellids: seq<Pos>
    var midcol: int
    var midrow: int
    var snek: Snek?

    /** The board size in whole cells: the canvas size floor-divided by the
        cell size, which must not be zero. */
    constructor (width: int := DefaultWidth, height: int := DefaultHeight, size: int := DefaultSize)
      requires size != 0
      ensures screenWidth == width && screenHeight == height && cellsize == size
      ensures running && !paused && snek == null
      ensures maxcols == FloorDiv(width, size) && maxrows == FloorDiv(height, size)
    {
      screenWidth, screenHeight := width, height;
      running, paused := true, false;
      cellsize := size;
      maxcols := FloorDiv(width, size);
      maxrows := FloorDiv(height, size);
      snek := null;
    }

    /** Sets up a round: records the ids of all cells of the board and puts a
        new snake in the middle of it, with `food` and `foodColor` as the
        random food draw. The snake's bounds are the default ones, not this
        game's. */
    method InitBoard(food: Pos, foodColor: Color)
      requires 1 <= food.0 <= DefaultMaxRows() - 1 && 1 <= food.1 <= DefaultMaxCols() - 1
      requires foodColor != Green
      modifies this`cellids, this`midcol, this`midrow, this`snek
      ensures forall p :: p in cellids <==> InBox(p, maxrows, maxcols)
      ensures midcol == FloorDiv(maxcols, 2) && midrow == FloorDiv(maxrows, 2)
      ensures snek != null && fresh(snek) && snek.Valid()
      ensures snek.Model() == InitialState((midrow, midcol))
      ensures snek.food == food && snek.foodColor == foodColor
      ensures snek.maxrows == DefaultMaxRows() && snek.maxcols == DefaultMaxCols()
    {
      cellids := CellIds(maxrows, maxcols);
      midcol, midrow := FloorDiv(maxcols, 2), FloorDiv(maxrows, 2);
      snek := new Snek((midrow, midcol), food, foodColor, DefaultMaxRows(), DefaultMaxCols());
    }

    /** The up key: ignored while heading down. */
    method Up()
      requires snek != null && snek.Valid()
      modifies snek`ori
      ensures snek.Valid()
      ensures snek.ori == Heading.Turn(old(snek.ori), Heading.Up)
    {
      if snek.ori != (1, 0) {
        snek.ori := (-1, 0);
      }
    }

    /** The left key: ignored while heading right. */
    method Left()
      requires snek != null && snek.Valid()
      modifies snek`ori
      ensures snek.Valid()
      ensures snek.ori == Heading.Turn(old(snek.ori), Heading.Left)
    {
      if snek.ori != (0, 1) {
        snek.ori := (0, -1);
      }
    }

    /** The down key: ignored while heading up. */
    method Down()
      requires snek != null && snek.Valid()
      modifies snek`ori
      ensures snek.Valid()
      ensures snek.ori == Heading.Turn(old(snek.ori), Heading.Down)
    {
      if snek.ori != (-1, 0) {
        snek.ori := (1, 0);
      }
    }

    /** The right key: ignored while heading left. */
    method Right()
      requires snek != null && snek.Valid()
      modifies snek`ori
      ensures snek.Valid()
      ensures snek.ori == Heading.Turn(old(snek.ori), Heading.Right)
    {
      if snek.ori != (0, -1) {
        snek.ori := (0, 1);
      }
    }
  }
}
