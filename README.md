# Snek: a verified model of the game's grid simulation

Snek is a small Snake game for a desktop canvas. Beneath its drawing calls
sits a deterministic grid simulation, and this project models it in Dafny:

- **Geometry** (`geometry.dfy`): grid coordinates, Python's floor division
  as used to size the board, the board's cell ids, and the pixel rectangle
  (`corn`) of a `Cell`, with `Cell` as a class whose constructor and
  `Update` recompute the rectangle from the position.
- **Heading** (`heading.dfy`): the four direction keys and the guard that
  stops a key from reversing the current heading.
- **Snake** (`snake.dfy`): the snake's state and one tick of the game.
  `Advance` is the reference definition of a tick. `ShiftTail` is the
  segment update exactly as the game writes it: a walk over
  `reversed(tailcoords)` that mutates the same list and finds each slot with
  `list.index`. The class `Snek` has the game's fields, and its `Update`
  method is proved to produce the state `Advance` describes.
- **Game** (`app.dfy`): the `App` class, which derives the board size in
  cells, sets up a round, and handles the four direction keys.

Points where the model follows the code:

- The legal square for the head is `[0, maxrows] × [0, maxcols]` of the
  snake's own bounds, both ends included. Those bounds are always the default
  ones (next point), so the square is always `[0, 50] × [0, 60]`. The cell
  ids built in `init_board` use the game's own board size instead, so the two
  squares agree only on the default board. On a canvas of at most 50 whole
  rows, a cell on row 50, which the snake may enter, reaches past the bottom
  of the canvas (`LastRowBelowCanvas`).
- `Snek` and `Cell` call `App.__init__()` with no arguments, so a snake's
  bounds always come from the defaults: 1200 × 1000 pixels at 20 pixels per
  cell, which gives 60 columns and 50 rows. This holds whatever size the game
  was started with. The model makes the bounds constructor parameters of
  `Snek`, and `App.InitBoard` passes the default ones, as the game does.
- A key takes effect when it is pressed, not at the next tick. The guard
  compares against the heading at that moment, so two presses within one
  tick can reverse the snake (`TwoPressesReverse`). Nothing holds a key
  back until the next tick, and the model adds no such buffer.
- The self-collision test uses the segment cells as they were before the
  move. Moving into the cell the last segment is about to leave therefore
  ends the round (`ChasingTailEnds`).
- The food cell is fixed when the snake is created. It is never moved, even
  after it is eaten (`food` is a `const` of `Snek`).
- The in-place walk over the segment list gives the clean shift
  `[oldHead] + tail[..|tail|-1]` in both situations where it runs. The first
  is a duplicate-free list, on an ordinary tick. The second is a list whose
  last entry was just appended a second time, on a tick where the snake
  eats. In that case each step of the walk finds the slot one before the
  one it read, and the result equals `[oldHead] + oldTail`.

## Model

| member | source | states |
|---|---|---|
| Geometry.FloorDiv | game.py:20-21 | `//` rounds towards minus infinity: for a positive divisor `q*b <= a < q*b+b`, for a negative one the mirror image |
| Geometry.FloorDivLocate | game.py:20-21 | for a positive divisor, `a // b == q` exactly when `a` lies in `[q*b, q*b+b)` |
| Geometry.CellIds | game.py:50-51 | a coordinate is a cell id exactly when it lies in the inclusive square `[0,maxrows] × [0,maxcols]` |
| Geometry.Corners | game.py:124-127 | a cell's rectangle has four entries, and its width and height both equal the cell size |
| Geometry.CornersLocate | game.py:124-127 | a pixel lies in the rectangle of cell `(row, col)` exactly when its coordinates floor-divided by the size give `(row, col)`, so the cells tile the canvas without overlap |
| Geometry.CornersInjective | game.py:124-127 | two different cells never get the same rectangle |
| Geometry.Cell.constructor | game.py:118-130 | a new cell holds its position, size and colour, and its rectangle is `[col*size, row*size, col*size+size, row*size+size]` |
| Geometry.Cell.Update | game.py:132-138 | after a move the position is the new one and the rectangle is recomputed from it and the unchanged size alone |
| Heading.Turn | game.py:80-94 | a key sets the heading to its unit vector unless the current heading is the exact opposite, in which case the heading stays; a unit heading stays unit and is never reversed by one press |
| Heading.TwoPressesReverse | game.py:80-94 | from any unit heading, two presses before the next tick reverse the snake, because the guard reads the current heading |
| Snake.IndexOf | game.py:175 | `list.index` gives a slot holding the value with no earlier slot holding it |
| Snake.ShiftTail | game.py:174-181 | the walk keeps the length, puts the old head first, and introduces no other value; on a duplicate-free list or a list whose last entry was just doubled it yields the list without its last entry, behind the old head |
| Snake.InitialState | game.py:149-156 | a new snake has its head at `loc`, heading `(0,+1)`, segments `[(r, c-1), (r, c-2)]` and score 2, and satisfies the invariant |
| Snake.AdvanceEnds | game.py:161-168 | a tick ends the round exactly when the next cell holds a segment, or its row or column is above the bound or below zero; the score reported is the segment count before the tick |
| Snake.ChasingTailEnds | game.py:163 | moving into the last segment's cell ends the round, although that cell would be free after the shift |
| Snake.Follow | game.py:169-183 | a tick without food moves the head one cell along the heading; each segment takes its forward neighbour's old cell and the first takes the old head cell; the old last cell is vacated; length and score stay the same |
| Snake.Grow | game.py:170-181 | a tick onto the food adds exactly one segment, keeps the old segments in order behind the old head cell, and raises the score by one to the new length |
| Snake.AdvanceKeepsInv | game.py:160-183 | after every tick the snake survives, the heading is a unit vector, the score equals the segment count, no segment repeats, the head is inside the legal square and on no segment, and head and segments form a path of neighbouring cells |
| Snake.Snek.constructor | game.py:145-156 | a new snake is in the initial state at `loc`, satisfies the invariant, and keeps the given food cell and bounds |
| Snake.Snek.Update | game.py:160-183 | one tick leaves every field unchanged and reports GameOver with the score when `Advance` says the round ends; otherwise it reports nothing, the new state is the one `Advance` gives, and the invariant holds again |
| Game.DefaultMaxCols | game.py:20 | the default board has 60 columns |
| Game.DefaultMaxRows | game.py:21 | the default board has 50 rows |
| Game.LastRowBelowCanvas | game.py:165 | row 50, the snake's default row bound, lies in its legal square, and on a canvas of at most 50 whole rows a cell on that row reaches below the bottom edge |
| Game.FirstTick | game.py:54-55 | on the default board a new round's snake starts at (25, 30) and its first tick, away from the food, puts the head on (25, 31) and the segments on (25, 30) and (25, 29) with score 2 |
| Game.App.constructor | game.py:14-21 | the board has `width // size` columns and `height // size` rows, with 1200, 1000 and 20 as the default arguments, and the game starts running and not paused |
| Game.App.InitBoard | game.py:45-55 | the cell ids cover exactly the legal square, and a new snake sits at `(maxrows // 2, maxcols // 2)` with the default bounds, whatever this game's board size |
| Game.App.Up | game.py:80-82 | the up key turns the snake to `(-1, 0)` unless it heads down |
| Game.App.Left | game.py:84-86 | the left key turns the snake to `(0, -1)` unless it heads right |
| Game.App.Down | game.py:88-90 | the down key turns the snake to `(+1, 0)` unless it heads up |
| Game.App.Right | game.py:92-94 | the right key turns the snake to `(0, +1)` unless it heads left |

## Left out

- Drawing on the canvas is left out, because it consists of calls into the
  GUI toolkit. This covers creating, moving and deleting rectangles, the
  rectangle handle `cid`, the game-over text, key bindings and closing the
  window. A cell's rectangle is modelled as the list `corn`.
- The real-time main loop is left out because it is timing and event
  handling. This covers the `sleep`, the busy wait on `_gameover`, the
  `restart` and `close` handlers, `kill_snek`, and the call from
  `init_board` into the loop. In the source, `_gameover` is never set before
  the first game over.
- The random food cell and colour are parameters of the `Snek` constructor
  instead of `randint` and `choice` draws. They are restricted to the ranges
  those draws produce.
- The snake's `Cell` objects are not modelled: the head cell, the food cell
  and the list `tail` that shadows `tailcoords`. The model keeps the
  coordinates only. The list `tail` grows together with `tailcoords`, so
  `len(self.tail)` equals `len(self.tailcoords)`, and the score is modelled
  as the latter.
- Command-line parsing in `main` is left out because it is I/O.
- Snake.Snek.Update: the game raises `GameOver(str(score))`. The model
  reports the score as an integer and does not format it as text.
- Game.App.constructor: a cell size of zero makes the source raise
  `ZeroDivisionError`. The model requires a non-zero size instead.
- Snake.IndexOf: `list.index` raises `ValueError` for a missing value. The
  model requires the value to be present, which holds at its only use,
  since the walk looks up a value it has just read from the list.
- Snake.ShiftTail: its result is given exactly only for the two list shapes
  a snake can have at that point. For any other list the contract states
  only the length, the first entry, and that no new value appears.
