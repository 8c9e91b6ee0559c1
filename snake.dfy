/** The snake: its head, heading and segment list, and one tick of the game
    (move, collide, eat, follow). */
module Snake {
  import opened Geometry
  import opened Heading

  /** No coordinate occurs twice. */
  predicate Distinct(s: seq<Pos>)
  {
    forall i, j :: 0 <= i < j < |s| ==> s[i] != s[j]
  }

  /** The shape of the segment list right after the snake eats: a
      duplicate-free list whose last entry has been appended once more. */
  predicate Grown(s: seq<Pos>)
  {
    |s| >= 2 && Distinct(s[..|s| - 1]) && s[|s| - 1] == s[|s| - 2]
  }

  /** `s.index(x)`: the position of the first occurrence of `x` in `s`. */
  function IndexOf(s: seq<Pos>, x: Pos): (r: nat)
    requires x in s
    ensures r < |s| && s[r] == x
    ensures forall j :: 0 <= j < r ==> s[j] != x
  {
    if s[0] == x then 0 else 1 + IndexOf(s[1..], x)
  }

  /** The segment update of one tick, as the game writes it: walk the list
      from its last entry towards its first, look each value up again with
      `index` (which finds its first occurrence), and copy the forward
      neighbour's coordinate into that slot; the slot found at position 0
      takes the old head and ends the walk. Whether the list is duplicate-free
      (an ordinary tick) or has its last entry doubled (a tick where the snake
      ate), the walk yields the list shifted back by one behind the old head. */
  method ShiftTail(tail: seq<Pos>, head: Pos) returns (res: seq<Pos>)
    ensures |res| == |tail|
    ensures |tail| > 0 ==> res[0] == head
    ensures forall p :: p in res ==> p == head || p in tail
    ensures |tail| > 0 && (Distinct(tail) || Grown(tail)) ==> res == [head] + tail[..|tail| - 1]
  {
    res := tail;
    ghost var safe := |tail| > 0 && (Distinct(tail) || Grown(tail));
    // In a grown list each step writes one slot in front of the slot it read.
    ghost var d := if Grown(tail) then 1 else 0;
    var k := |res| - 1;
    while k >= 0
      invariant -1 <= k < |res| == |tail|
      invariant k == -1 ==> |tail| == 0
      invariant forall p :: p in res ==> p == head || p in tail
      invariant safe ==> d <= k
      invariant safe ==> forall j :: 0 <= j <= k - d ==> res[j] == tail[j]
      invariant safe ==> forall j :: k - d < j < |tail| ==> res[j] == tail[j - 1]
      decreases k
    {
      var ind := IndexOf(res, res[k]);
      if safe {
        FirstOccurrence(res, tail, k, d);
      }
      if ind == 0 {
        res := res[0 := head];
        break;
      }
      res := res[ind := res[ind - 1]];
      k := k - 1;
    }
    if safe {
      forall j | 0 <= j < |res|
        ensures res[j] == ([head] + tail[..|tail| - 1])[j]
      {
      }
    }
  }

  /** One walk step of ShiftTail reads the value of slot `k - d` and finds it
      first at that slot. */
  lemma FirstOccurrence(res: seq<Pos>, tail: seq<Pos>, k: int, d: int)
    requires |res| == |tail| > 0 && (Distinct(tail) || Grown(tail))
    requires d == if Grown(tail) then 1 else 0
    requires d <= k < |tail|
    requires forall j :: 0 <= j <= k - d ==> res[j] == tail[j]
    requires forall j :: k - d < j < |tail| ==> res[j] == tail[j - 1]
    ensures IndexOf(res, res[k]) == k - d
  {
  }

  /** The state of a snake: head cell, heading, segment coordinates (front
      first) and score. */
  datatype State = State(head: Pos, ori: Pos, tail: seq<Pos>, score: int)

  /** The result of one tick: the snake lives on, or the round ends with the
      score it had before the tick. */
  datatype Tick = Alive(next: State) | Dead(score: int)

  /** What a step reports to its caller: nothing, or GameOver with the score. */
  datatype Outcome = Continue | GameOver(score: int)

  /** Two cells that share a side. */
  predicate Adjacent(p: Pos, q: Pos)
  {
    IsUnit((q.0 - p.0, q.1 - p.1))
  }

  /** The head and the segments form a path of neighbouring cells. */
  predicate Connected(s: State)
  {
    |s.tail| > 0 &&
    Adjacent(s.head, s.tail[0]) &&
    forall i :: 0 <= i < |s.tail| - 1 ==> Adjacent(s.tail[i], s.tail[i + 1])
  }

  /** What holds of a live snake between ticks: a unit heading, a score equal
      to the number of segments (at least two), no repeated segment, no
      segment under the head, and a body that is one connected path. */
  predicate Inv(s: State)
  {
    IsUnit(s.ori) && |s.tail| >= 2 && s.score == |s.tail| &&
    Distinct(s.tail) && s.head !in s.tail && Connected(s)
  }

  /** A new snake at `loc`: heading right, two segments to its left. */
  function InitialState(loc: Pos): (s: State)
    ensures Inv(s)
    ensures s.head == loc && s.ori == Delta(Right) && s.score == 2
    ensures s.tail == [(loc.0, loc.1 - 1), (loc.0, loc.1 - 2)]
  {
    var tail := [(loc.0, loc.1 - 1), (loc.0, loc.1 - 2)];
    State(loc, (0, 1), tail, |tail|)
  }

  /** The cell the head moves into on this tick. */
  function NextHead(s: State): Pos
  {
    (s.head.0 + s.ori.0, s.head.1 + s.ori.1)
  }

  /** The reference definition of one tick. The round ends when the next cell
      holds a segment or lies outside the legal square; otherwise the head
      moves there and every segment takes its forward neighbour's old cell,
      the first one the old head cell; on the food cell the snake keeps its
      last segment as well and the score becomes the new length. */
  function Advance(s: State, food: Pos, maxrows: int, maxcols: int): Tick
    requires |s.tail| > 0
  {
    var next := NextHead(s);
    if next in s.tail || !InBox(next, maxrows, maxcols) then Dead(s.score)
    else if next == food then Alive(State(next, s.ori, [s.head] + s.tail, |s.tail| + 1))
    else Alive(State(next, s.ori, [s.head] + s.tail[..|s.tail| - 1], s.score))
  }

  /** A tick ends the round exactly when the next cell holds a segment, or its
      row or column is above the bound or below zero; the state is then kept
      and the score reported is the score before the tick. */
  lemma AdvanceEnds(s: State, food: Pos, maxrows: int, maxcols: int)
    requires Inv(s)
    ensures var n := NextHead(s);
            Advance(s, food, maxrows, maxcols).Dead? <==>
              (n in s.tail || n.0 > maxrows || n.1 > maxcols || n.0 < 0 || n.1 < 0)
    ensures Advance(s, food, maxrows, maxcols).Dead? ==> Advance(s, food, maxrows, maxcols).score == |s.tail|
  {
  }

  /** Running into the cell the last segment is about to leave still ends the
      round: that cell is free once the segments follow, yet the test is made
      against the segment cells as they were before the move. */
  lemma ChasingTailEnds(s: State, food: Pos, maxrows: int, maxcols: int)
    requires Inv(s) && NextHead(s) == s.tail[|s.tail| - 1]
    ensures Advance(s, food, maxrows, maxcols) == Dead(s.score)
    ensures NextHead(s) !in [s.head] + s.tail[..|s.tail| - 1]
  {
  }

  /** An ordinary tick: the head moves one cell along the heading, every
      segment takes the cell of its forward neighbour (the first one the old
      head cell), and length and score stay the same. */
  lemma Follow(s: State, food: Pos, maxrows: int, maxcols: int)
    requires Inv(s)
    requires Advance(s, food, maxrows, maxcols).Alive? && NextHead(s) != food
    ensures var t := Advance(s, food, maxrows, maxcols).next;
            t.head == NextHead(s) && t.head != s.head && t.ori == s.ori &&
            |t.tail| == |s.tail| && t.score == s.score &&
            t.tail[0] == s.head &&
            (forall i :: 1 <= i < |t.tail| ==> t.tail[i] == s.tail[i - 1]) &&
            s.tail[|s.tail| - 1] !in t.tail
  {
  }

  /** A tick onto the food: the head moves there, the snake grows by exactly
      one segment at its front while every old segment stays in order behind
      it, and the score rises by one to the new length. */
  lemma Grow(s: State, food: Pos, maxrows: int, maxcols: int)
    requires Inv(s)
    requires Advance(s, food, maxrows, maxcols).Alive? && NextHead(s) == food
    ensures var t := Advance(s, food, maxrows, maxcols).next;
            t.head == food && |t.tail| == |s.tail| + 1 &&
            t.score == s.score + 1 && t.score == |t.tail| &&
            t.tail[0] == s.head && t.tail[1..] == s.tail
  {
  }

  /** Every tick the snake survives keeps the invariant, and leaves the head
      inside the legal square, clear of every segment. */
  lemma AdvanceKeepsInv(s: State, food: Pos, maxrows: int, maxcols: int)
    requires Inv(s)
    requires Advance(s, food, maxrows, maxcols).Alive?
    ensures var t := Advance(s, food, maxrows, maxcols).next;
            Inv(t) && InBox(t.head, maxrows, maxcols)
  {
  }

  /** A snake on the board. The food cell and the bounds are fixed when the
      snake is created; the bounds come from the game's default board size,
      whatever size the game was started with. */
  class Snek {
    var row: int
    var col: int
    var ori: Pos
    var tailcoords: seq<Pos>
    var score: int
    const food: Pos
    const foodColor: Color
    const maxrows: int
    const maxcols: int

    /** The snake's state as a value. */
    function Model(): State
      reads this
    {
      State((row, col), ori, tailcoords, score)
    }

    ghost predicate Valid()
      reads this
    {
      Inv(Model())
    }

    /** A new snake with its head at `loc`; `food` and `foodColor` stand for
        the random draws the game makes, `randint` over rows `1..maxrows-1`
        and columns `1..maxcols-1` and a choice among five colours. */
    constructor (loc: Pos, food: Pos, foodColor: Color, maxrows: int, maxcols: int)
      requires 1 <= food.0 <= maxrows - 1 && 1 <= food.1 <= maxcols - 1
      requires foodColor != Green
      ensures Valid() && Model() == InitialState(loc)
      ensures this.food == food && this.foodColor == foodColor
      ensures this.maxrows == maxrows && this.maxcols == maxcols
    {
      this.maxrows, this.maxcols := maxrows, maxcols;
      row, col := loc.0, loc.1;
      this.food, this.foodColor := food, foodColor;
      ori := (0, 1);
      var coords := [(loc.0, loc.1 - 1), (loc.0, loc.1 - 2)];
      tailcoords := coords;
      score := |coords|;
    }

    /** One tick. The three game-over tests come first and leave every field
        as it was; otherwise the head moves, the segment list grows by a copy
        of its last entry when the head reaches the food, and ShiftTail moves
        every segment up. The new state is the one Advance describes. */
    method Update() returns (outcome: Outcome)
      requires Valid()
      modifies this`row, this`col, this`tailcoords, this`score
      ensures Valid()
      ensures match Advance(old(Model()), food, maxrows, maxcols)
              case Dead(sc) => outcome == GameOver(sc) && Model() == old(Model())
              case Alive(next) => outcome == Continue && Model() == next
    {
      var (dr, dc) := ori;
      var nr, nc := row + dr, col + dc;
      if (nr, nc) in tailcoords {
        return GameOver(score);
      } else if nr > maxrows || nc > maxcols {
        return GameOver(score);
      } else if nr < 0 || nc < 0 {
        return GameOver(score);
      }
      ghost var s := Model();
      AdvanceKeepsInv(s, food, maxrows, maxcols);
      if (nr, nc) == food {
        tailcoords := tailcoords + [tailcoords[|tailcoords| - 1]];
        score := |tailcoords|;
        assert tailcoords[..|tailcoords| - 1] == s.tail;
      }
      tailcoords := ShiftTail(tailcoords, (row, col));
      row := row + dr;
      col := col + dc;
      outcome := Continue;
    }
  }
}
