// Counting the cells of a grid that hold a given state: the quantity the
// source's disc_count array keeps incrementally.

module Tally {
  import opened Geometry
  import opened Rules

  /** Cells among r[0..j] equal to v. */
  function CountRow(r: seq<int>, v: int, j: nat): nat
    requires j <= |r|
  {
    if j == 0 then 0 else CountRow(r, v, j - 1) + (if r[j - 1] == v then 1 else 0)
  }

  /** Cells equal to v in the first i rows. */
  function CountRows(g: Grid, v: int, i: nat): nat
    requires IsGrid(g) && i <= SIZE
  {
    if i == 0 then 0 else CountRows(g, v, i - 1) + CountRow(g[i - 1], v, SIZE)
  }

  /** Cells of the whole grid equal to v. */
  function CountIn(g: Grid, v: int): nat
    requires IsGrid(g)
  {
    CountRows(g, v, SIZE)
  }

  /** The counts of the three cell states agree with `counts`, indexed by state. */
  ghost predicate CountsAgree(g: Grid, counts: seq<int>)
    requires IsGrid(g)
  {
    |counts| == 3 && forall v :: EMPTY <= v <= WHITE ==> counts[v] == CountIn(g, v)
  }

  lemma {:induction false} CountRowUpdate(r: seq<int>, y: int, w: int, v: int, j: nat)
    requires j <= |r| && 0 <= y < |r|
    ensures CountRow(r[y := w], v, j) == CountRow(r, v, j) +
      (if y < j then (if w == v then 1 else 0) - (if r[y] == v then 1 else 0) else 0)
  {
    if j > 0 {
      CountRowUpdate(r, y, w, v, j - 1);
    }
  }

  lemma {:induction false} CountRowsUpdate(g: Grid, q: Point, w: int, v: int, i: nat)
    requires IsGrid(g) && OnBoard(q) && i <= SIZE
    ensures CountRows(Set(g, q, w), v, i) == CountRows(g, v, i) +
      (if q.x < i then (if w == v then 1 else 0) - (if Get(g, q) == v then 1 else 0) else 0)
  {
    if i > 0 {
      CountRowsUpdate(g, q, w, v, i - 1);
      if i - 1 == q.x {
        assert Set(g, q, w)[i - 1] == g[q.x][q.y := w];
        CountRowUpdate(g[q.x], q.y, w, v, SIZE);
      } else {
        assert Set(g, q, w)[i - 1] == g[i - 1];
      }
    }
  }

  /** Writing one cell moves it from the count of its old state to that of its new one. */
  lemma CountAfterSet(g: Grid, q: Point, w: int, v: int)
    requires IsGrid(g) && OnBoard(q)
    ensures CountIn(Set(g, q, w), v) ==
      CountIn(g, v) + (if w == v then 1 else 0) - (if Get(g, q) == v then 1 else 0)
  {
    CountRowsUpdate(g, q, w, v, SIZE);
  }

  lemma {:induction false} CountRowTotal(r: seq<int>, j: nat)
    requires j <= |r|
    requires forall y :: 0 <= y < |r| ==> EMPTY <= r[y] <= WHITE
    ensures CountRow(r, EMPTY, j) + CountRow(r, BLACK, j) + CountRow(r, WHITE, j) == j
  {
    if j > 0 {
      CountRowTotal(r, j - 1);
    }
  }

  lemma {:induction false} CountRowsTotal(g: Grid, i: nat)
    requires ValidGrid(g) && i <= SIZE
    ensures CountRows(g, EMPTY, i) + CountRows(g, BLACK, i) + CountRows(g, WHITE, i) == SIZE * i
  {
    if i > 0 {
      CountRowsTotal(g, i - 1);
      var row := g[i - 1];
      forall y | 0 <= y < SIZE
        ensures EMPTY <= row[y] <= WHITE
      {
        assert Get(g, Point(i - 1, y)) == row[y];
      }
      CountRowTotal(row, SIZE);
    }
  }

  /** On a well-formed grid the three counts add up to the 64 cells. */
  lemma CountsTotal(g: Grid)
    requires ValidGrid(g)
    ensures CountIn(g, EMPTY) + CountIn(g, BLACK) + CountIn(g, WHITE) == SIZE * SIZE
  {
    CountRowsTotal(g, SIZE);
  }

  lemma {:induction false} CountRowConstant(r: seq<int>, w: int, v: int, j: nat)
    requires j <= |r| && forall y :: 0 <= y < |r| ==> r[y] == w
    ensures CountRow(r, v, j) == if v == w then j else 0
  {
    if j > 0 {
      CountRowConstant(r, w, v, j - 1);
    }
  }

  lemma {:induction false} CountRowsEmpty(v: int, i: nat)
    requires i <= SIZE
    ensures CountRows(EmptyGrid(), v, i) == if v == EMPTY then SIZE * i else 0
  {
    if i > 0 {
      CountRowsEmpty(v, i - 1);
      CountRowConstant(EmptyGrid()[i - 1], EMPTY, v, SIZE);
    }
  }

  /** The opening holds 60 empty cells and two discs of each colour. */
  lemma OpeningCounts()
    ensures IsGrid(Opening())
    ensures CountsAgree(Opening(), [SIZE * SIZE - 4, 2, 2])
  {
    var g0 := EmptyGrid();
    var g1 := Set(g0, Point(3, 4), BLACK);
    var g2 := Set(g1, Point(4, 3), BLACK);
    var g3 := Set(g2, Point(3, 3), WHITE);
    forall v | EMPTY <= v <= WHITE
      ensures CountIn(Opening(), v) == [SIZE * SIZE - 4, 2, 2][v]
    {
      CountRowsEmpty(v, SIZE);
      CountAfterSet(g0, Point(3, 4), BLACK, v);
      CountAfterSet(g1, Point(4, 3), BLACK, v);
      CountAfterSet(g2, Point(3, 3), WHITE, v);
      CountAfterSet(g3, Point(4, 4), WHITE, v);
    }
  }
}
