// The move picker the program calls: the positional bonus table filled by
// initializebonus and test(), which returns the index of the first legal spot
// whose bonus is largest.

module Picker {
  import opened Geometry

  /** The smallest 32-bit int, the running maximum test() starts from. */
  const INT_MIN: int := -0x8000_0000

  /** The table initializebonus leaves in boardbonus: corners 120, the cells
      next to a corner -20 or -40, and so on. */
  function BonusTable(): (t: seq<seq<int>>)
    ensures |t| == SIZE && forall i :: 0 <= i < SIZE ==> |t[i]| == SIZE
  {
    [ [ 120, -20,  20,   5,   5,  20, -20, 120],
      [ -20, -40,  -5,  -5,  -5,  -5, -40, -20],
      [  20,  -5,  15,   3,   3,  15,  -5,  20],
      [   5,  -5,   3,   3,   3,   3,  -5,   5],
      [   5,  -5,   3,   3,   3,   3,  -5,   5],
      [  20,  -5,  15,   3,   3,  15,  -5,  20],
      [ -20, -40,  -5,  -5,  -5,  -5, -40, -20],
      [ 120, -20,  20,   5,   5,  20, -20, 120] ]
  }

  /** The bonus of an on-board cell. */
  function Bonus(p: Point): int
    requires OnBoard(p)
  {
    BonusTable()[p.x][p.y]
  }

  /** The table looks the same from every side: it is unchanged by
      transposition and by mirroring either axis. */
  lemma BonusSymmetric(i: int, j: int)
    requires 0 <= i < SIZE && 0 <= j < SIZE
    ensures BonusTable()[i][j] == BonusTable()[j][i]
    ensures BonusTable()[i][j] == BonusTable()[SIZE - 1 - i][j]
    ensures BonusTable()[i][j] == BonusTable()[i][SIZE - 1 - j]
  {
  }

  /** The corners, and only they, carry the largest bonus. */
  lemma CornersBest(p: Point, q: Point)
    requires OnBoard(p) && OnBoard(q) && IsCorner(p)
    ensures Bonus(q) <= Bonus(p)
    ensures Bonus(q) == Bonus(p) <==> IsCorner(q)
  {
  }

  predicate IsCorner(p: Point) {
    (p.x == 0 || p.x == SIZE - 1) && (p.y == 0 || p.y == SIZE - 1)
  }

  /** The first loop of initializebonus, over the in-range columns: every cell 3. */
  method FillBase(bonus: array2<int>)
    requires bonus.Length0 == SIZE && bonus.Length1 == SIZE
    modifies bonus
    ensures forall i, j :: 0 <= i < SIZE && 0 <= j < SIZE ==> bonus[i, j] == 3
  {
    for i := 0 to 8
      invariant forall a, b :: 0 <= a < i && 0 <= b < SIZE ==> bonus[a, b] == 3
    {
      for j := 0 to 8
        invariant forall a, b :: 0 <= a < i && 0 <= b < SIZE ==> bonus[a, b] == 3
        invariant forall b :: 0 <= b < j ==> bonus[i, b] == 3
      {
        bonus[i, j] := 3;
      }
    }
  }

  /** The cell pattern after the first five loops of initializebonus: -5 on
      rows and columns 1 and 6, 3 elsewhere. */
  function Lines(i: int, j: int): int {
    if i == 1 || i == 6 || j == 1 || j == 6 then -5 else 3
  }

  /** The four line loops of initializebonus: columns 1 and 6 and rows 1 and 6
      become -5. */
  method FillLines(bonus: array2<int>)
    requires bonus.Length0 == SIZE && bonus.Length1 == SIZE
    requires forall i, j :: 0 <= i < SIZE && 0 <= j < SIZE ==> bonus[i, j] == 3
    modifies bonus
    ensures forall i, j :: 0 <= i < SIZE && 0 <= j < SIZE ==> bonus[i, j] == Lines(i, j)
  {
    for i := 0 to 8
      invariant forall a, b :: 0 <= a < SIZE && 0 <= b < SIZE ==>
        bonus[a, b] == if b == 1 && a < i then -5 else 3
    {
      bonus[i, 1] := -5;
    }
    for i := 0 to 8
      invariant forall a, b :: 0 <= a < SIZE && 0 <= b < SIZE ==>
        bonus[a, b] == if b == 1 || (a == 1 && b < i) then -5 else 3
    {
      bonus[1, i] := -5;
    }
    for i := 0 to 8
      invariant forall a, b :: 0 <= a < SIZE && 0 <= b < SIZE ==>
        bonus[a, b] == if b == 1 || a == 1 || (b == 6 && a < i) then -5 else 3
    {
      bonus[i, 6] := -5;
    }
    for i := 0 to 8
      invariant forall a, b :: 0 <= a < SIZE && 0 <= b < SIZE ==>
        bonus[a, b] == if b == 1 || a == 1 || b == 6 || (a == 6 && b < i) then -5 else 3
    {
      bonus[6, i] := -5;
    }
  }

  /** k is a or its mirror image 7 - a. */
  predicate Mirror(k: int, a: int) {
    k == a || k == SIZE - 1 - a
  }

  /** One coordinate is on an edge (0 or 7) and the other is a or 7 - a. */
  predicate EdgeCell(i: int, j: int, a: int) {
    (Mirror(i, 0) && Mirror(j, a)) || (Mirror(j, 0) && Mirror(i, a))
  }

  /** The edge cells in columns or rows 3 and 4 become 5. */
  method FillFives(bonus: array2<int>)
    requires bonus.Length0 == SIZE && bonus.Length1 == SIZE
    modifies bonus
    ensures forall i, j :: 0 <= i < SIZE && 0 <= j < SIZE ==>
      bonus[i, j] == if EdgeCell(i, j, 3) then 5 else old(bonus[i, j])
  {
    bonus[0, 3] := 5;
    bonus[0, 4] := 5;
    bonus[3, 0] := 5;
    bonus[4, 0] := 5;
    bonus[7, 3] := 5;
    bonus[7, 4] := 5;
    bonus[3, 7] := 5;
    bonus[4, 7] := 5;
  }

  /** The four cells diagonally two steps in from a corner become 15. */
  method FillFifteens(bonus: array2<int>)
    requires bonus.Length0 == SIZE && bonus.Length1 == SIZE
    modifies bonus
    ensures forall i, j :: 0 <= i < SIZE && 0 <= j < SIZE ==>
      bonus[i, j] == if Mirror(i, 2) && Mirror(j, 2) then 15 else old(bonus[i, j])
  {
    bonus[2, 2] := 15;
    bonus[2, 5] := 15;
    bonus[5, 2] := 15;
    bonus[5, 5] := 15;
  }

  /** The four corners become 120. */
  method FillCorners(bonus: array2<int>)
    requires bonus.Length0 == SIZE && bonus.Length1 == SIZE
    modifies bonus
    ensures forall i, j :: 0 <= i < SIZE && 0 <= j < SIZE ==>
      bonus[i, j] == if Mirror(i, 0) && Mirror(j, 0) then 120 else old(bonus[i, j])
  {
    bonus[0, 0] := 120;
    bonus[0, 7] := 120;
    bonus[7, 0] := 120;
    bonus[7, 7] := 120;
  }

  /** The edge cells next to a corner become -20. */
  method FillCSquares(bonus: array2<int>)
    requires bonus.Length0 == SIZE && bonus.Length1 == SIZE
    modifies bonus
    ensures forall i, j :: 0 <= i < SIZE && 0 <= j < SIZE ==>
      bonus[i, j] == if EdgeCell(i, j, 1) then -20 else old(bonus[i, j])
  {
    bonus[1, 0] := -20;
    bonus[0, 1] := -20;
    bonus[6, 0] := -20;
    bonus[7, 1] := -20;
    bonus[0, 6] := -20;
    bonus[1, 7] := -20;
    bonus[6, 7] := -20;
    bonus[7, 6] := -20;
  }

  /** The edge cells two steps from a corner become 20. */
  method FillTwenties(bonus: array2<int>)
    requires bonus.Length0 == SIZE && bonus.Length1 == SIZE
    modifies bonus
    ensures forall i, j :: 0 <= i < SIZE && 0 <= j < SIZE ==>
      bonus[i, j] == if EdgeCell(i, j, 2) then 20 else old(bonus[i, j])
  {
    bonus[2, 0] := 20;
    bonus[0, 2] := 20;
    bonus[5, 0] := 20;
    bonus[7, 2] := 20;
    bonus[0, 5] := 20;
    bonus[2, 7] := 20;
    bonus[5, 7] := 20;
    bonus[7, 5] := 20;
  }

  /** The cells diagonally next to a corner become -40. */
  method FillXSquares(bonus: array2<int>)
    requires bonus.Length0 == SIZE && bonus.Length1 == SIZE
    modifies bonus
    ensures forall i, j :: 0 <= i < SIZE && 0 <= j < SIZE ==>
      bonus[i, j] == if Mirror(i, 1) && Mirror(j, 1) then -40 else old(bonus[i, j])
  {
    bonus[1, 1] := -40;
    bonus[6, 1] := -40;
    bonus[1, 6] := -40;
    bonus[6, 6] := -40;
  }

  /** The value initializebonus gives a cell: the single-cell writes over the
      line pattern. No two of the write blocks touch the same cell. */
  function Layout(i: int, j: int): int {
    if Mirror(i, 1) && Mirror(j, 1) then -40
    else if EdgeCell(i, j, 2) then 20
    else if EdgeCell(i, j, 1) then -20
    else if Mirror(i, 0) && Mirror(j, 0) then 120
    else if Mirror(i, 2) && Mirror(j, 2) then 15
    else if EdgeCell(i, j, 3) then 5
    else Lines(i, j)
  }

  /** The table is exactly what the loops and writes of initializebonus build. */
  lemma LayoutIsTable(i: int, j: int)
    requires 0 <= i < SIZE && 0 <= j < SIZE
    ensures Layout(i, j) == BonusTable()[i][j]
  {
  }

  /** initializebonus over columns 0..7: boardbonus ends up holding the table. */
  method InitializeBonus(bonus: array2<int>)
    requires bonus.Length0 == SIZE && bonus.Length1 == SIZE
    modifies bonus
    ensures forall i, j :: 0 <= i < SIZE && 0 <= j < SIZE ==> bonus[i, j] == BonusTable()[i][j]
  {
    FillBase(bonus);
    FillLines(bonus);
    FillFives(bonus);
    FillFifteens(bonus);
    FillCorners(bonus);
    FillCSquares(bonus);
    FillTwenties(bonus);
    FillXSquares(bonus);
    forall i, j | 0 <= i < SIZE && 0 <= j < SIZE
      ensures bonus[i, j] == BonusTable()[i][j]
    {
      LayoutIsTable(i, j);
    }
  }

  /** boardbonus at an on-board cell. */
  function BonusAt(bonus: array2<int>, p: Point): int
    requires bonus.Length0 == SIZE && bonus.Length1 == SIZE && OnBoard(p)
    reads bonus
  {
    bonus[p.x, p.y]
  }

  /** The source's test(): the index of the first spot whose bonus is largest,
      and 0 when there are no spots. */
  method Test(bonus: array2<int>, spots: seq<Point>) returns (answer: int)
    requires bonus.Length0 == SIZE && bonus.Length1 == SIZE
    requires forall i, j :: 0 <= i < SIZE && 0 <= j < SIZE ==> INT_MIN <= bonus[i, j]
    requires forall k :: 0 <= k < |spots| ==> OnBoard(spots[k])
    ensures |spots| == 0 ==> answer == 0
    ensures |spots| > 0 ==> 0 <= answer < |spots|
    ensures forall k :: 0 <= k < |spots| ==> BonusAt(bonus, spots[k]) <= BonusAt(bonus, spots[answer])
    ensures forall k :: 0 <= k < answer ==> BonusAt(bonus, spots[k]) < BonusAt(bonus, spots[answer])
  {
    var val := INT_MIN;
    answer := 0;
    for i := 0 to |spots|
      invariant i > 0 ==> 0 <= answer < i && val == BonusAt(bonus, spots[answer])
      invariant i == 0 ==> answer == 0 && val == INT_MIN
      invariant forall k :: 0 <= k < i ==> BonusAt(bonus, spots[k]) <= val
      invariant forall k :: 0 <= k < answer ==> BonusAt(bonus, spots[k]) < val
    {
      var value := bonus[spots[i].x, spots[i].y];
      if value > val {
        val := value;
        answer := i;
      }
    }
  }

  /** When boardbonus holds the table and a corner is among the legal spots,
      the spot test() settles on (largest bonus, earliest among equals) is the
      first corner in the list. */
  lemma {:induction false} PicksFirstCorner(spots: seq<Point>, answer: int)
    requires forall k :: 0 <= k < |spots| ==> OnBoard(spots[k])
    requires 0 <= answer < |spots|
    requires forall k :: 0 <= k < |spots| ==> Bonus(spots[k]) <= Bonus(spots[answer])
    requires forall k :: 0 <= k < answer ==> Bonus(spots[k]) < Bonus(spots[answer])
    requires exists k :: 0 <= k < |spots| && IsCorner(spots[k])
    ensures IsCorner(spots[answer])
    ensures forall k :: 0 <= k < answer ==> !IsCorner(spots[k])
  {
    var c :| 0 <= c < |spots| && IsCorner(spots[c]);
    CornersBest(spots[c], spots[answer]);
    forall k | 0 <= k < answer
      ensures !IsCorner(spots[k])
    {
      if IsCorner(spots[k]) {
        CornersBest(spots[k], spots[answer]);
      }
    }
  }
}
