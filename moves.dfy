// What a move does to the grid: the disc placed at the centre and the discs
// flip_discs turns over, direction after direction, and what that does to the
// counts of the three cell states.

module Moves {
  import opened Geometry
  import opened Rules
  import opened Tally

  /** The grid after the first n cells of the ray from c in direction d are
      turned to `player`, nearest first, as flip_discs sets its pending discs. */
  function FlipRun(g: Grid, c: Point, d: Point, player: int, n: nat): (h: Grid)
    requires IsGrid(g)
    ensures IsGrid(h)
    decreases n
  {
    if n == 0 then g else Set(FlipRun(g, c, d, player, n - 1), Ray(c, d, n), player)
  }

  /** flip_discs after its first t directions: each direction captures on the grid
      left by the ones before it. */
  function FlipDirs(g: Grid, c: Point, player: int, t: nat): (h: Grid)
    requires IsGrid(g) && OnBoard(c) && IsPlayer(player) && t <= 8
    ensures IsGrid(h)
  {
    if t == 0 then g
    else
      var h := FlipDirs(g, c, player, t - 1);
      FlipRun(h, c, Dir(t - 1), player, Captured(h, c, Dir(t - 1), player))
  }

  /** The grid after `player` puts a disc at c: set_disc followed by flip_discs. */
  function Place(g: Grid, c: Point, player: int): Grid
    requires IsGrid(g) && OnBoard(c) && IsPlayer(player)
  {
    FlipDirs(Set(g, c, player), c, player, 8)
  }

  /** Discs captured in the first t directions, each counted on the grid before the move. */
  function FlipCount(g: Grid, c: Point, player: int, t: nat): nat
    requires IsGrid(g) && OnBoard(c) && IsPlayer(player) && t <= 8
  {
    if t == 0 then 0 else FlipCount(g, c, player, t - 1) + Captured(g, c, Dir(t - 1), player)
  }

  /** Discs a move at c captures in all eight directions. */
  function Flips(g: Grid, c: Point, player: int): nat
    requires IsGrid(g) && OnBoard(c) && IsPlayer(player)
  {
    FlipCount(g, c, player, 8)
  }

  /** q is one of the first n cells of the ray from c in direction d. */
  predicate OnRun(c: Point, d: Point, n: nat, q: Point) {
    exists k :: 1 <= k <= n && q == Ray(c, d, k)
  }

  /** q lies on the captured run of one of the first t directions. */
  predicate FlankedBefore(g: Grid, c: Point, player: int, t: nat, q: Point)
    requires IsGrid(g) && OnBoard(c) && IsPlayer(player) && t <= 8
  {
    exists u {:trigger OnRun(c, Dir(u), Captured(g, c, Dir(u), player), q)} :: 0 <= u < t && OnRun(c, Dir(u), Captured(g, c, Dir(u), player), q)
  }

  /** q is one of the discs a move by `player` at c captures. */
  predicate Flanked(g: Grid, c: Point, player: int, q: Point)
    requires IsGrid(g) && OnBoard(c) && IsPlayer(player)
  {
    FlankedBefore(g, c, player, 8, q)
  }

  lemma {:induction false} FlipRunCells(g: Grid, c: Point, d: Point, player: int, n: nat, q: Point)
    requires IsGrid(g) && OnBoard(q)
    ensures Get(FlipRun(g, c, d, player, n), q) == if OnRun(c, d, n, q) then player else Get(g, q)
  {
    if n > 0 {
      FlipRunCells(g, c, d, player, n - 1, q);
    }
  }

  lemma {:induction false} RunFromLocal(g1: Grid, g2: Grid, c: Point, d: Point, player: int, k: nat)
    requires IsGrid(g1) && IsGrid(g2) && OnBoard(c) && IsDirection(d)
    requires forall j :: k <= j && OnBoard(Ray(c, d, j)) ==> Get(g1, Ray(c, d, j)) == Get(g2, Ray(c, d, j))
    ensures RunFrom(g1, c, d, player, k) == RunFrom(g2, c, d, player, k)
    decreases SIZE - k
  {
    if OnBoard(Ray(c, d, k)) {
      RayBound(c, d, k);
      RunFromLocal(g1, g2, c, d, player, k + 1);
    }
  }

  /** The discs captured in a direction depend only on the cells of that ray. */
  lemma CapturedLocal(g1: Grid, g2: Grid, c: Point, d: Point, player: int)
    requires IsGrid(g1) && IsGrid(g2) && OnBoard(c) && IsDirection(d) && IsPlayer(player)
    requires forall j :: 1 <= j && OnBoard(Ray(c, d, j)) ==> Get(g1, Ray(c, d, j)) == Get(g2, Ray(c, d, j))
    ensures Captured(g1, c, d, player) == Captured(g2, c, d, player)
  {
    RunFromLocal(g1, g2, c, d, player, 2);
  }

  /** The cells a direction's ray passes are untouched by the directions before it,
      so each direction captures what it would on the grid before the move. */
  lemma {:induction false} LaterRayUntouched(g: Grid, c: Point, player: int, t: nat)
    requires IsGrid(g) && OnBoard(c) && IsPlayer(player) && t < 8
    ensures Captured(FlipDirs(g, c, player, t), c, Dir(t), player) == Captured(g, c, Dir(t), player)
    decreases t, 2
  {
    var h := FlipDirs(g, c, player, t);
    forall j | 1 <= j && OnBoard(Ray(c, Dir(t), j))
      ensures Get(h, Ray(c, Dir(t), j)) == Get(g, Ray(c, Dir(t), j))
    {
      var q := Ray(c, Dir(t), j);
      FlipDirsCells(g, c, player, t, q);
      if FlankedBefore(g, c, player, t, q) {
        var u :| 0 <= u < t && OnRun(c, Dir(u), Captured(g, c, Dir(u), player), q);
        var k :| 1 <= k && q == Ray(c, Dir(u), k);
        RaysDisjoint(c, Dir(u), k, Dir(t), j);
        DirectionsDistinct(u, t);
      }
    }
    CapturedLocal(h, g, c, Dir(t), player);
  }

  /** After t directions, exactly the cells flanked in those directions (on the
      original grid) have changed, and they hold `player`'s colour. */
  lemma {:induction false} FlipDirsCells(g: Grid, c: Point, player: int, t: nat, q: Point)
    requires IsGrid(g) && OnBoard(c) && IsPlayer(player) && t <= 8 && OnBoard(q)
    ensures Get(FlipDirs(g, c, player, t), q) ==
      if FlankedBefore(g, c, player, t, q) then player else Get(g, q)
    decreases t, 1
  {
    if t > 0 {
      var h := FlipDirs(g, c, player, t - 1);
      var d := Dir(t - 1);
      FlipDirsCells(g, c, player, t - 1, q);
      LaterRayUntouched(g, c, player, t - 1);
      var n := Captured(g, c, d, player);
      FlipRunCells(h, c, d, player, n, q);
      FlankedBeforeStep(g, c, player, t, q);
    }
  }

  lemma FlankedBeforeStep(g: Grid, c: Point, player: int, t: nat, q: Point)
    requires IsGrid(g) && OnBoard(c) && IsPlayer(player) && 0 < t <= 8
    ensures FlankedBefore(g, c, player, t, q) <==>
      FlankedBefore(g, c, player, t - 1, q) || OnRun(c, Dir(t - 1), Captured(g, c, Dir(t - 1), player), q)
  {
  }

  /** Setting the centre does not change what any direction captures. */
  lemma CapturedIgnoresCentre(g: Grid, c: Point, player: int, v: int, d: Point)
    requires IsGrid(g) && OnBoard(c) && IsPlayer(player) && IsDirection(d)
    ensures Captured(Set(g, c, v), c, d, player) == Captured(g, c, d, player)
  {
    forall j | 1 <= j && OnBoard(Ray(c, d, j))
      ensures Get(Set(g, c, v), Ray(c, d, j)) == Get(g, Ray(c, d, j))
    {
      RayStart(c, d);
      if Ray(c, d, j) == c {
        RayInjective(c, d, j, 0);
      }
    }
    CapturedLocal(Set(g, c, v), g, c, d, player);
  }

  /** The cells of the grid after a move: the centre and every flanked disc take
      the mover's colour and every other cell keeps its value. */
  lemma PlaceCells(g: Grid, c: Point, player: int, q: Point)
    requires IsGrid(g) && OnBoard(c) && IsPlayer(player) && OnBoard(q)
    ensures Get(Place(g, c, player), q) ==
      if q == c || Flanked(g, c, player, q) then player else Get(g, q)
  {
    var g' := Set(g, c, player);
    FlipDirsCells(g', c, player, 8, q);
    forall u | 0 <= u < 8
      ensures Captured(g', c, Dir(u), player) == Captured(g, c, Dir(u), player)
    {
      CapturedIgnoresCentre(g, c, player, player, Dir(u));
    }
    assert FlankedBefore(g', c, player, 8, q) == Flanked(g, c, player, q);
  }

  /** Every disc a move captures was the opponent's. */
  lemma FlankedWereOpponents(g: Grid, c: Point, player: int, q: Point)
    requires ValidGrid(g) && OnBoard(c) && IsPlayer(player)
    requires Flanked(g, c, player, q)
    ensures OnBoard(q) && Get(g, q) == NextPlayer(player)
  {
    var u :| 0 <= u < 8 && OnRun(c, Dir(u), Captured(g, c, Dir(u), player), q);
    var k :| 1 <= k <= Captured(g, c, Dir(u), player) && q == Ray(c, Dir(u), k);
    CapturedAreOpponents(g, c, Dir(u), player);
  }

  lemma {:induction false} FlipCountPositive(g: Grid, c: Point, player: int, t: nat)
    requires IsGrid(g) && OnBoard(c) && IsPlayer(player) && t <= 8
    ensures FlipCount(g, c, player, t) > 0 <==> exists u {:trigger Captured(g, c, Dir(u), player)} :: 0 <= u < t && Captured(g, c, Dir(u), player) > 0
  {
    if t > 0 {
      FlipCountPositive(g, c, player, t - 1);
      var n := Captured(g, c, Dir(t - 1), player);
      assert FlipCount(g, c, player, t) == FlipCount(g, c, player, t - 1) + n;
      if n > 0 {
        assert 0 <= t - 1 < t && Captured(g, c, Dir(t - 1), player) > 0;
      } else {
        forall u {:trigger Captured(g, c, Dir(u), player)} | 0 <= u < t && Captured(g, c, Dir(u), player) > 0
          ensures u < t - 1
        {
        }
      }
    }
  }

  /** A spot is legal exactly when it is empty and a move there captures at least one disc. */
  lemma LegalIffCaptures(g: Grid, c: Point, player: int)
    requires IsGrid(g) && OnBoard(c) && IsPlayer(player)
    ensures LegalSpot(g, c, player) <==> Get(g, c) == EMPTY && Flips(g, c, player) > 0
  {
    FlipCountPositive(g, c, player, 8);
  }

  /** Count change of a state v when `n` opponent discs become `player`'s. */
  function Shift(v: int, player: int, n: int): int {
    if v == player then n else if v == NextPlayer(player) then -n else 0
  }

  lemma ShiftAdd(v: int, player: int, a: int, b: int)
    ensures Shift(v, player, a) + Shift(v, player, b) == Shift(v, player, a + b)
  {
  }

  lemma {:induction false} FlipRunCounts(g: Grid, c: Point, d: Point, player: int, n: nat, v: int)
    requires IsGrid(g) && OnBoard(c) && IsDirection(d) && IsPlayer(player)
    requires forall k :: 1 <= k <= n ==> OnBoard(Ray(c, d, k))
    requires forall k :: 1 <= k <= n ==> DiscAt(g, Ray(c, d, k), NextPlayer(player))
    ensures CountIn(FlipRun(g, c, d, player, n), v) == CountIn(g, v) + Shift(v, player, n)
  {
    if n > 0 {
      FlipRunCounts(g, c, d, player, n - 1, v);
      var q := Ray(c, d, n);
      FlipRunCells(g, c, d, player, n - 1, q);
      if OnRun(c, d, n - 1, q) {
        var k :| 1 <= k <= n - 1 && q == Ray(c, d, k);
        RayInjective(c, d, k, n);
      }
      CountAfterSet(FlipRun(g, c, d, player, n - 1), q, player, v);
    }
  }

  /** Direction t - 1 of flip_discs changes the counts by what it captures on
      the grid before the move. */
  lemma FlipDirCounts(g: Grid, c: Point, player: int, t: nat, v: int)
    requires ValidGrid(g) && OnBoard(c) && IsPlayer(player) && 0 < t <= 8
    ensures CountIn(FlipDirs(g, c, player, t), v) ==
      CountIn(FlipDirs(g, c, player, t - 1), v) + Shift(v, player, Captured(g, c, Dir(t - 1), player))
  {
    var h := FlipDirs(g, c, player, t - 1);
    LaterRayUntouched(g, c, player, t - 1);
    FlipDirsValid(g, c, player, t - 1);
    CapturedAreOpponents(h, c, Dir(t - 1), player);
    FlipRunCounts(h, c, Dir(t - 1), player, Captured(h, c, Dir(t - 1), player), v);
  }

  /** The count change of the first t directions is that of the first t - 1
      and that of direction t - 1. */
  lemma FlipCountShift(g: Grid, c: Point, player: int, t: nat, v: int)
    requires IsGrid(g) && OnBoard(c) && IsPlayer(player) && 0 < t <= 8
    ensures Shift(v, player, FlipCount(g, c, player, t)) ==
      Shift(v, player, FlipCount(g, c, player, t - 1)) + Shift(v, player, Captured(g, c, Dir(t - 1), player))
  {
    ShiftAdd(v, player, FlipCount(g, c, player, t - 1), Captured(g, c, Dir(t - 1), player));
  }

  lemma {:induction false} FlipDirsCounts(g: Grid, c: Point, player: int, t: nat, v: int)
    requires ValidGrid(g) && OnBoard(c) && IsPlayer(player) && t <= 8
    ensures CountIn(FlipDirs(g, c, player, t), v) == CountIn(g, v) + Shift(v, player, FlipCount(g, c, player, t))
  {
    if t > 0 {
      FlipDirsCounts(g, c, player, t - 1, v);
      FlipDirCounts(g, c, player, t, v);
      FlipCountShift(g, c, player, t, v);
    }
  }

  /** On a well-formed grid, the captured run consists of opponent discs. */
  lemma CapturedAreOpponents(g: Grid, c: Point, d: Point, player: int)
    requires ValidGrid(g) && OnBoard(c) && IsDirection(d) && IsPlayer(player)
    ensures forall k :: 1 <= k <= Captured(g, c, d, player) ==> DiscAt(g, Ray(c, d, k), NextPlayer(player))
  {
    var n := Captured(g, c, d, player);
    CapturedRun(g, c, d, player);
    forall k | 1 <= k <= n
      ensures DiscAt(g, Ray(c, d, k), NextPlayer(player))
    {
      assert OnBoard(Ray(c, d, k)) && EMPTY <= Get(g, Ray(c, d, k)) <= WHITE;
    }
  }

  lemma FlipDirsValid(g: Grid, c: Point, player: int, t: nat)
    requires ValidGrid(g) && OnBoard(c) && IsPlayer(player) && t <= 8
    ensures ValidGrid(FlipDirs(g, c, player, t))
  {
    forall q | OnBoard(q)
      ensures EMPTY <= Get(FlipDirs(g, c, player, t), q) <= WHITE
    {
      FlipDirsCells(g, c, player, t, q);
    }
  }

  lemma FlipCountIgnoresCentre(g: Grid, c: Point, player: int, t: nat)
    requires IsGrid(g) && OnBoard(c) && IsPlayer(player) && t <= 8
    ensures FlipCount(Set(g, c, player), c, player, t) == FlipCount(g, c, player, t)
  {
    if t > 0 {
      FlipCountIgnoresCentre(g, c, player, t - 1);
      CapturedIgnoresCentre(g, c, player, player, Dir(t - 1));
    }
  }

  /** A move on an empty cell: the mover gains 1 + the captured discs, the
      opponent loses the captured discs, the empty cells lose one. */
  lemma PlaceCounts(g: Grid, c: Point, player: int)
    requires ValidGrid(g) && OnBoard(c) && IsPlayer(player) && Get(g, c) == EMPTY
    ensures CountIn(Place(g, c, player), player) == CountIn(g, player) + 1 + Flips(g, c, player)
    ensures CountIn(Place(g, c, player), NextPlayer(player)) == CountIn(g, NextPlayer(player)) - Flips(g, c, player)
    ensures CountIn(Place(g, c, player), EMPTY) == CountIn(g, EMPTY) - 1
  {
    var g' := Set(g, c, player);
    FlipCountIgnoresCentre(g, c, player, 8);
    forall v | EMPTY <= v <= WHITE
      ensures CountIn(Place(g, c, player), v) ==
        CountIn(g, v) + (if player == v then 1 else 0) - (if EMPTY == v then 1 else 0) + Shift(v, player, Flips(g, c, player))
    {
      CountAfterSet(g, c, player, v);
      FlipDirsCounts(g', c, player, 8, v);
    }
  }

  /** Counters that agree with g before a move and change as PlaceCounts says
      agree with the grid after it. */
  lemma PlaceKeepsCounts(g: Grid, c: Point, player: int, before: seq<int>, after: seq<int>)
    requires ValidGrid(g) && OnBoard(c) && IsPlayer(player) && Get(g, c) == EMPTY
    requires CountsAgree(g, before) && |after| == 3
    requires after[player] == before[player] + 1 + Flips(g, c, player)
    requires after[NextPlayer(player)] == before[NextPlayer(player)] - Flips(g, c, player)
    requires after[EMPTY] == before[EMPTY] - 1
    ensures IsGrid(Place(g, c, player)) && CountsAgree(Place(g, c, player), after)
  {
    PlaceCounts(g, c, player);
  }

  /** A move leaves a grid of well-formed cells. */
  lemma PlaceValid(g: Grid, c: Point, player: int)
    requires ValidGrid(g) && OnBoard(c) && IsPlayer(player)
    ensures ValidGrid(Place(g, c, player))
  {
    forall q | OnBoard(q)
      ensures EMPTY <= Get(Place(g, c, player), q) <= WHITE
    {
      PlaceCells(g, c, player, q);
    }
  }
}
