// The rules of Othello as pure functions over a grid value: cell states,
// the flanking scan, the legality of a spot and the row-major list of legal
// spots. The class in board.dfy is proved against these definitions.

module Rules {
  import opened Geometry

  datatype Option<T> = None | Some(value: T)

  const EMPTY: int := 0
  const BLACK: int := 1
  const WHITE: int := 2

  /** The board as rows of cells; a cell holds EMPTY, BLACK or WHITE. */
  type Grid = seq<seq<int>>

  predicate IsGrid(g: Grid) {
    |g| == SIZE && forall i :: 0 <= i < SIZE ==> |g[i]| == SIZE
  }

  function Get(g: Grid, p: Point): int
    requires IsGrid(g) && OnBoard(p)
  {
    g[p.x][p.y]
  }

  /** Every cell holds one of the three cell states. */
  ghost predicate ValidGrid(g: Grid) {
    IsGrid(g) && forall p :: OnBoard(p) ==> EMPTY <= Get(g, p) <= WHITE
  }

  predicate IsPlayer(player: int) {
    player == BLACK || player == WHITE
  }

  /** The colour swap `3 - player`. */
  function NextPlayer(player: int): (next: int)
    ensures IsPlayer(player) ==> IsPlayer(next) && next != player
  {
    3 - player
  }

  lemma NextPlayerInvolution(player: int)
    ensures NextPlayer(NextPlayer(player)) == player
  {
  }

  /** `g` with the cell at p replaced by v (no change when p is off the board). */
  function Set(g: Grid, p: Point, v: int): (h: Grid)
    requires IsGrid(g)
    ensures IsGrid(h)
  {
    if OnBoard(p) then g[p.x := g[p.x][p.y := v]] else g
  }

  /** Set changes the cell at p and no other. */
  lemma SetCells(g: Grid, p: Point, v: int)
    requires IsGrid(g)
    ensures forall q :: OnBoard(q) ==> Get(Set(g, p, v), q) == if q == p then v else Get(g, q)
  {
  }

  /** Writing a cell state keeps a grid of cell states. */
  lemma SetValid(g: Grid, p: Point, v: int)
    requires ValidGrid(g) && EMPTY <= v <= WHITE
    ensures ValidGrid(Set(g, p, v))
  {
    SetCells(g, p, v);
  }

  predicate DiscAt(g: Grid, p: Point, disc: int)
    requires IsGrid(g)
  {
    OnBoard(p) && Get(g, p) == disc
  }

  /** The n cells of the ray from c in direction d, starting k steps out, are on
      the board and hold a disc that is not `player`'s. */
  predicate Crossed(g: Grid, c: Point, d: Point, player: int, k: nat, n: nat)
    requires IsGrid(g)
  {
    forall j :: k <= j < k + n ==>
      OnBoard(Ray(c, d, j)) && Get(g, Ray(c, d, j)) != EMPTY && Get(g, Ray(c, d, j)) != player
  }

  /** The scan of the source's inner while loop, from k steps out: Some(n) when n
      discs not of `player` are followed by a `player` disc, None when an empty or
      off-board cell comes first. */
  function RunFrom(g: Grid, c: Point, d: Point, player: int, k: nat): (r: Option<nat>)
    requires IsGrid(g) && OnBoard(c) && IsDirection(d)
    decreases SIZE - k
  {
    var p := Ray(c, d, k);
    if !OnBoard(p) || Get(g, p) == EMPTY then None
    else if Get(g, p) == player then Some(0)
    else
      match RunFrom(g, c, d, player, k + 1)
      case None => None
      case Some(n) => Some(n + 1)
  }

  /** A scan that succeeds crosses discs that are not `player`'s up to a
      `player` disc. */
  lemma {:induction false} RunFromSound(g: Grid, c: Point, d: Point, player: int, k: nat)
    requires IsGrid(g) && OnBoard(c) && IsDirection(d)
    ensures var r := RunFrom(g, c, d, player, k);
      r.Some? ==> Crossed(g, c, d, player, k, r.value) && DiscAt(g, Ray(c, d, k + r.value), player)
    decreases SIZE - k
  {
    var p := Ray(c, d, k);
    if OnBoard(p) && Get(g, p) != EMPTY && Get(g, p) != player {
      RunFromSound(g, c, d, player, k + 1);
    }
  }

  /** A scan that fails really has no terminating disc of `player`. */
  lemma {:induction false} RunFromComplete(g: Grid, c: Point, d: Point, player: int, k: nat, n: nat)
    requires IsGrid(g) && OnBoard(c) && IsDirection(d) && IsPlayer(player)
    requires RunFrom(g, c, d, player, k).None?
    requires Crossed(g, c, d, player, k, n)
    ensures !DiscAt(g, Ray(c, d, k + n), player)
    decreases SIZE - k
  {
    var p := Ray(c, d, k);
    if n > 0 {
      assert OnBoard(p) && Get(g, p) != EMPTY && Get(g, p) != player;
      RunFromComplete(g, c, d, player, k + 1, n - 1);
    }
  }

  /** The length of a captured run whose scan, begun k >= 1 steps out, ends as r. */
  function RunLength(r: Option<nat>, k: nat): nat
    requires 1 <= k
  {
    match r
    case None => 0
    case Some(m) => m + k - 1
  }

  /** One step of the source's scan loop at the cell k >= 1 steps out, which
      holds a disc: the ray is still within the board, the next cell is one
      `p + dir` further, and a `player` disc ends a run of k - 1 discs while
      any other disc leaves the run's length to the rest of the scan. */
  lemma ScanStep(g: Grid, c: Point, d: Point, player: int, k: nat)
    requires IsGrid(g) && OnBoard(c) && IsDirection(d) && 1 <= k
    requires OnBoard(Ray(c, d, k)) && Get(g, Ray(c, d, k)) != EMPTY
    ensures k < SIZE
    ensures Ray(c, d, k).Add(d) == Ray(c, d, k + 1)
    ensures Get(g, Ray(c, d, k)) == player ==> RunLength(RunFrom(g, c, d, player, k), k) == k - 1
    ensures Get(g, Ray(c, d, k)) != player ==>
      RunLength(RunFrom(g, c, d, player, k), k) == RunLength(RunFrom(g, c, d, player, k + 1), k + 1)
  {
    RayBound(c, d, k);
    RayNext(c, d, k);
  }

  /** The scan stops without a run at an empty or off-board cell. */
  lemma ScanStop(g: Grid, c: Point, d: Point, player: int, k: nat)
    requires IsGrid(g) && OnBoard(c) && IsDirection(d) && 1 <= k
    requires !(OnBoard(Ray(c, d, k)) && Get(g, Ray(c, d, k)) != EMPTY)
    ensures RunLength(RunFrom(g, c, d, player, k), k) == 0
  {
  }

  /** The number of discs the source's flip_discs turns over in direction d when
      `player` moves at c: the opponent disc next to c and the run behind it, if a
      `player` disc closes the run, and 0 otherwise. */
  function Captured(g: Grid, c: Point, d: Point, player: int): (n: nat)
    requires IsGrid(g) && OnBoard(c) && IsDirection(d) && IsPlayer(player)
  {
    if !DiscAt(g, Ray(c, d, 1), NextPlayer(player)) then 0
    else
      match RunFrom(g, c, d, player, 2)
      case None => 0
      case Some(m) => m + 1
  }

  /** A capture starts with an opponent disc next to c, crosses discs that are
      not `player`'s and is closed by a `player` disc. */
  lemma CapturedRun(g: Grid, c: Point, d: Point, player: int)
    requires IsGrid(g) && OnBoard(c) && IsDirection(d) && IsPlayer(player)
    ensures var n := Captured(g, c, d, player);
      n > 0 ==> DiscAt(g, Ray(c, d, 1), NextPlayer(player)) && Crossed(g, c, d, player, 1, n) && DiscAt(g, Ray(c, d, n + 1), player)
  {
    RunFromSound(g, c, d, player, 2);
  }

  /** The source's is_spot_valid: c is empty and some direction captures. */
  predicate LegalSpot(g: Grid, c: Point, player: int)
    requires IsGrid(g) && OnBoard(c) && IsPlayer(player)
  {
    Get(g, c) == EMPTY && exists t {:trigger Captured(g, c, Dir(t), player)} :: 0 <= t < 8 && Captured(g, c, Dir(t), player) > 0
  }

  /** The flanking rule stated directly: the n >= 1 cells next to c in direction d
      hold the opponent's discs and the cell after them holds `player`'s. */
  predicate Bracketed(g: Grid, c: Point, d: Point, player: int, n: nat)
    requires IsGrid(g)
  {
    1 <= n
    && (forall k :: 1 <= k <= n ==> DiscAt(g, Ray(c, d, k), NextPlayer(player)))
    && DiscAt(g, Ray(c, d, n + 1), player)
  }

  /** Captured counts exactly the bracketed run, and is 0 when there is none. */
  lemma CapturedIsBracket(g: Grid, c: Point, d: Point, player: int)
    requires ValidGrid(g) && OnBoard(c) && IsDirection(d) && IsPlayer(player)
    ensures Captured(g, c, d, player) > 0 ==> Bracketed(g, c, d, player, Captured(g, c, d, player))
    ensures Captured(g, c, d, player) == 0 ==> forall n :: !Bracketed(g, c, d, player, n)
  {
    var n := Captured(g, c, d, player);
    if n > 0 {
      CapturedRun(g, c, d, player);
      forall k | 1 <= k <= n
        ensures DiscAt(g, Ray(c, d, k), NextPlayer(player))
      {
        assert OnBoard(Ray(c, d, k)) && EMPTY <= Get(g, Ray(c, d, k)) <= WHITE;
      }
    } else {
      forall m: nat | Bracketed(g, c, d, player, m)
        ensures false
      {
        assert DiscAt(g, Ray(c, d, 1), NextPlayer(player));
        assert Crossed(g, c, d, player, 2, m - 1);
        RunFromComplete(g, c, d, player, 2, m - 1);
      }
    }
  }

  /** Legality by the flanking rule, in both directions of the equivalence. */
  lemma LegalIffBracketed(g: Grid, c: Point, player: int)
    requires ValidGrid(g) && OnBoard(c) && IsPlayer(player)
    ensures LegalSpot(g, c, player) <==>
      Get(g, c) == EMPTY && exists t, n {:trigger Bracketed(g, c, Dir(t), player, n)} :: 0 <= t < 8 && Bracketed(g, c, Dir(t), player, n)
  {
    forall t | 0 <= t < 8 {
      CapturedIsBracket(g, c, Dir(t), player);
    }
  }

  /** p comes before q in row-major order. */
  predicate RowMajorBefore(p: Point, q: Point) {
    p.x < q.x || (p.x == q.x && p.y < q.y)
  }

  /** A test on cells, such as the legality of a move there. */
  datatype CellTest = CellTest(holds: Point -> bool)

  /** The cells of row i among its first j that satisfy `pick`, left to right:
      the inner loop of the source's get_valid_spots after j steps. */
  function RowPicks(pick: CellTest, i: nat, j: nat): seq<Point>
    requires i < SIZE && j <= SIZE
  {
    if j == 0 then []
    else if pick.holds(Point(i, j - 1)) then RowPicks(pick, i, j - 1) + [Point(i, j - 1)]
    else RowPicks(pick, i, j - 1)
  }

  /** The cells of the first i rows that satisfy `pick`, in row-major order: the
      outer loop of the source's get_valid_spots after i steps. */
  function PicksBefore(pick: CellTest, i: nat): seq<Point>
    requires i <= SIZE
  {
    if i == 0 then [] else PicksBefore(pick, i - 1) + RowPicks(pick, i - 1, SIZE)
  }

  /** Row i's scan finds exactly the picked cells among its first j, left to right. */
  lemma {:induction false} RowPicksSpec(pick: CellTest, i: nat, j: nat)
    requires i < SIZE && j <= SIZE
    ensures forall k :: 0 <= k < |RowPicks(pick, i, j)| ==>
      OnBoard(RowPicks(pick, i, j)[k]) && RowPicks(pick, i, j)[k].x == i
      && RowPicks(pick, i, j)[k].y < j && pick.holds(RowPicks(pick, i, j)[k])
    ensures forall k1, k2 :: 0 <= k1 < k2 < |RowPicks(pick, i, j)| ==>
      RowPicks(pick, i, j)[k1].y < RowPicks(pick, i, j)[k2].y
    ensures forall p :: OnBoard(p) && p.x == i && p.y < j && pick.holds(p) ==> p in RowPicks(pick, i, j)
  {
    if j > 0 {
      RowPicksSpec(pick, i, j - 1);
    }
  }

  /** The scan of the first i rows finds only picked cells of those rows. */
  lemma {:induction false} PicksBeforeSound(pick: CellTest, i: nat)
    requires i <= SIZE
    ensures forall k :: 0 <= k < |PicksBefore(pick, i)| ==>
      OnBoard(PicksBefore(pick, i)[k]) && PicksBefore(pick, i)[k].x < i && pick.holds(PicksBefore(pick, i)[k])
  {
    if i > 0 {
      PicksBeforeSound(pick, i - 1);
      RowPicksSpec(pick, i - 1, SIZE);
      var a := PicksBefore(pick, i - 1);
      var r := RowPicks(pick, i - 1, SIZE);
      forall k | 0 <= k < |a + r|
        ensures OnBoard((a + r)[k]) && (a + r)[k].x < i && pick.holds((a + r)[k])
      {
        if k >= |a| {
          assert (a + r)[k] == r[k - |a|];
        }
      }
    }
  }

  /** The scan of the first i rows finds cells in strictly increasing row-major order. */
  lemma {:induction false} PicksBeforeOrdered(pick: CellTest, i: nat)
    requires i <= SIZE
    ensures forall k1, k2 :: 0 <= k1 < k2 < |PicksBefore(pick, i)| ==>
      RowMajorBefore(PicksBefore(pick, i)[k1], PicksBefore(pick, i)[k2])
  {
    if i > 0 {
      PicksBeforeOrdered(pick, i - 1);
      PicksBeforeSound(pick, i - 1);
      RowPicksSpec(pick, i - 1, SIZE);
      var a := PicksBefore(pick, i - 1);
      var r := RowPicks(pick, i - 1, SIZE);
      forall k1, k2 | 0 <= k1 < k2 < |a + r|
        ensures RowMajorBefore((a + r)[k1], (a + r)[k2])
      {
        if k1 >= |a| {
          assert (a + r)[k1] == r[k1 - |a|] && (a + r)[k2] == r[k2 - |a|];
        } else if k2 >= |a| {
          assert (a + r)[k1] == a[k1] && (a + r)[k2] == r[k2 - |a|];
        }
      }
    }
  }

  /** The scan of the first i rows finds every picked cell of those rows. */
  lemma {:induction false} PicksBeforeComplete(pick: CellTest, i: nat)
    requires i <= SIZE
    ensures forall p :: OnBoard(p) && p.x < i && pick.holds(p) ==> p in PicksBefore(pick, i)
  {
    if i > 0 {
      PicksBeforeComplete(pick, i - 1);
      RowPicksSpec(pick, i - 1, SIZE);
      var a := PicksBefore(pick, i - 1);
      var r := RowPicks(pick, i - 1, SIZE);
      forall p | OnBoard(p) && p.x < i && pick.holds(p)
        ensures p in a + r
      {
        if p.x < i - 1 {
          assert p in a;
        } else {
          assert p in r;
        }
      }
    }
  }

  /** The legality test of `player` on g, as a function of the cell. */
  function LegalFor(g: Grid, player: int): CellTest
    requires IsGrid(g) && IsPlayer(player)
  {
    CellTest(p => OnBoard(p) && LegalSpot(g, p, player))
  }

  lemma LegalForApply(g: Grid, player: int, p: Point)
    requires IsGrid(g) && IsPlayer(player)
    ensures LegalFor(g, player).holds(p) == (OnBoard(p) && LegalSpot(g, p, player))
  {
  }

  /** The source's get_valid_spots, as a value: the legal spots in row-major order. */
  function ValidSpots(g: Grid, player: int): seq<Point>
    requires IsGrid(g) && IsPlayer(player)
  {
    PicksBefore(LegalFor(g, player), |g|)
  }

  /** ValidSpots holds exactly the legal spots, each once, in row-major order. */
  lemma ValidSpotsSpec(g: Grid, player: int)
    requires IsGrid(g) && IsPlayer(player)
    ensures forall k :: 0 <= k < |ValidSpots(g, player)| ==>
      OnBoard(ValidSpots(g, player)[k]) && LegalSpot(g, ValidSpots(g, player)[k], player)
    ensures forall p :: OnBoard(p) && LegalSpot(g, p, player) ==> p in ValidSpots(g, player)
    ensures forall k1, k2 :: 0 <= k1 < k2 < |ValidSpots(g, player)| ==>
      RowMajorBefore(ValidSpots(g, player)[k1], ValidSpots(g, player)[k2])
  {
    PicksBeforeSound(LegalFor(g, player), |g|);
    PicksBeforeOrdered(LegalFor(g, player), |g|);
    PicksBeforeComplete(LegalFor(g, player), |g|);
  }

  /** A player has a legal spot exactly when ValidSpots is not empty. */
  lemma HasMoveIff(g: Grid, player: int)
    requires IsGrid(g) && IsPlayer(player)
    ensures ValidSpots(g, player) != [] <==> exists p :: OnBoard(p) && LegalSpot(g, p, player)
  {
    ValidSpotsSpec(g, player);
    if ValidSpots(g, player) != [] {
      assert OnBoard(ValidSpots(g, player)[0]);
    }
  }

  /** Who moves after `mover` has played on g: the opponent if they have a
      legal spot, otherwise `mover` again. */
  function HandOver(g: Grid, mover: int): (next: int)
    requires IsGrid(g) && IsPlayer(mover)
    ensures IsPlayer(next)
    ensures next == mover <==> ValidSpots(g, NextPlayer(mover)) == []
  {
    if ValidSpots(g, NextPlayer(mover)) != [] then NextPlayer(mover) else mover
  }

  /** Neither player has a legal spot. */
  predicate GameOver(g: Grid)
    requires IsGrid(g)
  {
    ValidSpots(g, BLACK) == [] && ValidSpots(g, WHITE) == []
  }

  /** The game is over when neither the mover nor the opponent can move. */
  lemma GameOverEither(g: Grid, mover: int)
    requires IsGrid(g) && IsPlayer(mover)
    ensures GameOver(g) <==> ValidSpots(g, mover) == [] && ValidSpots(g, NextPlayer(mover)) == []
  {
  }

  /** The player HandOver picks has a legal spot unless the game is over. */
  lemma HandOverCanMove(g: Grid, mover: int)
    requires IsGrid(g) && IsPlayer(mover)
    ensures ValidSpots(g, HandOver(g, mover)) == [] <==> GameOver(g)
  {
  }

  /** The grid with every cell EMPTY. */
  function EmptyGrid(): (g: Grid)
    ensures IsGrid(g)
  {
    seq(SIZE, i => seq(SIZE, j => EMPTY))
  }

  /** The standard opening: (3,4) and (4,3) BLACK, (3,3) and (4,4) WHITE. */
  function Opening(): Grid {
    Set(Set(Set(Set(EmptyGrid(), Point(3, 4), BLACK), Point(4, 3), BLACK), Point(3, 3), WHITE), Point(4, 4), WHITE)
  }

  /** The opening position cell by cell. */
  lemma OpeningCells(q: Point)
    requires OnBoard(q)
    ensures IsGrid(Opening())
    ensures Get(Opening(), q) ==
      if q == Point(3, 4) || q == Point(4, 3) then BLACK
      else if q == Point(3, 3) || q == Point(4, 4) then WHITE
      else EMPTY
  {
  }

  /** The opening holds only cell states. */
  lemma OpeningValid()
    ensures ValidGrid(Opening())
  {
    forall q | OnBoard(q)
      ensures EMPTY <= Get(Opening(), q) <= WHITE
    {
      OpeningCells(q);
    }
  }

  /** Winner by disc count: EMPTY (0) on a tie. */
  function Winner(blackDiscs: int, whiteDiscs: int): (w: int)
    ensures w == EMPTY <==> blackDiscs == whiteDiscs
    ensures w == BLACK <==> blackDiscs > whiteDiscs
    ensures w == WHITE <==> whiteDiscs > blackDiscs
  {
    if whiteDiscs == blackDiscs then EMPTY
    else if blackDiscs > whiteDiscs then BLACK
    else WHITE
  }
}
