// The game engine: an 8x8 board held in an array, the disc counts kept
// incrementally, the player to move, that player's legal spots and the end of
// game state. Each method is proved against the pure rules in rules.dfy and
// moves.dfy.

module Board {
  import opened Geometry
  import opened Rules
  import opened Tally
  import opened Moves

  /** The winner value while the game is still undecided. */
  const UNDECIDED: int := -1

  class OthelloBoard {
    const board: array2<int>
    const discCount: array<int>
    var nextValidSpots: seq<Point>
    var curPlayer: int
    var done: bool
    var winner: int

    /** The source's constructor: a fresh board in the opening position. */
    constructor()
      ensures Valid() && CountsMatch()
      ensures cells == Opening() && curPlayer == BLACK && discCount[..] == [SIZE * SIZE - 4, 2, 2]
      ensures !done && winner == UNDECIDED
    {
      board := new int[SIZE, SIZE];
      discCount := new int[3];
      new;
      Reset();
    }

    /** The board is 8x8 and there is one counter per cell state. */
    ghost predicate Shaped() {
      board.Length0 == SIZE && board.Length1 == SIZE && discCount.Length == 3
    }

    /** The board as a grid value, the view the rules are stated on. */
    ghost var cells: Grid

    /** The board array holds exactly the grid value. */
    ghost predicate Coupled()
      requires Shaped()
      reads this`cells, board
    {
      IsGrid(cells) && forall i, j :: 0 <= i < SIZE && 0 <= j < SIZE ==> board[i, j] == cells[i][j]
    }

    /** Shape, a player to move and only cell states on the board. */
    ghost predicate WellFormed()
      reads this`cells, this`curPlayer, board
    {
      Shaped() && Coupled() && IsPlayer(curPlayer) && ValidGrid(cells)
    }

    /** WellFormed, and the cached legal spots are those of the player to move. */
    ghost predicate Valid()
      reads this`cells, this`curPlayer, this`nextValidSpots, board
    {
      WellFormed() && nextValidSpots == ValidSpots(cells, curPlayer)
    }

    /** The disc counts agree with the board. */
    ghost predicate CountsMatch()
      reads this`cells, board, discCount
      requires Shaped() && Coupled()
    {
      CountsAgree(cells, discCount[..])
    }

    /** The source's is_disc_at: false off the board. */
    function IsDiscAt(p: Point, disc: int): (r: bool)
      requires Shaped() && Coupled()
      reads this`cells, board
      ensures r <==> OnBoard(p) && Get(cells, p) == disc
    {
      OnBoard(p) && board[p.x, p.y] == disc
    }

    /** The source's set_disc. */
    method SetDisc(p: Point, disc: int)
      requires Shaped() && Coupled() && OnBoard(p)
      modifies board, this`cells
      ensures Coupled() && cells == Set(old(cells), p, disc)
    {
      board[p.x, p.y] := disc;
      cells := Set(cells, p, disc);
    }

    /** One pass of the direction loop of the source's is_spot_valid: the
        scan along direction t finds a closing disc of the player to move
        exactly when the move at center captures in that direction. */
    method CapturesAlong(center: Point, dir: Point) returns (captures: bool)
      requires WellFormed() && OnBoard(center) && IsDirection(dir)
      ensures captures == (Captured(cells, center, dir, curPlayer) > 0)
    {
      ghost var g := cells;
      RayStart(center, dir);
      var p := center.Add(dir);
      if !IsDiscAt(p, NextPlayer(curPlayer)) {
        return false;
      }
      RayNext(center, dir, 1);
      p := p.Add(dir);
      ghost var k: nat := 2;
      while OnBoard(p) && board[p.x, p.y] != EMPTY
        invariant p == Ray(center, dir, k)
        invariant Captured(g, center, dir, curPlayer) == RunLength(RunFrom(g, center, dir, curPlayer, k), k)
        decreases SIZE - k
      {
        ScanStep(g, center, dir, curPlayer, k);
        if IsDiscAt(p, curPlayer) {
          return true;
        }
        p := p.Add(dir);
        k := k + 1;
      }
      ScanStop(g, center, dir, curPlayer, k);
      return false;
    }

    /** The source's is_spot_valid: the scan agrees with the legality rule. */
    method IsSpotValid(center: Point) returns (valid: bool)
      requires WellFormed() && OnBoard(center)
      ensures valid == LegalSpot(cells, center, curPlayer)
    {
      ghost var g := cells;
      if board[center.x, center.y] != EMPTY {
        return false;
      }
      for t := 0 to 8
        invariant FlipCount(g, center, curPlayer, t) == 0
      {
        var dir := Directions[t];
        DirIsTable(t);
        var captures := CapturesAlong(center, dir);
        if captures {
          return true;
        }
      }
      LegalIffCaptures(g, center, curPlayer);
      return false;
    }

    /** The inner loop of the source's get_valid_spots: the legal spots of row
        i, left to right. */
    method ValidSpotsInRow(i: int) returns (row: seq<Point>)
      requires WellFormed() && 0 <= i < SIZE
      ensures row == RowPicks(LegalFor(cells, curPlayer), i, SIZE)
    {
      row := [];
      for j := 0 to SIZE
        invariant row == RowPicks(LegalFor(cells, curPlayer), i, j)
      {
        var p := Point(i, j);
        LegalForApply(cells, curPlayer, p);
        if board[i, j] == EMPTY {
          var valid := IsSpotValid(p);
          if valid {
            row := row + [p];
          }
        }
      }
    }

    /** The source's get_valid_spots: the legal spots of the player to move, in
        row-major order. */
    method GetValidSpots() returns (spots: seq<Point>)
      requires WellFormed()
      ensures spots == ValidSpots(cells, curPlayer)
    {
      spots := [];
      for i := 0 to SIZE
        invariant spots == PicksBefore(LegalFor(cells, curPlayer), i)
      {
        var row := ValidSpotsInRow(i);
        spots := spots + row;
      }
    }

    /** The capture step of the source's flip_discs: the collected discs, the
        first |discs| cells of the ray from center along dir, turn to the player
        to move, who gains them from the opponent's count. */
    method TurnOver(discs: seq<Point>, ghost center: Point, ghost dir: Point)
      requires Shaped() && Coupled() && IsPlayer(curPlayer)
      requires discs == RayCells(center, dir, |discs|)
      requires forall j :: 1 <= j <= |discs| ==> OnBoard(Ray(center, dir, j))
      modifies board, discCount, this`cells
      ensures Coupled()
      ensures cells == FlipRun(old(cells), center, dir, curPlayer, |discs|)
      ensures discCount[curPlayer] == old(discCount[curPlayer]) + |discs|
      ensures discCount[NextPlayer(curPlayer)] == old(discCount[NextPlayer(curPlayer)]) - |discs|
      ensures discCount[EMPTY] == old(discCount[EMPTY])
    {
      ghost var h := cells;
      for m := 0 to |discs|
        modifies board, this`cells
        invariant Coupled()
        invariant cells == FlipRun(h, center, dir, curPlayer, m)
      {
        SetDisc(discs[m], curPlayer);
      }
      discCount[curPlayer] := discCount[curPlayer] + |discs|;
      discCount[NextPlayer(curPlayer)] := discCount[NextPlayer(curPlayer)] - |discs|;
    }

    /** The scan of one pass of the direction loop of the source's flip_discs:
        the discs it collects are the cells of the ray from center along dir,
        and the run is closed by a disc of the player to move exactly when the
        move captures in that direction, the collected discs being the capture. */
    method ScanRun(center: Point, dir: Point) returns (discs: seq<Point>, closed: bool)
      requires WellFormed() && OnBoard(center) && IsDirection(dir)
      ensures discs == RayCells(center, dir, |discs|)
      ensures closed == (Captured(cells, center, dir, curPlayer) > 0)
      ensures closed ==> |discs| == Captured(cells, center, dir, curPlayer)
    {
      ghost var g := cells;
      RayStart(center, dir);
      var p := center.Add(dir);
      if !IsDiscAt(p, NextPlayer(curPlayer)) {
        return [], false;
      }
      discs := [p];
      RayNext(center, dir, 1);
      p := p.Add(dir);
      ghost var k: nat := 2;
      while OnBoard(p) && board[p.x, p.y] != EMPTY
        invariant p == Ray(center, dir, k)
        invariant discs == RayCells(center, dir, k - 1)
        invariant Captured(g, center, dir, curPlayer) == RunLength(RunFrom(g, center, dir, curPlayer, k), k)
        decreases SIZE - k
      {
        ScanStep(g, center, dir, curPlayer, k);
        if IsDiscAt(p, curPlayer) {
          return discs, true;
        }
        discs := discs + [p];
        p := p.Add(dir);
        k := k + 1;
      }
      ScanStop(g, center, dir, curPlayer, k);
      return discs, false;
    }

    /** One pass of the direction loop of the source's flip_discs: the run the
        move at center brackets in direction dir turns to the player to move, and
        the counters follow. */
    method FlipAlong(center: Point, dir: Point)
      requires WellFormed() && OnBoard(center) && IsDirection(dir)
      modifies board, discCount, this`cells
      ensures Coupled()
      ensures cells == FlipRun(old(cells), center, dir, curPlayer, Captured(old(cells), center, dir, curPlayer))
      ensures discCount[curPlayer] == old(discCount[curPlayer]) + Captured(old(cells), center, dir, curPlayer)
      ensures discCount[NextPlayer(curPlayer)] ==
        old(discCount[NextPlayer(curPlayer)]) - Captured(old(cells), center, dir, curPlayer)
      ensures discCount[EMPTY] == old(discCount[EMPTY])
    {
      CapturedRun(cells, center, dir, curPlayer);
      var discs, closed := ScanRun(center, dir);
      if closed {
        TurnOver(discs, center, dir);
      }
    }

    /** The source's flip_discs: every run the move at center brackets, direction
        by direction, turns to the player to move, and the counters follow. */
    method FlipDiscs(center: Point)
      requires WellFormed() && OnBoard(center)
      modifies board, discCount, this`cells
      ensures Coupled()
      ensures cells == FlipDirs(old(cells), center, curPlayer, 8)
      ensures discCount[curPlayer] == old(discCount[curPlayer]) + Flips(old(cells), center, curPlayer)
      ensures discCount[NextPlayer(curPlayer)] ==
        old(discCount[NextPlayer(curPlayer)]) - Flips(old(cells), center, curPlayer)
      ensures discCount[EMPTY] == old(discCount[EMPTY])
    {
      ghost var g0 := cells;
      for t := 0 to 8
        invariant Coupled()
        invariant cells == FlipDirs(g0, center, curPlayer, t)
        invariant discCount[curPlayer] == old(discCount[curPlayer]) + FlipCount(g0, center, curPlayer, t)
        invariant discCount[NextPlayer(curPlayer)] ==
          old(discCount[NextPlayer(curPlayer)]) - FlipCount(g0, center, curPlayer, t)
        invariant discCount[EMPTY] == old(discCount[EMPTY])
      {
        LaterRayUntouched(g0, center, curPlayer, t);
        FlipDirsValid(g0, center, curPlayer, t);
        var dir := Directions[t];
        DirIsTable(t);
        FlipAlong(center, dir);
      }
    }

    /** The placing half of the source's put_disc on a legal spot: the disc goes
        down at p, the counters follow, and flip_discs turns over the captured
        runs. */
    method PlaceDisc(p: Point)
      requires WellFormed() && OnBoard(p) && LegalSpot(cells, p, curPlayer)
      modifies board, discCount, this`cells
      ensures WellFormed()
      ensures cells == Place(old(cells), p, curPlayer)
      ensures discCount[curPlayer] == old(discCount[curPlayer]) + 1 + Flips(old(cells), p, curPlayer)
      ensures discCount[NextPlayer(curPlayer)] == old(discCount[NextPlayer(curPlayer)]) - Flips(old(cells), p, curPlayer)
      ensures discCount[EMPTY] == old(discCount[EMPTY]) - 1
      ensures old(CountsMatch()) ==> CountsMatch()
    {
      ghost var g := cells;
      ghost var before := discCount[..];
      SetDisc(p, curPlayer);
      discCount[curPlayer] := discCount[curPlayer] + 1;
      discCount[EMPTY] := discCount[EMPTY] - 1;
      PlaceValid(g, p, curPlayer);
      SetValid(g, p, curPlayer);
      FlipCountIgnoresCentre(g, p, curPlayer, 8);
      FlipDiscs(p);
      if CountsAgree(g, before) {
        PlaceKeepsCounts(g, p, curPlayer, before, discCount[..]);
      }
    }

    /** The source's put_disc: an illegal spot ends the game in the opponent's
        favour; a legal one is played, the turn passes to the opponent if they
        can move and otherwise stays, and the game ends with the disc-count
        winner when neither side can move. */
    method PutDisc(p: Point) returns (ok: bool)
      requires WellFormed() && OnBoard(p)
      modifies this, board, discCount
      ensures WellFormed()
      ensures ok == LegalSpot(old(cells), p, old(curPlayer))
      ensures !ok ==> (cells == old(cells) && curPlayer == old(curPlayer) && nextValidSpots == old(nextValidSpots)
        && discCount[..] == old(discCount[..]) && done && winner == NextPlayer(old(curPlayer)))
      ensures ok ==> cells == Place(old(cells), p, old(curPlayer))
      ensures ok ==> discCount[old(curPlayer)] == old(discCount[curPlayer]) + 1 + Flips(old(cells), p, old(curPlayer))
      ensures ok ==> (discCount[NextPlayer(old(curPlayer))] ==
        old(discCount[NextPlayer(curPlayer)]) - Flips(old(cells), p, old(curPlayer)))
      ensures ok ==> discCount[EMPTY] == old(discCount[EMPTY]) - 1
      ensures old(CountsMatch()) ==> CountsMatch()
      ensures ok ==> curPlayer == HandOver(cells, old(curPlayer))
      ensures ok ==> nextValidSpots == ValidSpots(cells, curPlayer)
      ensures ok ==> (done <==> old(done) || GameOver(cells))
      ensures ok ==> winner == if GameOver(cells) then Winner(discCount[BLACK], discCount[WHITE]) else old(winner)
    {
      ok := IsSpotValid(p);
      if !ok {
        winner := NextPlayer(curPlayer);
        done := true;
        return;
      }
      PlaceDisc(p);
      PassTurn();
    }

    /** The end of the source's put_disc: the turn goes to the opponent, back to
        the mover when the opponent has no legal spot, and when the mover has
        none either the game is over and the counters decide the winner. */
    method PassTurn()
      requires WellFormed()
      modifies this`curPlayer, this`nextValidSpots, this`done, this`winner
      ensures WellFormed()
      ensures curPlayer == HandOver(cells, old(curPlayer))
      ensures nextValidSpots == ValidSpots(cells, curPlayer)
      ensures done <==> old(done) || GameOver(cells)
      ensures winner == if GameOver(cells) then Winner(discCount[BLACK], discCount[WHITE]) else old(winner)
    {
      ghost var mover := curPlayer;
      NextPlayerInvolution(mover);
      GameOverEither(cells, mover);
      curPlayer := NextPlayer(curPlayer);
      nextValidSpots := GetValidSpots();
      if |nextValidSpots| == 0 {
        curPlayer := NextPlayer(curPlayer);
        nextValidSpots := GetValidSpots();
        if |nextValidSpots| == 0 {
          EndGame();
        }
      }
    }

    /** The game-over branch of the source's put_disc: the game is done and the
        colour with more discs by the counters wins, EMPTY on a tie. */
    method EndGame()
      requires Shaped()
      modifies this`done, this`winner
      ensures done && winner == Winner(discCount[BLACK], discCount[WHITE])
    {
      done := true;
      var whiteDiscs := discCount[WHITE];
      var blackDiscs := discCount[BLACK];
      if whiteDiscs == blackDiscs {
        winner := EMPTY;
      } else if blackDiscs > whiteDiscs {
        winner := BLACK;
      } else {
        winner := WHITE;
      }
    }

    /** The source's reset: the standard opening, BLACK to move, counters 60, 2
        and 2, the opening's legal spots, the game undecided. */
    method Reset()
      requires Shaped()
      modifies this, board, discCount
      ensures Valid() && CountsMatch()
      ensures cells == Opening() && curPlayer == BLACK && discCount[..] == [SIZE * SIZE - 4, 2, 2]
      ensures !done && winner == UNDECIDED
    {
      SetOpening();
      curPlayer := BLACK;
      ResetCounts();
      nextValidSpots := GetValidSpots();
      done := false;
      winner := UNDECIDED;
    }

    /** The counter part of the source's reset: the opening's 60 empty cells
        and two discs of each colour. */
    method ResetCounts()
      requires Shaped() && Coupled() && cells == Opening()
      modifies discCount
      ensures discCount[..] == [SIZE * SIZE - 4, 2, 2] && CountsMatch()
    {
      discCount[EMPTY] := SIZE * SIZE - 4;
      discCount[BLACK] := 2;
      discCount[WHITE] := 2;
      OpeningCounts();
    }

    /** The board part of the source's reset: clear every cell, then put down
        the four opening discs. */
    method SetOpening()
      requires Shaped()
      modifies board, this`cells
      ensures Coupled() && cells == Opening() && ValidGrid(cells)
    {
      Clear();
      SetDisc(Point(3, 4), BLACK);
      SetDisc(Point(4, 3), BLACK);
      SetDisc(Point(3, 3), WHITE);
      SetDisc(Point(4, 4), WHITE);
      OpeningValid();
    }

    /** The clearing loops of the source's reset: every cell EMPTY. */
    method Clear()
      requires Shaped()
      modifies board, this`cells
      ensures Coupled() && cells == EmptyGrid()
    {
      for i := 0 to SIZE
        invariant forall a, b :: 0 <= a < i && 0 <= b < SIZE ==> board[a, b] == EMPTY
      {
        for j := 0 to SIZE
          invariant forall a, b :: 0 <= a < i && 0 <= b < SIZE ==> board[a, b] == EMPTY
          invariant forall b :: 0 <= b < j ==> board[i, b] == EMPTY
        {
          board[i, j] := EMPTY;
        }
      }
      cells := EmptyGrid();
    }

    /** The source's free function discCount, on this board: the number of
        cells holding the player to move's discs. */
    method DiscCount() returns (answer: int)
      requires Shaped() && Coupled()
      ensures answer == CountIn(cells, curPlayer)
    {
      answer := 0;
      for i := 0 to SIZE
        invariant answer == CountRows(cells, curPlayer, i)
      {
        for j := 0 to SIZE
          invariant answer == CountRows(cells, curPlayer, i) + CountRow(cells[i], curPlayer, j)
        {
          if board[i, j] == curPlayer {
            answer := answer + 1;
          }
        }
      }
    }
  }
}
