# Othello engine: board rules and move picker

This project models the Othello engine of VERSION1.CPP and proves properties of it.

**The board.** The `OthelloBoard` class holds:
- an 8x8 board of EMPTY (0), BLACK (1) and WHITE (2) cells;
- the colour to move;
- a counter per cell state;
- the cached list of the mover's legal spots;
- a done flag and a winner.

`reset` sets up the standard opening. `is_spot_valid` applies the flanking rule in the eight directions. `get_valid_spots` scans the board row by row. `put_disc` does three things:
- it rejects an illegal spot, and the mover loses;
- otherwise it places the disc, and `flip_discs` turns over every bracketed run and adjusts the counters;
- it hands the turn over, with the pass rule, and detects the end of the game and its winner.

**The move picker.** `initializebonus` fills the positional bonus table. `test()` picks the legal spot with the largest bonus, taking the earliest among equals.

**Files:**
- `geometry.dfy`: the source's `Point`, the direction table and the rays the flanking rule walks.
- `rules.dfy`: the rules as pure functions on a grid value (`seq<seq<int>>`): colour swap, scan along a ray, capture, legality, the row-major list of legal spots, turn hand-over, game over and winner.
- `moves.dfy`: the grid after a move, which cells change and how the three counts move.
- `tally.dfy`: counting the cells of each state.
- `board.dfy`: the class `OthelloBoard`, with the board as an `array2<int>` and the counters as an `array<int>`. Each method is a loop-for-loop rendering of the source. Each is proved against the functions above through a ghost field `cells`, which mirrors the array.
- `picker.dfy`: `initializebonus` on an `array2<int>` and `test()` on the legal-spot list.

Players are `int`s with `IsPlayer` meaning BLACK or WHITE; the opponent is `3 - player`. The winner is -1 while the game is undecided and EMPTY on a tie, as in the source.

## Model

| member | source | states |
|---|---|---|
| Geometry.Dir | VERSION1.CPP:34-38 | direction t is a unit step to one of the eight neighbours |
| Geometry.DirIsTable | VERSION1.CPP:34-38 | the computed directions are the source's table, entry by entry and in its order |
| Geometry.DirectionsDistinct | VERSION1.CPP:34-38 | the eight scan directions are pairwise different |
| Geometry.RayStart | VERSION1.CPP:70 | step 1 of a ray is `center + dir` |
| Geometry.RayNext | VERSION1.CPP:73-77 | `p = p + dir` moves one step further along the ray |
| Geometry.RayBound | VERSION1.CPP:74 | from an on-board centre, a ray leaves the board within 8 steps, so every scan loop terminates |
| Geometry.RayInjective | VERSION1.CPP:88-100 | a ray never visits a cell twice, so the collected discs are distinct |
| Geometry.RaysDisjoint | VERSION1.CPP:83-102 | rays from one centre in different directions share no cell |
| Geometry.RayCells | VERSION1.CPP:88-100 | the discs flip_discs collects are the first n cells of the ray, nearest first |
| Rules.NextPlayer | VERSION1.CPP:46-48 | the opponent of a player is a player different from them |
| Rules.NextPlayerInvolution | VERSION1.CPP:46-48 | swapping colours twice gives back the player |
| Rules.SetCells | VERSION1.CPP:55-57 | set_disc changes the written cell and no other |
| Rules.SetValid | VERSION1.CPP:55-57 | writing a cell state keeps every cell EMPTY, BLACK or WHITE |
| Rules.RunFromSound | VERSION1.CPP:74-78 | a scan that reports a closing disc crossed only non-empty, non-mover discs up to a mover disc |
| Rules.RunFromComplete | VERSION1.CPP:74-78 | a scan that fails had no mover disc at the end of any non-empty run |
| Rules.ScanStep | VERSION1.CPP:74-77 | one loop iteration: the scan stays within 8 steps, stops at a mover disc with the run so far, or moves on |
| Rules.ScanStop | VERSION1.CPP:74 | an empty or off-board cell ends the scan without a capture |
| Rules.CapturedRun | VERSION1.CPP:70-78 | a capture starts with an opponent disc next to the centre, crosses non-mover discs and ends at a mover disc |
| Rules.CapturedIsBracket | VERSION1.CPP:68-79 | a positive capture count is exactly a bracketed run of opponent discs; a count of 0 means no run is bracketed |
| Rules.LegalIffBracketed | VERSION1.CPP:65-81 | a spot is legal iff it is empty and some direction has n >= 1 opponent discs followed by a mover disc |
| Rules.RowPicksSpec | VERSION1.CPP:151-157 | the scan of one row lists exactly the picked cells, left to right, each once |
| Rules.PicksBeforeSound | VERSION1.CPP:150-158 | the scan of the first i rows lists only picked on-board cells of those rows |
| Rules.PicksBeforeOrdered | VERSION1.CPP:150-158 | the listed cells are in strictly increasing row-major order, hence without duplicates |
| Rules.PicksBeforeComplete | VERSION1.CPP:150-158 | every picked cell of the first i rows is listed |
| Rules.LegalForApply | VERSION1.CPP:153-155 | the cell test of the scan is "on the board and legal for the player" |
| Rules.ValidSpotsSpec | VERSION1.CPP:148-160 | the legal-spot list holds exactly the legal spots, in row-major order, with no duplicates |
| Rules.HasMoveIff | VERSION1.CPP:175-178 | the legal-spot list is empty iff the player has no legal spot |
| Rules.HandOver | VERSION1.CPP:171-177 | after a move the turn is the opponent's if the opponent has a legal spot, and otherwise stays with the mover |
| Rules.GameOverEither | VERSION1.CPP:175-180 | the game is over iff neither the mover nor the opponent has a legal spot |
| Rules.HandOverCanMove | VERSION1.CPP:171-187 | the player who gets the turn has a legal spot unless the game is over |
| Rules.EmptyGrid | VERSION1.CPP:133-137 | the cleared board is an 8x8 grid |
| Rules.OpeningCells | VERSION1.CPP:133-139 | the opening has BLACK at (3,4) and (4,3), WHITE at (3,3) and (4,4), and EMPTY everywhere else |
| Rules.OpeningValid | VERSION1.CPP:133-139 | the opening holds only cell states |
| Rules.Winner | VERSION1.CPP:181-185 | BLACK iff it has more discs, WHITE iff WHITE has more, EMPTY iff tied |
| Tally.CountRowUpdate | VERSION1.CPP:55-57 | writing one cell of a row moves it from its old state's count to its new one |
| Tally.CountRowsUpdate | VERSION1.CPP:55-57 | the same over the first i rows |
| Tally.CountAfterSet | VERSION1.CPP:55-57 | the same over the whole board |
| Tally.CountRowTotal | VERSION1.CPP:41 | the three counts of a row add up to its length |
| Tally.CountRowsTotal | VERSION1.CPP:41 | the three counts of the first i rows add up to 8i |
| Tally.CountsTotal | VERSION1.CPP:41 | the three counts of a board of cell states add up to 64 |
| Tally.CountRowConstant | VERSION1.CPP:133-137 | a row of one state counts all of its cells for that state and none for the others |
| Tally.CountRowsEmpty | VERSION1.CPP:133-137 | a cleared board counts 8i EMPTY cells in its first i rows and no discs |
| Tally.OpeningCounts | VERSION1.CPP:138-143 | the opening has 60 empty cells and two discs of each colour, as reset's counters say |
| Moves.FlipRun | VERSION1.CPP:92-94 | flipping a run keeps an 8x8 grid |
| Moves.FlipDirs | VERSION1.CPP:83-102 | flipping the runs of the first t directions keeps an 8x8 grid |
| Moves.FlipRunCells | VERSION1.CPP:92-94 | flipping a run changes exactly the first n ray cells to the mover and nothing else |
| Moves.RunFromLocal | VERSION1.CPP:74-78 | the scan depends only on the cells of its own ray |
| Moves.CapturedLocal | VERSION1.CPP:85-101 | what a direction captures depends only on the cells of its ray |
| Moves.LaterRayUntouched | VERSION1.CPP:83-102 | flipping earlier directions does not change what a later direction captures |
| Moves.FlipDirsCells | VERSION1.CPP:82-103 | after t directions, exactly the cells bracketed in those directions on the original board are the mover's; all others keep their value |
| Moves.FlankedBeforeStep | VERSION1.CPP:83 | a cell is flanked in the first t directions iff in the first t-1 or on direction t-1's run |
| Moves.CapturedIgnoresCentre | VERSION1.CPP:167-170 | putting the disc on the centre first does not change what any direction captures |
| Moves.PlaceCells | VERSION1.CPP:167-170 | after a move, the centre and every bracketed disc are the mover's, and every other cell, every other empty cell included, is unchanged |
| Moves.FlankedWereOpponents | VERSION1.CPP:85-99 | every disc a move turns over was the opponent's |
| Moves.FlipCountPositive | VERSION1.CPP:68-79 | some direction captures iff the capture total over the directions is positive |
| Moves.LegalIffCaptures | VERSION1.CPP:65-81 | a spot is legal iff it is empty and the move flips at least one disc |
| Moves.ShiftAdd | VERSION1.CPP:95-96 | count changes of successive directions add up |
| Moves.FlipRunCounts | VERSION1.CPP:92-96 | flipping n opponent discs raises the mover's count by n, lowers the opponent's by n and leaves EMPTY's |
| Moves.FlipDirCounts | VERSION1.CPP:83-102 | direction t-1 moves the counts by what it captures on the original board |
| Moves.FlipCountShift | VERSION1.CPP:95-96 | the count change after t directions is that after t-1 plus direction t-1's |
| Moves.FlipDirsCounts | VERSION1.CPP:82-103 | after t directions the counts moved by the total captured in them |
| Moves.CapturedAreOpponents | VERSION1.CPP:85-99 | each cell of a captured run holds an opponent disc |
| Moves.FlipDirsValid | VERSION1.CPP:82-103 | flipping keeps every cell EMPTY, BLACK or WHITE |
| Moves.FlipCountIgnoresCentre | VERSION1.CPP:167-170 | the capture total is the same before and after the disc is put on the centre |
| Moves.PlaceCounts | VERSION1.CPP:167-170 | a move on an empty cell gives the mover 1 + flipped, takes flipped from the opponent and one from EMPTY, so the total is kept |
| Moves.PlaceKeepsCounts | VERSION1.CPP:167-170 | counters that agreed with the board before a move still agree after put_disc's updates |
| Moves.PlaceValid | VERSION1.CPP:167-170 | a move leaves only cell states on the board |
| Board.OthelloBoard.constructor | VERSION1.CPP:105-107 | a new board is in the opening position, BLACK to move, counters 60/2/2, cached spots correct, game undecided |
| Board.OthelloBoard.IsDiscAt | VERSION1.CPP:58-64 | true iff the spot is on the board and holds that disc |
| Board.OthelloBoard.SetDisc | VERSION1.CPP:55-57 | the array and the grid view change at p only |
| Board.OthelloBoard.CapturesAlong | VERSION1.CPP:68-79 | one direction of is_spot_valid's scan succeeds iff the move captures in that direction |
| Board.OthelloBoard.IsSpotValid | VERSION1.CPP:65-81 | the scan returns exactly the legality rule |
| Board.OthelloBoard.ValidSpotsInRow | VERSION1.CPP:151-157 | the inner loop collects the legal spots of row i, left to right |
| Board.OthelloBoard.GetValidSpots | VERSION1.CPP:148-160 | the result is the row-major list of legal spots, and nothing is modified |
| Board.OthelloBoard.TurnOver | VERSION1.CPP:92-96 | the collected discs become the mover's; the mover gains their number, the opponent loses it and EMPTY keeps its count |
| Board.OthelloBoard.ScanRun | VERSION1.CPP:85-101 | the collected discs are ray cells, and the run is closed iff the direction captures, its length being the capture |
| Board.OthelloBoard.FlipAlong | VERSION1.CPP:83-102 | one direction turns over exactly its bracketed run and moves the counters by its size |
| Board.OthelloBoard.FlipDiscs | VERSION1.CPP:82-103 | the board becomes the all-directions flip and the counters move by the total flipped |
| Board.OthelloBoard.PlaceDisc | VERSION1.CPP:167-170 | the board becomes the move's result, the counters change by +1+flipped, -flipped and -1, and counters that agreed with the board still do |
| Board.OthelloBoard.PutDisc | VERSION1.CPP:161-189 | returns legality; an illegal spot leaves board, counters, mover and spot list alone, sets done and makes the opponent win; a legal one plays the move, hands over the turn, recomputes the spot list, and ends the game with the count winner when neither side can move |
| Board.OthelloBoard.PassTurn | VERSION1.CPP:171-187 | the turn goes to the opponent or back to the mover, the cached list is that player's legal spots, and done and the winner are set iff the game is over |
| Board.OthelloBoard.EndGame | VERSION1.CPP:178-186 | done is set and the winner is decided by the BLACK and WHITE counters |
| Board.OthelloBoard.Reset | VERSION1.CPP:132-147 | the opening position, BLACK to move, counters 60/2/2 agreeing with the board, the opening's legal spots, done false, winner -1 |
| Board.OthelloBoard.ResetCounts | VERSION1.CPP:141-143 | the counters are 60/2/2 and agree with the opening |
| Board.OthelloBoard.SetOpening | VERSION1.CPP:133-139 | the board is the opening position |
| Board.OthelloBoard.Clear | VERSION1.CPP:133-137 | every cell is EMPTY |
| Board.OthelloBoard.DiscCount | VERSION1.CPP:218-226 | the result is the number of cells holding the mover's discs |
| Picker.BonusTable | VERSION1.CPP:385-439 | the bonus table is 8x8 |
| Picker.BonusSymmetric | VERSION1.CPP:385-439 | the table is unchanged by transposition and by mirroring either axis |
| Picker.CornersBest | VERSION1.CPP:416-419 | a corner's bonus is the largest, and only corners reach it |
| Picker.FillBase | VERSION1.CPP:387-391 | every in-range cell becomes 3 |
| Picker.FillLines | VERSION1.CPP:392-403 | rows and columns 1 and 6 become -5, the rest stays 3 |
| Picker.FillFives | VERSION1.CPP:404-411 | the edge cells in lines 3 and 4 become 5, nothing else changes |
| Picker.FillFifteens | VERSION1.CPP:412-415 | (2,2), (2,5), (5,2), (5,5) become 15, nothing else changes |
| Picker.FillCorners | VERSION1.CPP:416-419 | the four corners become 120, nothing else changes |
| Picker.FillCSquares | VERSION1.CPP:420-427 | the edge cells next to a corner become -20, nothing else changes |
| Picker.FillTwenties | VERSION1.CPP:428-435 | the edge cells two steps from a corner become 20, nothing else changes |
| Picker.FillXSquares | VERSION1.CPP:436-439 | the cells diagonally next to a corner become -40, nothing else changes |
| Picker.LayoutIsTable | VERSION1.CPP:385-439 | the loops and writes of initializebonus, layered, give exactly the bonus table |
| Picker.InitializeBonus | VERSION1.CPP:385-439 | the array ends up holding the bonus table |
| Picker.Test | VERSION1.CPP:355-366 | returns 0 on an empty list, and otherwise an index whose bonus is the largest in the list and strictly larger than every earlier spot's |
| Picker.PicksFirstCorner | VERSION1.CPP:355-366 | with the bonus table, when a corner is among the spots, the pick is the first corner in the list |

## Left out

- File input and output are not modelled: `read_board`, `read_valid_spots`, `write_valid_spot`, `main` and `srand`. The global `boardbonus` and the spot list become parameters of `Picker.Test`.
- `MiniMax` and `getmaxval` are not modelled. They compute in `double`, and their only call is commented out, so `test()` is what picks the move.
- `operator=` is not modelled. Nothing uses it, and it writes `next_valid_spots` past its size.
- Board.OthelloBoard.PutDisc requires an on-board spot. For an off-board spot the source reads outside the board array in `get_disc`, which is undefined.
- Board.OthelloBoard.IsSpotValid requires an on-board centre, for the same reason.
- Board.OthelloBoard.WellFormed assumes that every cell holds 0, 1 or 2. `IsSpotValid`, `GetValidSpots` and `PutDisc` rely on it. The source's scan would also cross other non-empty values. A board only comes from `reset`, from `put_disc` or from a well-formed input file.
- Board.OthelloBoard.PutDisc keeps counter agreement only as `old(CountsMatch()) ==> CountsMatch()`. The counters are not assumed to match the board, because `write_valid_spot` overwrites the board of `current` without recomputing them. The count deltas are stated unconditionally.
- Picker.FillBase runs its inner loop over `j < 8`. The source loops to `j < 9`. For rows 0 to 6 the extra write hits column 0 of the next row with the same value 3. For row 7 it lands past the end of the array. The out-of-range write is not modelled.
- Picker.Test requires every bonus to be at least -2^31. The source's `int` guarantees this.
- The caller of `test()` indexes the spot list with its result even when the list is empty. That caller is not part of this model.
- 32-bit overflow of the counters is not modelled. Counters that match the board stay between 0 and 64. A move changes any counter by at most 64, and a game has at most 60 moves, so no counter comes near 2^31.
- The `Point(float, float)` constructor's conversion is not modelled. Coordinates are integers, and every argument in the source is one.
