# Minesweeper board engines in Dafny

This project models the two board engines of the console Minesweeper game
and proves what each of them promises.

`Game` (Minesweeper/Game.cs) is the full engine:
- a W x H map of cells with a one-cell border;
- mines placed by rejection sampling;
- each playable cell's count of mines in its 3x3 block, the cell itself included;
- a first dig that never hits a mine, because the mine is moved away first;
- a breadth-first flood reveal from cells whose count is zero;
- the chord: a dig on a numbered cell whose flags match its count digs the rest of its block;
- flag toggling with a flag counter, cursor moves that refuse the border, and a win test on the dug-cell counter.

`MinesweeperEngine` (Minesweeper/MinesweeperEngine.cs) is the second, simpler engine. Its mines are random per cell. It digs one cell at a time and finds the win by scanning the whole grid.

`GameInfo`, `Difficulty` and `Cell` supply the state record, the presets and the cell type.

Modules, one per source file plus two shared ones:

| module | file | models |
|---|---|---|
| `Cells` | cell.dfy | `Cell` and `State` from Cell.cs |
| `Difficulties` | difficulty.dfy | `Difficulty` and the three presets |
| `Info` | game_info.dfy | `GameInfo` as a class with its settable counters; the default-cell colour and `NumberColors` |
| `Grids` | grid.dfy | positions, the border test, and counting cells with a property over a rectangle |
| `Boards` | board.dfy | the shape of Game.cs's board and the invariants that tie GameInfo's counters to it; lemmas about mine moves, chords and the win test |
| `Games` | game.dfy | `Game` as a class over an `array2<Cell>` |
| `Engines` | engine.dfy | `MinesweeperEngine` as a class over an `array2<Cell>` |

Modelling decisions:
- **Cell.** A cell is the value `Cell(x, y, isMine, state, minesAround)`.
  - Game.cs builds cells with `new Cell(x, y)`, so `x` and `y` are kept. Cell.cs itself has only `IsMine`, `State`, `Symbol` and `MinesAround`.
  - `Symbol` and `Color` are presentation and are not stored.
  - `State` gets a `Border` member, because MinesweeperEngine.cs assigns and tests `State.Border` and Cell.cs's enum lacks it. Game.cs never uses that member: its border cells stay `Default`.
  - A fresh engine cell is `default(Cell)`: no mine, `Default`, count 0.
- **Write-back.** Game.cs updates cells it has read out of the map into locals. The model writes every such update back into the map, which is the behaviour the engine relies on.
  - Each class keeps a ghost `grid: seq<seq<Cell>>` equal to the array, tied by `Tied()`.
  - Every method states its new `grid` in terms of the old one.
- **Game.Valid().** Between two actions, `Game.Valid()` holds:
  - the board is laid out (every cell knows its position; the border is untouched);
  - every playable cell holds its 3x3 mine count;
  - `DiggedCount` is the number of dug cells;
  - `FlagsCount` plus the flags on the board is `MinesCount`, which is the number of mines;
  - nothing is dug or flagged before the first move;
  - a running game has no dug mine.
- **Randomness.** `Random.Shared` is not modelled.
  - Game.cs: the draws become a parameter `draws: seq<Pos>` of in-range positions.
  - MinesweeperEngine.cs: each cell's `Random.Shared.Next(5)` becomes a parameter `roll(x, y)`.
- **Flood.** Three predicates state what BfsDig achieves: it digs everything it should (`Expanded`, `Flooded`) and nothing else (`Sourced`).
  - `Expanded(g, x, y)`: if the count of (x, y) is zero, every playable, unflagged cell of its block is dug.
  - `Flooded(g0, g, queue)`: every playable cell dug between board g0 and board g is still in `queue` or is expanded.
  - `Sourced(g0, g, s)`: every playable cell dug between g0 and g, other than the start s, lies in the block of a cell with count zero that is s or was dug in between.
  - BfsDig's queue loop keeps `Flooded(g0, grid, queue)` and `Sourced(g0, grid, s)`. When the queue runs empty, every cell the search dug is expanded, the start cell included. A stopped game returns early, so these promises hold only while the game runs.
- **Counting.** All counts are over the playable rectangle, columns 1..W-2 and rows 1..H-2. MinesweeperEngine's scan counts over the whole grid, and a lemma bridges the two.

## Model

| member | source | states |
|---|---|---|
| Grids.BorderIsFrame | Minesweeper/Game.cs:93-98 | Inside the grid, `IsBorder` holds exactly on the cells that are not playable: first or last column or row. MinesweeperEngine.cs:82-87 is the same test. |
| Games.Game.constructor | Minesweeper/Game.cs:31 | A new Game has a 10 x 10 map and no GameInfo yet. |
| Games.Game.TryGetRandomPositionWithoutBorderAndMine | Minesweeper/Game.cs:99-108 | The draw is returned unchanged, and it is accepted exactly when it is off the border and holds no mine. |
| Games.Game.CountMinesInBlock | Minesweeper/Game.cs:120-123 | The two inner loops count exactly the mines of the 3x3 block, centre included. |
| Games.Game.StoreMinesAround | Minesweeper/Game.cs:120-126 | The cell's stored count becomes its 3x3 count on the board as it stood before the recount. Only that cell changes, and the layout is kept. |
| Games.Game.StoreRow | Minesweeper/Game.cs:115-127 | Every playable cell of the row gets its count. Border cells and other rows are unchanged. |
| Games.Game.SetMinesCountAround | Minesweeper/Game.cs:109-129 | Afterwards every playable cell holds the number of mines in its 3x3 block, itself included. Nothing but the counts changes. |
| Boards.RecountDone | Minesweeper/Game.cs:109-129 | Once every playable cell has been recounted against a board with the same mines, the board satisfies `Adjacent`. |
| Boards.ZeroCountMeansNoMineAround | Minesweeper/Game.cs:200-203 | A cell BfsDig expands from (count 0) has no mine anywhere in its block. |
| Boards.MinesAroundInRange | Minesweeper/Game.cs:300-303 | A stored count is between 0 and 9, and at most 8 on a cell without a mine. |
| Info.NumberColorsDomain | Minesweeper/GameInfo.cs:21-31 | `NumberColors` has a key for exactly the counts 1..8. With MinesAroundInRange, SetDigged's lookup on a dug safe cell with a nonzero count always finds a colour. |
| Games.Game.NewBoard | Minesweeper/Game.cs:39-62 | A fresh GameInfo and a W x H map of `new Cell(x, y)`. Every cell knows its own position, and there are no mines. |
| Boards.FreshBoard | Minesweeper/Game.cs:41-62 | The map of `new Cell(x, y)` is laid out and has no mine. |
| Games.Game.PlaceMines | Minesweeper/Game.cs:69-85 | Only mines change, and only on playable cells. At most MinesCount are placed. When the loop ends, exactly MinesCount are placed and MinesCount < (W-2)(H-2): the extra good draw that ends the loop needs a free cell. |
| Boards.FreeCellBound | Minesweeper/Game.cs:76-84 | A playable cell without a mine means there are fewer mines than playable cells. |
| Games.Game.Init | Minesweeper/Game.cs:36-91 | GameInfo is initialised from the difficulty and every playable cell is untouched. When the mine loop ends, exactly MinesCount mines are placed, the counts are set and `Valid()` holds. |
| Games.Game.InitEasy | Minesweeper/Game.cs:33 | The board is 11 x 11 with preset 1; once placed there are 10 mines and `Valid()`. |
| Games.Game.InitMedium | Minesweeper/Game.cs:34 | The board is 19 x 19 with preset 2; once placed there are 40 mines and `Valid()`. |
| Games.Game.InitHigh | Minesweeper/Game.cs:35 | The board is 33 x 18 with preset 3; once placed there are 99 mines and `Valid()`. |
| Difficulties.PresetsRoundTrip | Minesweeper/Game.cs:25-27 | Each preset has fewer mines than cells. Looking up its preset number gives the same difficulty back. |
| Difficulties.DifficultyForPreset | Minesweeper/Game.cs:289-294 | The restart switch returns a playable difficulty that carries the preset it was asked for. |
| Games.Game.Restart | Minesweeper/Game.cs:289-296 | A restart rebuilds the board for the preset kept in GameInfo, with that preset's size and mines. |
| Games.Game.StopGame | Minesweeper/Game.cs:322-325 | The game is no longer running. Only that flag changes. |
| Games.Game.MarkDug | Minesweeper/Game.cs:240-244 | The cell becomes Digged. DiggedCount grows by one exactly when the cell was not dug before. |
| Boards.DigCell | Minesweeper/Game.cs:240-276 | Digging a playable, unflagged cell keeps the counters consistent. The dug count grows exactly for an untouched cell, and a dug mine appears exactly when the cell holds one. |
| Games.Game.DigAndUpdateDiggedStat | Minesweeper/Game.cs:235-279 | Border and flagged cells are left alone and nothing else changes. Otherwise the cell is dug, the first move is over, and `Valid()` is kept. The game stops exactly when a mine is dug. A first dig onto a mine leaves the cell dug and mine-free. In a running game, every cell dug other than this one is expanded (`Flooded` with queue [cell]). Every other cell dug is `Sourced` from a zero-count cell, and when the cell's count is nonzero no other cell changes state. |
| Games.Game.DigPlain | Minesweeper/Game.cs:240-276 | Digging outside the first-move relocation changes only the cell's state. The dug counter moves as MarkDug says, and the game stops exactly on a mine. |
| Games.Game.DigFirstMine | Minesweeper/Game.cs:246-266 | A first dig onto a mine ends with the player's cell dug and mine-free, no dug mine anywhere and `Valid()` kept. No other cell changes state. |
| Games.Game.RelocateFirstMine | Minesweeper/Game.cs:252-262 | The mine moves from the player's cell to a drawn playable cell q that held none. q is never the player's cell, and nothing else changes (corrected loop, see Findings). |
| Boards.MineMoved | Minesweeper/Game.cs:254-262 | Moving a mine to a free playable cell keeps the layout, the number of mines, and the dug and flag counts. |
| Games.Game.RelocateAndRecount | Minesweeper/Game.cs:252-265 | The relocation followed by the recount restores `Valid()`. The player's cell is dug and mine-free, and no mine is dug. No other cell changes state. |
| Boards.FirstMineMoved | Minesweeper/Game.cs:246-266 | After the first dig, the move and the recount, the counters agree with the board: the same number of mines, exactly one dug cell, no flags, no dug mine. No cell but the player's changes state. |
| Games.Game.BfsDig | Minesweeper/Game.cs:189-215 | The start cell ends dug and `Valid()` is kept. Cells only go from untouched to dug; flags, mines and counts stay unless the first move relocates. The game stops exactly when the start cell is a mine. A game that has already stopped digs only the start cell. In a running game, every cell the call dug, the start cell included, is expanded: if its count is zero, every playable, unflagged cell of its block is dug. Every cell dug other than the start lies in the block of a zero-count cell that was dug or is the start (`Sourced`). A numbered start cell is dug alone: no other cell changes state, and outside the first move the board is the old one with that cell dug. |
| Games.Game.Spread | Minesweeper/Game.cs:193-214 | The queue loop only digs untouched cells and keeps `Valid()`. It never stops a running game, and it changes nothing in a game that has stopped. In a running game, it starts with every cell dug since g0 queued or expanded, and it ends with all of them expanded, the start cell included. It keeps every cell dug since g0 `Sourced`, and it changes nothing when the start cell's count is nonzero. |
| Games.Game.SpreadFrom | Minesweeper/Game.cs:198-213 | A dequeued cell with a nonzero count changes nothing: same queue, board and counter. Otherwise the old queue stays at the front. The cells appended were untouched playable cells of its block and are now dug, as many as were dug in all. Every cell dug is among the appended ones, lies in the block of the dequeued cell, and that cell's count is zero. In a running game the dequeued cell is expanded afterwards. |
| Games.Game.DigNeighbours | Minesweeper/Game.cs:203-213 | `added` lists, as `Gathered` states, exactly the cells dug: each is a playable neighbour that was untouched, and DiggedCount grows by its length. Without the early return, every playable, unflagged neighbour ends dug and every untouched one is in `added`. The early return happens only in a stopped game. |
| Games.Game.DigFirstMineAndSpread | Minesweeper/Game.cs:246-266 | A first dig onto a mine moves the mine away, digs the player's cell and floods from it. No mine is dug and the running state is kept. In a running game every other cell dug is expanded. Every other cell dug is `Sourced`, and when the recomputed count of the player's cell is nonzero no other cell changes state. |
| Boards.ExpandedStays | Minesweeper/Game.cs:196-214 | Later digging never undoes an expansion: dug cells stay dug, and flags and counts stay. |
| Boards.PendingStep | Minesweeper/Game.cs:196-199 | A cell that was queued or expanded before a turn of the queue loop is still queued or expanded after it. |
| Boards.FloodStep | Minesweeper/Game.cs:196-214 | A turn of the queue loop keeps `Flooded`: the dequeued cell is expanded, the rest of the queue stays in front, and the cells the turn dug join the queue. |
| Boards.FloodedTrans | Minesweeper/Game.cs:179-180 | Two finished floods in a row make one finished flood. |
| Boards.FirstFlood | Minesweeper/Game.cs:246-266 | The relocation digs only the player's cell, so after its BfsDig, only that cell may still be unexpanded. |
| Boards.ParentStays | Minesweeper/Game.cs:196-214 | Later digging keeps the zero-count cell a dug cell was reached from. |
| Boards.SourcedStep | Minesweeper/Game.cs:196-214 | A turn of the queue loop keeps `Sourced`: it digs only in the block of the dequeued cell, only when that count is zero, and the dequeued cell is the start or was dug by the flood. |
| Boards.FirstSourced | Minesweeper/Game.cs:246-266 | The relocation digs only the player's cell, so its BfsDig's sources stay valid from the board before the dig. |
| Boards.DugOnlyAt | Minesweeper/Game.cs:240-244 | Digging one cell, or none, keeps every other state and leaves nothing to flood or to source. |
| Games.QueueStep | Minesweeper/Game.cs:196-212 | Every cell in the queue is the start or was dug by the flood, and a turn of the loop keeps it so. |
| Games.SearchStep | Minesweeper/Game.cs:196-214 | A turn of the queue loop keeps `Searching`: cells only go from untouched to dug, the queue holds only the start or cells the flood dug, every dug cell stays `Sourced`, and in a running game every dug cell stays queued or expanded. |
| Games.GatherStep | Minesweeper/Game.cs:205-212 | Queuing and digging one more untouched neighbour keeps the queued list equal to the set of cells dug, each of them now dug. |
| Games.GatherDone | Minesweeper/Game.cs:203-213 | Once every playable, unflagged neighbour is dug, every neighbour that was untouched has been queued. |
| Boards.BlockAt | Minesweeper/Game.cs:217-234 | GetCellsAround's walk over the block, row by row: the k-th position is in the 3x3 block. |
| Boards.BlockAtOnto | Minesweeper/Game.cs:219-222 | The walk reaches every cell of the block. |
| Games.Game.GetFlaggedCellsAround | Minesweeper/Game.cs:311-321 | The result is the flagged cells of the block, row by row. Its length is the number of flags in the block. |
| Games.Game.FlaggedCellsOfRow | Minesweeper/Game.cs:316-318 | The inner loop collects the flagged cells of one row, left to right. |
| Boards.FlaggedCount | Minesweeper/Game.cs:311-321 | The flag list is as long as the number of flags in the rectangle. |
| Boards.FlaggedComplete | Minesweeper/Game.cs:311-321 | Every flagged cell of the rectangle is in the list. |
| Boards.FlaggedAt | Minesweeper/Game.cs:311-321 | Every entry of the list is a flagged cell of the rectangle. |
| Games.Game.StopOnWrongFlag | Minesweeper/Game.cs:175-177 | After the loop, the game is running exactly when it was running before and every listed flag covers a mine. |
| Games.Game.DigUnlessFlagged | Minesweeper/Game.cs:179-180 | One step of the chord's walk: the k-th block position is flagged or dug afterwards, and earlier positions stay so. In a running game, every cell it dug is expanded. |
| Boards.SettledAround | Minesweeper/Game.cs:179-180 | Once all nine positions are settled, every playable unflagged cell of the block is dug. |
| Games.Game.DigAround | Minesweeper/Game.cs:179-180 | Every playable, unflagged cell of the block is dug. The game stops exactly when a mine has been dug. In a running game, every cell it dug is expanded. |
| Boards.ChordHitsMine | Minesweeper/Game.cs:173-180 | When the flags in the block number the count but one flag has no mine under it, an unflagged playable mine lies in the block. |
| Boards.WrongFlagLoses | Minesweeper/Game.cs:173-180 | A chord over a wrong flag digs a mine. |
| Boards.ChordDigsMine | Minesweeper/Game.cs:173-181 | After a chord, no mine is dug only if none was dug before and every flag in the block lies on a mine. |
| Boards.ChordListDigsMine | Minesweeper/Game.cs:171-181 | The same, stated for the flag list Dig walks. |
| Boards.DigKeepsChordFires | Minesweeper/Game.cs:169-173 | The dig before the chord does not change whether the chord fires. On the first move it never fires, since there are no flags yet. |
| Games.Game.Chord | Minesweeper/Game.cs:171-181 | When the flags around the player are nonzero and equal its count, every playable unflagged cell of the block is dug. Otherwise nothing changes. The game stops exactly when a mine is dug. In a running game, every cell it dug is expanded. |
| Games.Game.ChordAfterDig | Minesweeper/Game.cs:171-181 | The chord that follows the dig keeps `Valid()`. Whether it fires is decided on the board before the dig, and when it does not fire nothing changes. In a running game, the flood of the dig stays complete: every cell dug since that board is expanded, and so is the player's cell. |
| Games.Game.DigAndChord | Minesweeper/Game.cs:169-181 | The dig and the chord: the player's cell ends dug, and the block is dug if the chord fired. The game stops exactly when a mine is dug. A first move never stops it. In a running game, every cell dug is expanded, the player's cell included. A numbered player cell without a firing chord is dug alone: no other cell changes state, and outside the first move the board is the old one with that cell dug. |
| Boards.WinTestMeansCleared | Minesweeper/Game.cs:326-329 | With exact counters and no dug mine, the win test holds exactly when every playable cell without a mine is dug. |
| Boards.Partition | Minesweeper/Game.cs:326-329 | The playable cells that are not mines split into dug and undug ones. |
| Boards.WonMeansCleared | Minesweeper/Game.cs:183-187 | With the loss checked first, a win is reported exactly for a running game whose safe cells are all dug, and a loss exactly for a stopped one. |
| Games.Game.EndOfDig | Minesweeper/Game.cs:183-187 | End-of-dig as intended: Won exactly when the game was running and the board is cleared; Lost exactly when it had stopped. The game stops unless the outcome is Continue. |
| Games.Game.Dig | Minesweeper/Game.cs:162-188 | A flagged player cell makes Dig a no-op. Otherwise the cell is dug and a fired chord digs the block. Won means no mine was dug and the board is cleared; Lost means a mine was dug or the game had stopped (corrected order via EndOfDig, see Findings). A first move is never lost. Unless the dig is lost, every cell it dug is expanded, the player's cell included. A numbered player cell without a firing chord is dug alone. |
| Boards.ToggleFlag | Minesweeper/Game.cs:370-387 | Flagging an untouched cell or unflagging a flag keeps FlagsCount plus the flags on the board equal to MinesCount. |
| Boards.FlagRoundTrip | Minesweeper/Game.cs:358-369 | Flagging an untouched cell and taking the flag off gives back the same board. |
| Games.Game.Toggle | Minesweeper/Game.cs:377-386 | SetFlag lowers FlagsCount by one and SetDefault raises it by one. Only the player's cell state changes, and `Valid()` is kept. |
| Games.Game.SetFlagAndUpdateFlagsInStat | Minesweeper/Game.cs:370-387 | Nothing changes on the first move or on a dug cell. Default becomes Flag with FlagsCount one lower; Flag becomes Default with FlagsCount one higher. |
| Games.Game.Move | Minesweeper/Game.cs:337-357 | A border target leaves the player where they are. Otherwise the player moves there. No cell changes either way. |
| Games.Game.MoveUp | Minesweeper/Game.cs:332 | y falls by one unless the player is on the top row. |
| Games.Game.MoveDown | Minesweeper/Game.cs:333 | y rises by one unless the player is on the bottom row. |
| Games.Game.MoveRight | Minesweeper/Game.cs:334 | x rises by one unless the player is on the right-most column. |
| Games.Game.MoveLeft | Minesweeper/Game.cs:335 | x falls by one unless the player is on the left-most column. |
| Info.GameInfo.constructor | Minesweeper/GameInfo.cs:47-61 | The map is the difficulty plus 2 each way. The preset is copied. DiggedCount starts at 0, and MinesCount and FlagsCount at the mine count. The player starts at ((w+2)/2, (h+2)/2), with a first move pending and the game running. |
| Info.PlayerStartsInside | Minesweeper/GameInfo.cs:57-58 | The start position is a playable cell whenever the difficulty is at least 1 x 1. |
| Info.DefaultColorByParity | Minesweeper/GameInfo.cs:64-67 | The untouched-cell colour depends only on the parity of x + y (C# remainder), negative sums included. |
| Engines.MinesweeperEngine.constructor | Minesweeper/MinesweeperEngine.cs:5-8 | A new engine holds a medium 17 x 12 game. |
| Engines.MinesweeperEngine.StartEasyGame | Minesweeper/MinesweeperEngine.cs:32-35 | A 13 x 7 game that satisfies `Valid()`. |
| Engines.MinesweeperEngine.StartMediumGame | Minesweeper/MinesweeperEngine.cs:37-40 | A 17 x 12 game that satisfies `Valid()`. |
| Engines.MinesweeperEngine.StartHardGame | Minesweeper/MinesweeperEngine.cs:42-45 | A 33 x 22 game that satisfies `Valid()`. |
| Engines.MinesweeperEngine.StartGame | Minesweeper/MinesweeperEngine.cs:47-79 | The grid is (x+2) x (y+2) with the player at (x, y). Border cells are Border and mine-free. An interior cell is Default and holds a mine exactly when its roll is 0. Every count is 0. |
| Engines.MinesweeperEngine.Dig | Minesweeper/MinesweeperEngine.cs:117-131 | A flag makes Dig return true with nothing changed. Otherwise the player's cell becomes Digged and the result is false exactly when it is a mine. |
| Engines.MinesweeperEngine.AllWihoutMinesHasDigged | Minesweeper/MinesweeperEngine.cs:133-149 | The result is the scan's comparison, which on a framed grid holds exactly when every playable cell without a mine is dug. |
| Engines.ScanMeansCleared | Minesweeper/MinesweeperEngine.cs:133-149 | Over a framed grid, (W-2)(H-2) minus the mines equals the dug safe cells exactly when every playable cell is a mine or dug. |
| Engines.MinesweeperEngine.GetMinesCountAround | Minesweeper/MinesweeperEngine.cs:151-189 | The result is the number of mines in the 3x3 block around the player, centre included, between 0 and 9. |
| Engines.BlockOfNine | Minesweeper/MinesweeperEngine.cs:153-186 | The nine named cells summed one by one give the 3x3 count. |
| Engines.MinesweeperEngine.SetFlag | Minesweeper/MinesweeperEngine.cs:192-200 | Flag becomes Default, Default becomes Flag, and a dug cell is unchanged. Nothing else changes. |
| Engines.MinesweeperEngine.SetSymbol | Minesweeper/MinesweeperEngine.cs:202-223 | The symbol is '.' for an untouched cell and '\|' for a flag. A dug cell shows ' ' when its block count is 0, otherwise the digit of that count. |
| Engines.Digit | Minesweeper/MinesweeperEngine.cs:217-219 | The first character of a count from 1 to 9 is the digit whose value is the count. |
| Engines.MinesweeperEngine.MoveUp | Minesweeper/MinesweeperEngine.cs:226-237 | y falls by one unless that reaches the border. No cell changes. |
| Engines.MinesweeperEngine.MoveDown | Minesweeper/MinesweeperEngine.cs:239-250 | y rises by one unless that reaches the border. No cell changes. |
| Engines.MinesweeperEngine.MoveRight | Minesweeper/MinesweeperEngine.cs:252-263 | x rises by one unless that reaches the border. No cell changes. |
| Engines.MinesweeperEngine.MoveLeft | Minesweeper/MinesweeperEngine.cs:265-276 | x falls by one unless that reaches the border. No cell changes. |
| Games.RelocationLosesMine | Minesweeper/Game.cs:254-262 | As written, a first draw onto the border or onto another mine ends the relocation loop with one mine fewer than MinesCount. |
| Boards.LosingDigReportedAsWin | Minesweeper/Game.cs:183-187 | As written, a dig onto a mine with exactly one safe cell left still closed is reported as Won; the intended order reports Lost. |

## Left out

- Console output is not modelled: ConsoleRenderer.cs, `Game.Run`, `HandleInput`, MinesweeperEngine's `PrintGrid` and `ShowGrid`, and every `ConsoleRenderer` call inside the engines.
- Control.cs and Program.cs are not modelled: they only dispatch keys and loop on input.
- Cell symbols and colours are not modelled, and neither is `SetDigged`, which only sets them. They are presentation; `SetSymbol` is modelled as the symbol it would store.
- The end of `Game.GameOver` is reduced to its outcome. The game-over screen and the "R" prompt are console input; the restart itself is `Games.Game.Restart`.
- `StartDate` and `GetTimeDifference` are not modelled: they read the wall clock.
- The catch of `ArgumentOutOfRangeException` in `Run` is not modelled. The model proves that every map access is in bounds.
- `Random.Shared` is replaced by parameters: the draws of Game.cs and the rolls of MinesweeperEngine.cs. Nothing about their distribution is modelled.
- Games.Game.Init: the source's mine loop runs until it succeeds and never gives up. The model stops when the draws run out and returns `placed == false`. Its guarantees about the mines then hold only for `placed == true`.
- Games.Game.Init: requires a difficulty of at least 1 x 1 with a non-negative mine count. Init is private and only ever called with the three presets, which meet this.
- Games.Game.DigAndUpdateDiggedStat: requires that some draw is a free playable cell whenever the first dig hits a mine. Without one, the corrected relocation loop would draw forever. The source's loop instead ends at the first draw and loses the mine (see Findings).
- Games.Game.Chord, Games.Game.Dig: the soundness half of the flood (`Sourced`) is proved per BfsDig call and for a dig whose count is nonzero; it is not composed across the chord's several BfsDig calls.
- Engines.MinesweeperEngine.StartGame: requires non-negative sizes, since StartGame throws for a negative size: `new Cell[x + 2, y + 2]` fails for a size of -3 or less, and the cursor write `grid[_playerX, _playerY]` (MinesweeperEngine.cs:76) fails at index -1 or -2. `Valid()` is promised only for a playing field of at least 1 x 1.
- Game.cs's `Cell` is a struct copied out of the map. The model writes every update back into the map, so updates never go to a discarded copy.
- `Move` and `SetDefault` also restore the state of a cell the player leaves, but only to the state it already has. The model therefore leaves the board unchanged.
- Difficulty.cs and Cell.cs have no behaviour. They are the datatypes `Difficulties.Difficulty` and `Cells.Cell`/`Cells.State`. `Cells.DefaultCell` is C#'s `default(Cell)`.

## Findings

| source | as written | input that shows it | evidently intended | confidence | as-written member | corrected member |
|---|---|---|---|---|---|---|
| Minesweeper/Game.cs:254-262 | Each turn of the relocation loop first takes the mine off the player's cell, then draws. A draw on the border or on another mine jumps back to the loop test, which now finds no mine and ends the loop, so the mine is gone. | First dig onto a mine; the first draw lands on a border cell, e.g. (0, 0). | Clear the player's cell only after a good draw, so the mine always moves and MinesCount stays exact. | not executed | Games.RelocationLosesMine | Games.Game.RelocateFirstMine |
| Minesweeper/Game.cs:183-187 | The win test comes before the loss test. DiggedCount also counts a dug mine. | One safe cell and one mine left undug; the player digs the mine: DiggedCount reaches (W-2)(H-2) - MinesCount and the dig is reported as a win. | Check the loss first: a stopped game is lost, and only a running game can be won. | not executed | Boards.LosingDigReportedAsWin | Games.Game.EndOfDig |
