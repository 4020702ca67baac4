/** Minesweeper/MinesweeperEngine.cs: the second, simpler engine.  Its grid
    of cells is a W x H array with a one-cell border whose cells are in the
    Border state; every interior cell holds a mine with chance 1/5 at the
    start.  It digs one cell at a time and computes counts on demand. */
module Engines {
  import opened Cells
  import opened Grids
  import opened Boards

  // Playing-field sizes of the three presets (columns, rows).
  const EASY_X_PRESET: int := 11
  const EASY_Y_PRESET: int := 5
  const MEDIUM_X_PRESET: int := 15
  const MEDIUM_Y_PRESET: int := 10
  const HARD_X_PRESET: int := 31
  const HARD_Y_PRESET: int := 20

  // The symbols SetSymbol gives the player's cell.
  const DEFAULT_SYMBOL: char := '.'
  const DIGGED_SYMBOL: char := ' '
  const FLAG_SYMBOL: char := '|'

  /** The engine's board: border cells are in the Border state and hold no
      mine; no interior cell is ever in the Border state. */
  ghost predicate Framed(g: Grid, w: int, h: int)
    requires Rectangular(g, w, h)
  {
    forall x, y :: InGrid(w, h, x, y) ==>
      if IsBorder(w, h, x, y) then g[x][y].state == Border && !g[x][y].isMine else g[x][y].state != Border
  }

  /** The cell StartGame leaves at (x, y): a default cell, put in the
      Border state on the border and given a mine inside when the roll
      drawn for it is 0. */
  function StartCell(w: int, h: int, roll: (int, int) -> int, x: int, y: int): Cell {
    if IsBorder(w, h, x, y) then DefaultCell.(state := Border)
    else DefaultCell.(isMine := roll(x, y) == 0)
  }

  /** The single digit `n.ToString().First()` gives for a count from 1 to 9. */
  function Digit(n: int): (c: char)
    requires 1 <= n <= 9
    ensures '1' <= c <= '9' && c as int - '0' as int == n
  {
    ('0' as int + n) as char
  }

  /** Over a framed grid the scan of AllWihoutMinesHasDigged, which counts
      mines and dug cells without a mine over the whole grid, holds exactly
      when every interior cell without a mine is dug. */
  lemma {:induction false} ScanMeansCleared(g: Grid, w: int, h: int)
    requires Rectangular(g, w, h) && 2 <= w && 2 <= h && Framed(g, w, h)
    ensures (w - 2) * (h - 2) - Count(g, 0, w, 0, h, IsMine) == Count(g, 0, w, 0, h, IsDugSafe)
        <==> Cleared(g, w, h)
  {
    CountInterior(g, w, h, IsMine);
    CountInterior(g, w, h, IsDugSafe);
    var safe := Partition(g, w, h);
    CountZero(g, 1, w - 1, 1, h - 1, IsSafeUndug);
  }

  /** The mines of the 3x3 block around (x, y), given its nine cells in
      the order GetMinesCountAround reads them. */
  lemma BlockOfNine(g: Grid, x: int, y: int, c1: Cell, c2: Cell, c3: Cell, c4: Cell, c5: Cell, c6: Cell,
                    c7: Cell, c8: Cell, c9: Cell)
    requires Box(g, x - 1, x + 2, y - 1, y + 2)
    requires c1 == g[x - 1][y - 1] && c2 == g[x][y - 1] && c3 == g[x + 1][y - 1]
    requires c4 == g[x - 1][y] && c5 == g[x][y] && c6 == g[x + 1][y]
    requires c7 == g[x - 1][y + 1] && c8 == g[x][y + 1] && c9 == g[x + 1][y + 1]
    ensures Count3x3(g, x, y, IsMine) == Ind(c1.isMine) + Ind(c2.isMine) + Ind(c3.isMine) + Ind(c4.isMine) +
              Ind(c5.isMine) + Ind(c6.isMine) + Ind(c7.isMine) + Ind(c8.isMine) + Ind(c9.isMine)
  {
    Count3x3Terms(g, x, y, IsMine);
  }

  class MinesweeperEngine {
    var gridX: int
    var gridY: int
    var playerX: int
    var playerY: int
    /** Grid, indexed [x, y]. */
    var cells: array2<Cell>
    /** The contents of cells as a value. */
    ghost var grid: Grid

    ghost predicate Tied()
      reads this, cells
    {
      cells.Length0 == gridX && cells.Length1 == gridY && Rectangular(grid, gridX, gridY) &&
      forall x, y :: 0 <= x < gridX && 0 <= y < gridY ==> cells[x, y] == grid[x][y]
    }

    /** A started game whose playing field has at least one cell, with the
        player on it. */
    ghost predicate Valid()
      reads this, cells
    {
      Tied() && 3 <= gridX && 3 <= gridY && IsInterior(gridX, gridY, playerX, playerY) &&
      Framed(grid, gridX, gridY)
    }

    /** MinesweeperEngine(): a medium game.  roll(x, y) stands for the
        Random.Shared.Next(5) drawn for the interior cell (x, y). */
    constructor (roll: (int, int) -> int)
      ensures Valid() && gridX == MEDIUM_X_PRESET + 2 && gridY == MEDIUM_Y_PRESET + 2
    {
      cells := new Cell[0, 0];
      grid := [];
      new;
      StartMediumGame(roll);
    }

    method StartEasyGame(roll: (int, int) -> int)
      modifies this
      ensures Valid() && gridX == EASY_X_PRESET + 2 && gridY == EASY_Y_PRESET + 2
    {
      StartGame(EASY_X_PRESET, EASY_Y_PRESET, roll);
    }

    method StartMediumGame(roll: (int, int) -> int)
      modifies this
      ensures Valid() && gridX == MEDIUM_X_PRESET + 2 && gridY == MEDIUM_Y_PRESET + 2
    {
      StartGame(MEDIUM_X_PRESET, MEDIUM_Y_PRESET, roll);
    }

    method StartHardGame(roll: (int, int) -> int)
      modifies this
      ensures Valid() && gridX == HARD_X_PRESET + 2 && gridY == HARD_Y_PRESET + 2
    {
      StartGame(HARD_X_PRESET, HARD_Y_PRESET, roll);
    }

    /** StartGame(x, y): an (x + 2) x (y + 2) grid, the player in the
        bottom-right playable cell, border cells in the Border state and a
        mine on each interior cell whose roll is 0.  A negative size, or a
        zero one that puts the player on the border, is not guarded by the
        source.  A negative size makes StartGame throw: a size of -3 or less
        fails the array allocation, and -1 or -2 fails the cursor write at
        a negative index. */
    method StartGame(x: int, y: int, roll: (int, int) -> int)
      requires 0 <= x && 0 <= y
      modifies this
      ensures gridX == x + 2 && gridY == y + 2 && playerX == x && playerY == y
      ensures fresh(cells) && Tied()
      ensures forall i, j :: InGrid(gridX, gridY, i, j) && IsBorder(gridX, gridY, i, j) ==>
                grid[i][j].state == Border && !grid[i][j].isMine
      ensures forall i, j :: IsInterior(gridX, gridY, i, j) ==>
                grid[i][j].state == Default && (grid[i][j].isMine <==> roll(i, j) == 0)
      ensures forall i, j :: InGrid(gridX, gridY, i, j) ==> grid[i][j].minesAround == 0
      ensures 1 <= x && 1 <= y ==> Valid()
    {
      var w, h := x + 2, y + 2;
      var a := new Cell[w, h]((i, j) => DefaultCell);
      for yI := 0 to h
        invariant forall i, j :: 0 <= i < w && 0 <= j < yI ==> a[i, j] == StartCell(w, h, roll, i, j)
      {
        for xI := 0 to w
          invariant forall i, j :: 0 <= i < w && 0 <= j < yI ==> a[i, j] == StartCell(w, h, roll, i, j)
          invariant forall i :: 0 <= i < xI ==> a[i, yI] == StartCell(w, h, roll, i, yI)
        {
          a[xI, yI] := StartCell(w, h, roll, xI, yI);
        }
      }
      gridX, gridY := w, h;
      playerX, playerY := w - 2, h - 2;
      cells := a;
      grid := seq(w, i => seq(h, j => StartCell(w, h, roll, i, j)));
    }

    /** Dig: a flagged cell is left alone and the player lives on; otherwise
        the player's cell is dug, and the player lives on exactly when it
        holds no mine. */
    method Dig() returns (alive: bool)
      requires Valid()
      modifies this`grid, cells
      ensures Valid()
      ensures old(grid[playerX][playerY].state) == Flag ==> alive && grid == old(grid)
      ensures old(grid[playerX][playerY].state) != Flag ==>
                grid == Put(old(grid), playerX, playerY, old(grid)[playerX][playerY].(state := Digged)) &&
                (alive <==> !grid[playerX][playerY].isMine)
    {
      if cells[playerX, playerY].state == Flag {
        return true;
      }
      SetState(Digged);
      var _ := SetSymbol();
      alive := !cells[playerX, playerY].isMine;
    }

    /** Grid[_playerX, _playerY].State = s, for a state other than Border. */
    method SetState(s: State)
      requires Valid() && s != Border
      modifies this`grid, cells
      ensures Valid()
      ensures grid == Put(old(grid), playerX, playerY, old(grid)[playerX][playerY].(state := s))
    {
      cells[playerX, playerY] := cells[playerX, playerY].(state := s);
      grid := Put(grid, playerX, playerY, grid[playerX][playerY].(state := s));
    }

    /** AllWihoutMinesHasDigged: scans the whole grid counting mines, and
        dug cells without a mine; the game is won when the playable cells
        minus the mines equal the dug ones.  ScanMeansCleared says what
        that means. */
    method AllWihoutMinesHasDigged() returns (won: bool)
      requires Tied()
      ensures won <==> (gridX - 2) * (gridY - 2) - Count(grid, 0, gridX, 0, gridY, IsMine)
                       == Count(grid, 0, gridX, 0, gridY, IsDugSafe)
      ensures Valid() ==> (won <==> Cleared(grid, gridX, gridY))
    {
      var minesCount, diggedCount := 0, 0;
      for y := 0 to gridY
        invariant minesCount == Count(grid, 0, gridX, 0, y, IsMine)
        invariant diggedCount == Count(grid, 0, gridX, 0, y, IsDugSafe)
      {
        var rowMines, rowDigged := 0, 0;
        for x := 0 to gridX
          invariant rowMines == CountRow(grid, 0, x, y, IsMine)
          invariant rowDigged == CountRow(grid, 0, x, y, IsDugSafe)
        {
          if cells[x, y].isMine {
            rowMines := rowMines + 1;
          } else if cells[x, y].state == Digged {
            rowDigged := rowDigged + 1;
          }
        }
        minesCount, diggedCount := minesCount + rowMines, diggedCount + rowDigged;
      }
      won := (gridX - 2) * (gridY - 2) - minesCount == diggedCount;
      if Valid() {
        ScanMeansCleared(grid, gridX, gridY);
      }
    }

    /** GetMinesCountAround: the mines of the 3x3 block around the player,
        its own cell included, added term by term. */
    method GetMinesCountAround() returns (minesCount: int)
      requires Tied() && IsInterior(gridX, gridY, playerX, playerY)
      ensures minesCount == Count3x3(grid, playerX, playerY, IsMine)
      ensures 0 <= minesCount <= 9
    {
      var x, y := playerX, playerY;
      var cell1 := cells[x - 1, y - 1];
      var cell2 := cells[x, y - 1];
      var cell3 := cells[x + 1, y - 1];
      var cell4 := cells[x - 1, y];
      var cell5 := cells[x, y];
      var cell6 := cells[x + 1, y];
      var cell7 := cells[x - 1, y + 1];
      var cell8 := cells[x, y + 1];
      var cell9 := cells[x + 1, y + 1];
      minesCount := 0;
      if cell1.isMine { minesCount := minesCount + 1; }
      assert minesCount == Ind(cell1.isMine);
      if cell2.isMine { minesCount := minesCount + 1; }
      assert minesCount == Ind(cell1.isMine) + Ind(cell2.isMine);
      if cell3.isMine { minesCount := minesCount + 1; }
      assert minesCount == Ind(cell1.isMine) + Ind(cell2.isMine) + Ind(cell3.isMine);
      if cell4.isMine { minesCount := minesCount + 1; }
      assert minesCount == Ind(cell1.isMine) + Ind(cell2.isMine) + Ind(cell3.isMine) + Ind(cell4.isMine);
      if cell5.isMine { minesCount := minesCount + 1; }
      assert minesCount == Ind(cell1.isMine) + Ind(cell2.isMine) + Ind(cell3.isMine) + Ind(cell4.isMine) + Ind(cell5.isMine);
      if cell6.isMine { minesCount := minesCount + 1; }
      assert minesCount == Ind(cell1.isMine) + Ind(cell2.isMine) + Ind(cell3.isMine) + Ind(cell4.isMine) + Ind(cell5.isMine) + Ind(cell6.isMine);
      if cell7.isMine { minesCount := minesCount + 1; }
      assert minesCount == Ind(cell1.isMine) + Ind(cell2.isMine) + Ind(cell3.isMine) + Ind(cell4.isMine) + Ind(cell5.isMine) + Ind(cell6.isMine) + Ind(cell7.isMine);
      if cell8.isMine { minesCount := minesCount + 1; }
      assert minesCount == Ind(cell1.isMine) + Ind(cell2.isMine) + Ind(cell3.isMine) + Ind(cell4.isMine) + Ind(cell5.isMine) + Ind(cell6.isMine) + Ind(cell7.isMine) + Ind(cell8.isMine);
      if cell9.isMine { minesCount := minesCount + 1; }
      assert minesCount == Ind(cell1.isMine) + Ind(cell2.isMine) + Ind(cell3.isMine) + Ind(cell4.isMine) + Ind(cell5.isMine) + Ind(cell6.isMine) + Ind(cell7.isMine) + Ind(cell8.isMine) + Ind(cell9.isMine);
      BlockOfNine(grid, x, y, cell1, cell2, cell3, cell4, cell5, cell6, cell7, cell8, cell9);
    }

    /** SetFlag: a flag is taken off, an untouched cell is flagged, and a
        dug cell stays as it is. */
    method SetFlag()
      requires Valid()
      modifies this`grid, cells
      ensures Valid()
      ensures old(grid[playerX][playerY].state) == Flag ==>
                grid == Put(old(grid), playerX, playerY, old(grid)[playerX][playerY].(state := Default))
      ensures old(grid[playerX][playerY].state) == Default ==>
                grid == Put(old(grid), playerX, playerY, old(grid)[playerX][playerY].(state := Flag))
      ensures old(grid[playerX][playerY].state) == Digged ==> grid == old(grid)
    {
      var s := cells[playerX, playerY].state;
      if s == Flag {
        SetState(Default);
      } else if s == Default {
        SetState(Flag);
      }
      var _ := SetSymbol();
    }

    /** SetSymbol, as the symbol it gives the player's cell: '.' untouched,
        '|' flagged, and for a dug cell the digit of its 3x3 mine count, or
        ' ' when the count is zero. */
    method SetSymbol() returns (symbol: char)
      requires Valid()
      ensures grid[playerX][playerY].state == Default ==> symbol == DEFAULT_SYMBOL
      ensures grid[playerX][playerY].state == Flag ==> symbol == FLAG_SYMBOL
      ensures grid[playerX][playerY].state == Digged ==>
                var n := Count3x3(grid, playerX, playerY, IsMine);
                if n == 0 then symbol == DIGGED_SYMBOL else '1' <= symbol <= '9' && symbol as int - '0' as int == n
    {
      var s := cells[playerX, playerY].state;
      if s == Default {
        symbol := DEFAULT_SYMBOL;
      } else if s == Flag {
        symbol := FLAG_SYMBOL;
      } else {
        assert s == Digged;
        var minesCount := GetMinesCountAround();
        symbol := if minesCount != 0 then Digit(minesCount) else DIGGED_SYMBOL;
      }
    }

    method MoveUp()
      requires Valid()
      modifies this`playerY
      ensures Valid() && playerX == old(playerX)
      ensures playerY == if old(playerY) == 1 then 1 else old(playerY) - 1
    {
      var newY := playerY - 1;
      if IsBorder(gridX, gridY, playerX, newY) {
        return;
      }
      var _ := SetSymbol();
      playerY := newY;
    }

    method MoveDown()
      requires Valid()
      modifies this`playerY
      ensures Valid() && playerX == old(playerX)
      ensures playerY == if old(playerY) == gridY - 2 then old(playerY) else old(playerY) + 1
    {
      var newY := playerY + 1;
      if IsBorder(gridX, gridY, playerX, newY) {
        return;
      }
      var _ := SetSymbol();
      playerY := newY;
    }

    method MoveRight()
      requires Valid()
      modifies this`playerX
      ensures Valid() && playerY == old(playerY)
      ensures playerX == if old(playerX) == gridX - 2 then old(playerX) else old(playerX) + 1
    {
      var newX := playerX + 1;
      if IsBorder(gridX, gridY, newX, playerY) {
        return;
      }
      var _ := SetSymbol();
      playerX := newX;
    }

    method MoveLeft()
      requires Valid()
      modifies this`playerX
      ensures Valid() && playerY == old(playerY)
      ensures playerX == if old(playerX) == 1 then 1 else old(playerX) - 1
    {
      var newX := playerX - 1;
      if IsBorder(gridX, gridY, newX, playerY) {
        return;
      }
      var _ := SetSymbol();
      playerX := newX;
    }
  }
}
