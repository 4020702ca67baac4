/** The cell record both engines store in their grid (Minesweeper/Cell.cs). */
module Cells {

  /** Cell.cs declares Default, Digged and Flag.  MinesweeperEngine.cs also
      assigns and tests State.Border, which the enum lacks; it is added here
      so that the engine can be modelled as written.  Game.cs never uses it:
      its border cells keep the state Default. */
  datatype State = Default | Digged | Flag | Border

  /** x and y are the coordinates Game.cs gives each cell with `new Cell(x, y)`;
      MinesweeperEngine.cs never reads them.  Symbol and Color are presentation
      and are not stored: they are derived from the state when drawn. */
  datatype Cell = Cell(x: int, y: int, isMine: bool, state: State, minesAround: int)

  /** default(Cell): what every element of a fresh `new Cell[w, h]` holds. */
  const DefaultCell: Cell := Cell(0, 0, false, Default, 0)

  /** Game.cs's `new Cell(x, y)`: a default cell that knows its position. */
  function NewCell(x: int, y: int): Cell {
    DefaultCell.(x := x, y := y)
  }

  /** The cell properties the counters count, as values so that they can
      be passed to the counting functions. */
  datatype Prop =
    | IsMine | IsDigged | IsFlagged | NotDigged
    | IsDugMine      // a mine that has been dug: the cell that ends a game
    | IsDugSafe      // a dug cell that is not a mine
    | IsSafeUndug    // a cell without a mine that still has to be dug
    | NotMine
    | IsWrongFlag    // a flagged cell without a mine under it
    | IsFlaggedMine  // a mine under a flag
    | IsUnflaggedMine
    | Anything

  /** Whether cell c has property p. */
  predicate Holds(p: Prop, c: Cell) {
    match p
    case IsMine => c.isMine
    case IsDigged => c.state == Digged
    case IsFlagged => c.state == Flag
    case NotDigged => c.state != Digged
    case IsDugMine => c.isMine && c.state == Digged
    case IsDugSafe => !c.isMine && c.state == Digged
    case IsSafeUndug => !c.isMine && c.state != Digged
    case NotMine => !c.isMine
    case IsWrongFlag => c.state == Flag && !c.isMine
    case IsFlaggedMine => c.isMine && c.state == Flag
    case IsUnflaggedMine => c.isMine && c.state != Flag
    case Anything => true
  }
}
