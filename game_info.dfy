/** Minesweeper/GameInfo.cs: the state record of one game that Game.cs reads
    and updates, with its constants that matter to play. */
module Info {
  import opened Difficulties
  import opened Grids

  /** The console colours GameInfo.cs names for cells. */
  datatype ConsoleColor = Blue | Green | Red | Magenta | Yellow | DarkBlue | DarkMagenta | DarkGray | DarkGreen

  const DEFAULT_COLOR_EVEN: ConsoleColor := Green
  const DEFAULT_COLOR_NOT_EVEN: ConsoleColor := DarkGreen

  /** The colour of each count a dug cell can show. */
  const NumberColors: map<int, ConsoleColor> :=
    map[1 := Blue, 2 := Green, 3 := Red, 4 := Magenta,
        5 := Yellow, 6 := DarkBlue, 7 := DarkMagenta, 8 := DarkGray]

  /** C#'s `/` on int truncates toward zero; Dafny's rounds down. */
  function CsDiv(a: int, b: int): int
    requires b > 0
  {
    if a >= 0 then a / b else -((-a) / b)
  }

  /** C#'s `%` on int: the remainder takes the sign of the dividend. */
  function CsRem(a: int, b: int): int
    requires b > 0
  {
    a - b * CsDiv(a, b)
  }

  /** The chequer colour of an untouched cell: even x + y gives one green,
      odd the other. */
  function GetColorForDefault(x: int, y: int): ConsoleColor {
    if CsRem(x + y, 2) == 0 then DEFAULT_COLOR_EVEN else DEFAULT_COLOR_NOT_EVEN
  }

  /** Where the player starts along a side of n playable cells:
      (n + 2) / 2 in C#. */
  function StartCoordinate(n: int): int {
    CsDiv(n + 2, 2)
  }

  class GameInfo {
    var mapWidth: int
    var mapHeight: int
    var preset: int
    var diggedCount: int
    var minesCount: int
    var flagsCount: int
    var playerX: int
    var playerY: int
    var itsFirstMove: bool
    var gameIsRunning: bool

    /** The property initialisers of GameInfo(difficulty). */
    constructor (d: Difficulty)
      ensures mapWidth == d.mapWidth + 2 && mapHeight == d.mapHeight + 2
      ensures preset == d.preset
      ensures diggedCount == 0 && minesCount == d.minesCount && flagsCount == d.minesCount
      ensures playerX == StartCoordinate(d.mapWidth) && playerY == StartCoordinate(d.mapHeight)
      ensures itsFirstMove && gameIsRunning
    {
      mapWidth := d.mapWidth + 2;
      mapHeight := d.mapHeight + 2;
      preset := d.preset;
      diggedCount := 0;
      minesCount := d.minesCount;
      flagsCount := d.minesCount;
      playerX := StartCoordinate(d.mapWidth);
      playerY := StartCoordinate(d.mapHeight);
      itsFirstMove := true;
      gameIsRunning := true;
    }
  }

  /** The chequer colour depends only on the parity of x + y, negative
      coordinates included. */
  lemma DefaultColorByParity(x: int, y: int)
    ensures GetColorForDefault(x, y) == if (x + y) % 2 == 0 then Green else DarkGreen
  {
    var a := x + y;
    if a < 0 {
      assert CsRem(a, 2) == -((-a) % 2);
    }
  }

  /** The player starts on a playable cell of the bordered grid whenever the
      difficulty has at least one column and one row. */
  lemma PlayerStartsInside(d: Difficulty)
    requires 1 <= d.mapWidth && 1 <= d.mapHeight
    ensures IsInterior(d.mapWidth + 2, d.mapHeight + 2, StartCoordinate(d.mapWidth), StartCoordinate(d.mapHeight))
  {
  }

  /** NumberColors has a colour for exactly the counts 1 to 8. */
  lemma NumberColorsDomain(n: int)
    ensures n in NumberColors <==> 1 <= n <= 8
  {
    if 1 <= n <= 8 {
      assert n == 1 || n == 2 || n == 3 || n == 4 || n == 5 || n == 6 || n == 7 || n == 8;
    }
  }
}
