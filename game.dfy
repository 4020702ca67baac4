/** Minesweeper/Game.cs: the board engine.  The map is a W x H array of cells
    with a one-cell border; GameInfo holds the counters the engine keeps in
    step with the map.  Every change to a cell is written back into the map
    (the reference semantics Game.cs relies on when it updates cells it has
    read out of the map).  Random.Shared is replaced by a sequence of draws. */
module Games {
  import opened Cells
  import opened Grids
  import opened Difficulties
  import opened Info
  import opened Boards

  /** Every draw is a result of Random.Shared.Next(W), Random.Shared.Next(H). */
  predicate InRange(draws: seq<Pos>, w: int, h: int) {
    forall k :: 0 <= k < |draws| ==> InGrid(w, h, draws[k].x, draws[k].y)
  }

  /** Some draw lands on a playable cell without a mine, so a rejection loop
      over the draws ends. */
  ghost predicate HasFreeDraw(g: Grid, w: int, h: int, draws: seq<Pos>)
    requires Rectangular(g, w, h) && InRange(draws, w, h)
  {
    exists k :: 0 <= k < |draws| && !IsBorder(w, h, draws[k].x, draws[k].y) && !g[draws[k].x][draws[k].y].isMine
  }

  /** A free draw stays free while no mine moves. */
  lemma FreeDrawStays(g0: Grid, g1: Grid, w: int, h: int, draws: seq<Pos>)
    requires Rectangular(g0, w, h) && Rectangular(g1, w, h) && InRange(draws, w, h)
    requires forall x, y :: InGrid(w, h, x, y) ==> g1[x][y].isMine == g0[x][y].isMine
    requires HasFreeDraw(g0, w, h, draws)
    ensures HasFreeDraw(g1, w, h, draws)
  {
    var k :| 0 <= k < |draws| && !IsBorder(w, h, draws[k].x, draws[k].y) && !g0[draws[k].x][draws[k].y].isMine;
    assert !g1[draws[k].x][draws[k].y].isMine;
  }

  /** The relocation loop of DigAndUpdateDiggedStat as written: each turn
      first takes the mine off the player's cell p, then draws; a draw on the
      border or on a mine ends the loop with the mine gone (the loop tests
      p's mine again), a good draw gets the mine, and a draw of p itself puts
      it back for another turn.  When the draws run out p keeps its mine. */
  ghost function RelocatedAsWritten(g: Grid, w: int, h: int, p: Pos, draws: seq<Pos>): (r: Grid)
    requires Rectangular(g, w, h) && IsInterior(w, h, p.x, p.y) && InRange(draws, w, h)
    ensures Rectangular(r, w, h)
    decreases |draws|
  {
    if !g[p.x][p.y].isMine || draws == [] then g
    else
      var g1 := Put(g, p.x, p.y, g[p.x][p.y].(isMine := false));
      var d := draws[0];
      if IsBorder(w, h, d.x, d.y) || g1[d.x][d.y].isMine then g1
      else RelocatedAsWritten(Put(g1, d.x, d.y, g1[d.x][d.y].(isMine := true)), w, h, p, draws[1..])
  }

  /** As written, a first draw that lands on the border or on another mine
      loses the player's mine: the board ends with one mine fewer than
      GameInfo's MinesCount, where RelocateFirstMine keeps them all. */
  lemma RelocationLosesMine(g: Grid, w: int, h: int, p: Pos, draws: seq<Pos>)
    requires Rectangular(g, w, h) && IsInterior(w, h, p.x, p.y) && InRange(draws, w, h)
    requires g[p.x][p.y].isMine && |draws| > 0
    requires IsBorder(w, h, draws[0].x, draws[0].y) ||
             (draws[0] != p && g[draws[0].x][draws[0].y].isMine)
    ensures Interior(RelocatedAsWritten(g, w, h, p, draws), w, h, IsMine) + 1 == Interior(g, w, h, IsMine)
  {
    MineChange(g, w, h, p.x, p.y, false);
  }

  /** Every position of q is a playable cell. */
  predicate AllInterior(q: seq<Pos>, w: int, h: int)
  {
    forall i :: 0 <= i < |q| ==> IsInterior(w, h, q[i].x, q[i].y)
  }

  /** added lists the cells dug between g0 and g, each of them a playable
      cell of the block around (x, y) that was untouched in g0 and is dug
      in g. */
  ghost predicate Gathered(g0: Grid, g: Grid, w: int, h: int, x: int, y: int, added: seq<Pos>)
    requires Rectangular(g0, w, h) && Rectangular(g, w, h)
  {
    AllInterior(added, w, h) &&
    (forall i :: 0 <= i < |added| ==>
       InBox(x - 1, x + 2, y - 1, y + 2, added[i].x, added[i].y) && g0[added[i].x][added[i].y].state == Default &&
       g[added[i].x][added[i].y].state == Digged) &&
    (forall a, b :: 0 <= a < w && 0 <= b < h && g0[a][b].state != Digged && g[a][b].state == Digged ==>
       Pos(a, b) in added)
  }

  /** Digging one more untouched cell of the block and listing it keeps the
      list exact. */
  lemma GatherStep(g0: Grid, g1: Grid, g2: Grid, w: int, h: int, x: int, y: int, added: seq<Pos>, item: Pos)
    requires Rectangular(g0, w, h) && Rectangular(g1, w, h) && Evolved(g0, g1, w, h, false)
    requires Gathered(g0, g1, w, h, x, y, added)
    requires IsInterior(w, h, item.x, item.y) && InBox(x - 1, x + 2, y - 1, y + 2, item.x, item.y)
    requires g1[item.x][item.y].state == Default
    requires g2 == Put(g1, item.x, item.y, g1[item.x][item.y].(state := Digged))
    ensures Rectangular(g2, w, h) && Gathered(g0, g2, w, h, x, y, added + [item])
  {
    assert Step(g0[item.x][item.y], g1[item.x][item.y], false);
    var added' := added + [item];
    forall i | 0 <= i < |added'|
      ensures IsInterior(w, h, added'[i].x, added'[i].y)
      ensures InBox(x - 1, x + 2, y - 1, y + 2, added'[i].x, added'[i].y) && g0[added'[i].x][added'[i].y].state == Default
      ensures g2[added'[i].x][added'[i].y].state == Digged
    {
      if i < |added| {
        assert added'[i] == added[i];
        if added[i] != item {
          assert g2[added[i].x][added[i].y] == g1[added[i].x][added[i].y];
        }
      }
    }
    forall a, b | 0 <= a < w && 0 <= b < h && g0[a][b].state != Digged && g2[a][b].state == Digged
      ensures Pos(a, b) in added'
    {
      if Pos(a, b) != item {
        assert g2[a][b] == g1[a][b];
      }
    }
  }

  /** Once every playable, unflagged cell of the block is dug, the list
      holds every playable cell of the block that was untouched in g0. */
  lemma GatherDone(g0: Grid, g: Grid, w: int, h: int, x: int, y: int, added: seq<Pos>)
    requires Rectangular(g0, w, h) && Rectangular(g, w, h) && Evolved(g0, g, w, h, false)
    requires IsInterior(w, h, x, y) && Gathered(g0, g, w, h, x, y, added) && ChordDug(g, w, h, x, y)
    ensures forall i, j :: InBox(x - 1, x + 2, y - 1, y + 2, i, j) && !IsBorder(w, h, i, j) && g0[i][j].state == Default ==>
              Pos(i, j) in added
  {
    forall i, j | InBox(x - 1, x + 2, y - 1, y + 2, i, j) && !IsBorder(w, h, i, j) && g0[i][j].state == Default
      ensures Pos(i, j) in added
    {
      assert Step(g0[i][j], g[i][j], false);
    }
  }

  /** Every cell waiting in BfsDig's queue is the start s or was dug by the
      flood since g0. */
  ghost predicate Pending(g0: Grid, g: Grid, w: int, h: int, s: Pos, queue: seq<Pos>)
    requires Rectangular(g0, w, h) && Rectangular(g, w, h) && AllInterior(queue, w, h)
  {
    forall i :: 0 <= i < |queue| ==>
      queue[i] == s || (g0[queue[i].x][queue[i].y].state != Digged && g[queue[i].x][queue[i].y].state == Digged)
  }

  /** A turn of the queue loop keeps the queue pending: the rest stays dug,
      and the cells appended were untouched before the turn and are dug
      after it. */
  lemma QueueStep(g0: Grid, g1: Grid, g2: Grid, w: int, h: int, s: Pos, cur: Pos, rest: seq<Pos>, next: seq<Pos>)
    requires Rectangular(g0, w, h) && Rectangular(g1, w, h) && Rectangular(g2, w, h)
    requires Evolved(g0, g1, w, h, true) && Evolved(g1, g2, w, h, false)
    requires IsInterior(w, h, cur.x, cur.y) && AllInterior([cur] + rest, w, h) && AllInterior(next, w, h)
    requires Pending(g0, g1, w, h, s, [cur] + rest)
    requires |rest| <= |next| && next[..|rest|] == rest
    requires forall i :: |rest| <= i < |next| ==>
               g1[next[i].x][next[i].y].state == Default && g2[next[i].x][next[i].y].state == Digged
    ensures Pending(g0, g2, w, h, s, next)
    ensures cur == s || (g0[cur.x][cur.y].state != Digged && g1[cur.x][cur.y].state == Digged)
  {
    assert ([cur] + rest)[0] == cur;
    forall i | 0 <= i < |next|
      ensures next[i] == s || (g0[next[i].x][next[i].y].state != Digged && g2[next[i].x][next[i].y].state == Digged)
    {
      var p := next[i];
      assert Step(g0[p.x][p.y], g1[p.x][p.y], true) && Step(g1[p.x][p.y], g2[p.x][p.y], false);
      if i < |rest| {
        assert ([cur] + rest)[i + 1] == p;
      }
    }
  }

  /** What BfsDig's queue loop keeps, searching from board g0 with start s:
      states only go from untouched to dug since g0, the queue holds the
      start or cells the flood dug, every cell dug is sourced, and in a
      running game every cell dug is queued or expanded, the start too. */
  ghost predicate Searching(g0: Grid, g: Grid, w: int, h: int, s: Pos, queue: seq<Pos>, running: bool)
    requires Rectangular(g0, w, h) && Rectangular(g, w, h) && IsInterior(w, h, s.x, s.y) && AllInterior(queue, w, h)
  {
    Evolved(g0, g, w, h, true) && Pending(g0, g, w, h, s, queue) && Sourced(g0, g, w, h, s) &&
    (running ==> Flooded(g0, g, w, h, queue) && (s in queue || Expanded(g, w, h, s.x, s.y)))
  }

  /** A turn of the queue loop keeps Searching: cur is dequeued, the cells
      the turn digs lie in its block, need its count to be zero and are
      appended, and in a running game cur is expanded afterwards. */
  lemma SearchStep(g0: Grid, g1: Grid, g2: Grid, w: int, h: int, s: Pos, cur: Pos, rest: seq<Pos>, next: seq<Pos>,
                   running: bool)
    requires Rectangular(g0, w, h) && Rectangular(g1, w, h) && Rectangular(g2, w, h)
    requires IsInterior(w, h, s.x, s.y) && IsInterior(w, h, cur.x, cur.y)
    requires AllInterior([cur] + rest, w, h) && AllInterior(next, w, h)
    requires Searching(g0, g1, w, h, s, [cur] + rest, running)
    requires Evolved(g1, g2, w, h, false) && |rest| <= |next| && next[..|rest|] == rest
    requires forall i :: |rest| <= i < |next| ==>
               g1[next[i].x][next[i].y].state == Default && g2[next[i].x][next[i].y].state == Digged
    requires forall x, y :: 0 <= x < w && 0 <= y < h && g1[x][y].state != Digged && g2[x][y].state == Digged ==>
               InBox(cur.x - 1, cur.x + 2, cur.y - 1, cur.y + 2, x, y) && g2[cur.x][cur.y].minesAround == 0
    requires Flooded(g1, g2, w, h, next)
    requires running ==> Expanded(g2, w, h, cur.x, cur.y)
    ensures Searching(g0, g2, w, h, s, next, running)
  {
    QueueStep(g0, g1, g2, w, h, s, cur, rest, next);
    SourcedStep(g0, g1, g2, w, h, s, cur);
    EvolvedTrans(g0, g1, g2, w, h, true, false);
    if running {
      FloodStep(g0, g1, g2, w, h, cur, rest, next);
      PendingStep(g1, g2, w, h, s, cur, rest, next);
    }
  }

  /** Queues of playable cells join into one. */
  lemma AppendInterior(q: seq<Pos>, r: seq<Pos>, w: int, h: int)
    requires AllInterior(q, w, h) && AllInterior(r, w, h)
    ensures AllInterior(q + r, w, h)
  {
  }

  class Game {
    /** GameInfo: null until the first Init. */
    var info: GameInfo?
    /** Game.Map, indexed [x, y]. */
    var cells: array2<Cell>
    /** The contents of cells as a value. */
    ghost var grid: Grid

    /** cells and grid hold the same W x H board. */
    ghost predicate Tied()
      reads this, info, cells
    {
      info != null &&
      cells.Length0 == info.mapWidth && cells.Length1 == info.mapHeight &&
      Rectangular(grid, info.mapWidth, info.mapHeight) &&
      forall x, y :: 0 <= x < cells.Length0 && 0 <= y < cells.Length1 ==> cells[x, y] == grid[x][y]
    }

    /** A laid-out board with the player on a playable cell. */
    ghost predicate Shape()
      reads this, info, cells
    {
      Tied() && Layout(grid, info.mapWidth, info.mapHeight) &&
      IsInterior(info.mapWidth, info.mapHeight, info.playerX, info.playerY)
    }

    /** The state between two actions of a started game: the player is
        on a playable cell and GameInfo's counters agree with the board. */
    ghost predicate Valid()
      reads this, info, cells
    {
      Tied() && IsInterior(info.mapWidth, info.mapHeight, info.playerX, info.playerY) &&
      Consistent(grid, info.mapWidth, info.mapHeight, info.diggedCount, info.flagsCount, info.minesCount,
                 info.itsFirstMove, info.gameIsRunning)
    }

    /** Game(): the 10 x 10 map of the field initialiser; GameInfo stays
        null until Run calls InitMedium.  Registering the actions with
        Control is input plumbing. */
    constructor ()
      ensures info == null && fresh(cells) && cells.Length0 == 10 && cells.Length1 == 10
    {
      info := null;
      cells := new Cell[10, 10]((x, y) => DefaultCell);
      grid := seq(10, x => seq(10, y => DefaultCell));
    }

    /** Map[x, y] = c. */
    method Write(x: int, y: int, c: Cell)
      requires Tied() && InGrid(info.mapWidth, info.mapHeight, x, y)
      modifies this`grid, cells
      ensures Tied() && grid == Put(old(grid), x, y, c)
    {
      cells[x, y] := c;
      grid := Put(grid, x, y, c);
    }

    /** TryGetRandomPositionWithoutBorderAndMine with the draw (x, y) given:
        the draw is kept when it is a playable cell without a mine. */
    method TryGetRandomPositionWithoutBorderAndMine(draw: Pos) returns (ok: bool, x: int, y: int)
      requires Tied() && InGrid(info.mapWidth, info.mapHeight, draw.x, draw.y)
      ensures x == draw.x && y == draw.y
      ensures ok <==> !IsBorder(info.mapWidth, info.mapHeight, x, y) && !grid[x][y].isMine
    {
      x, y := draw.x, draw.y;
      ok := !(IsBorder(info.mapWidth, info.mapHeight, x, y) || cells[x, y].isMine);
    }

    /** The two inner loops of SetMinesCountAround: the mines of the 3x3
        block centred on (x, y), row by row. */
    method CountMinesInBlock(x: int, y: int) returns (minesAround: int)
      requires Tied() && IsInterior(info.mapWidth, info.mapHeight, x, y)
      ensures minesAround == Count3x3(grid, x, y, IsMine)
    {
      minesAround := 0;
      for yI := y - 1 to y + 2
        invariant minesAround == Count(grid, x - 1, x + 2, y - 1, yI, IsMine)
      {
        for xI := x - 1 to x + 2
          invariant minesAround == Count(grid, x - 1, x + 2, y - 1, yI, IsMine) + CountRow(grid, x - 1, xI, yI, IsMine)
        {
          if cells[xI, yI].isMine {
            minesAround := minesAround + 1;
          }
        }
      }
    }

    /** One pass of SetMinesCountAround's body: count the block around
        (x, y) and store the count in the cell. */
    method StoreMinesAround(x: int, y: int, ghost g0: Grid)
      requires Tied() && Layout(grid, info.mapWidth, info.mapHeight)
      requires Rectangular(g0, info.mapWidth, info.mapHeight) && OnlyCountsDiffer(g0, grid, info.mapWidth, info.mapHeight)
      requires IsInterior(info.mapWidth, info.mapHeight, x, y)
      requires RecountedBefore(g0, grid, info.mapWidth, info.mapHeight, x, y)
      modifies this`grid, cells
      ensures Tied() && Layout(grid, info.mapWidth, info.mapHeight)
      ensures OnlyCountsDiffer(g0, grid, info.mapWidth, info.mapHeight)
      ensures RecountedBefore(g0, grid, info.mapWidth, info.mapHeight, x + 1, y)
      ensures grid == Put(old(grid), x, y, old(grid)[x][y].(minesAround := Count3x3(g0, x, y, IsMine)))
    {
      var minesAround := CountMinesInBlock(x, y);
      CountAgree(g0, grid, x - 1, x + 2, y - 1, y + 2, IsMine);
      RecountOne(g0, grid, info.mapWidth, info.mapHeight, x, y);
      Write(x, y, cells[x, y].(minesAround := minesAround));
    }

    /** The inner loop of SetMinesCountAround: row y, left to right,
        border cells skipped. */
    method StoreRow(y: int, ghost g0: Grid)
      requires Tied() && Layout(grid, info.mapWidth, info.mapHeight)
      requires Rectangular(g0, info.mapWidth, info.mapHeight) && OnlyCountsDiffer(g0, grid, info.mapWidth, info.mapHeight)
      requires 0 <= y < info.mapHeight && RecountedBefore(g0, grid, info.mapWidth, info.mapHeight, 0, y)
      modifies this`grid, cells
      ensures Tied() && Layout(grid, info.mapWidth, info.mapHeight)
      ensures OnlyCountsDiffer(g0, grid, info.mapWidth, info.mapHeight)
      ensures forall i, j :: InGrid(info.mapWidth, info.mapHeight, i, j) && j != y ==> grid[i][j] == old(grid)[i][j]
      ensures RecountedBefore(g0, grid, info.mapWidth, info.mapHeight, 0, y + 1)
    {
      var w, h := info.mapWidth, info.mapHeight;
      for x := 0 to w
        invariant Tied() && Layout(grid, w, h) && OnlyCountsDiffer(g0, grid, w, h)
        invariant forall i, j :: InGrid(w, h, i, j) && j != y ==> grid[i][j] == old(grid)[i][j]
        invariant RecountedBefore(g0, grid, w, h, x, y)
      {
        if IsBorder(w, h, x, y) {
          continue;
        }
        StoreMinesAround(x, y, g0);
      }
    }

    /** SetMinesCountAround: every playable cell gets the number of mines in
        its 3x3 block, itself included; nothing else changes. */
    method SetMinesCountAround()
      requires Tied() && Layout(grid, info.mapWidth, info.mapHeight)
      modifies this`grid, cells
      ensures Tied() && Layout(grid, info.mapWidth, info.mapHeight)
      ensures OnlyCountsDiffer(old(grid), grid, info.mapWidth, info.mapHeight)
      ensures Adjacent(grid, info.mapWidth, info.mapHeight)
    {
      ghost var g0 := grid;
      var w, h := info.mapWidth, info.mapHeight;
      for y := 0 to h
        invariant Tied() && Layout(grid, w, h) && OnlyCountsDiffer(g0, grid, w, h)
        invariant RecountedBefore(g0, grid, w, h, 0, y)
      {
        StoreRow(y, g0);
      }
      RecountDone(g0, grid, w, h);
    }

    /** The map Init allocates and fills: `new Cell(x, y)` at every (x, y),
        row by row. */
    static method NewMap(w: nat, h: nat) returns (a: array2<Cell>)
      ensures fresh(a) && a.Length0 == w && a.Length1 == h
      ensures forall i, j :: 0 <= i < w && 0 <= j < h ==> a[i, j] == NewCell(i, j)
    {
      a := new Cell[w, h]((x, y) => DefaultCell);
      for yI := 0 to h
        invariant forall i, j :: 0 <= i < w && 0 <= j < yI ==> a[i, j] == NewCell(i, j)
      {
        for xI := 0 to w
          invariant forall i, j :: 0 <= i < w && 0 <= j < yI ==> a[i, j] == NewCell(i, j)
          invariant forall i :: 0 <= i < xI ==> a[i, yI] == NewCell(i, yI)
        {
          a[xI, yI] := NewCell(xI, yI);
        }
      }
    }

    /** The mine loop of Init: a drawn playable cell without a mine gets one
        while fewer than MinesCount are placed; the first good draw after
        that ends the loop. */
    method PlaceMines(draws: seq<Pos>) returns (placed: bool)
      requires Tied() && Layout(grid, info.mapWidth, info.mapHeight) && 0 <= info.minesCount
      requires Interior(grid, info.mapWidth, info.mapHeight, IsMine) == 0
      requires InRange(draws, info.mapWidth, info.mapHeight)
      modifies this`grid, cells
      ensures Tied() && Layout(grid, info.mapWidth, info.mapHeight)
      ensures OnlyMinesDiffer(old(grid), grid, info.mapWidth, info.mapHeight)
      ensures Interior(grid, info.mapWidth, info.mapHeight, IsMine) <= info.minesCount
      ensures placed ==> Interior(grid, info.mapWidth, info.mapHeight, IsMine) == info.minesCount
      ensures placed ==> info.minesCount < (info.mapWidth - 2) * (info.mapHeight - 2)
    {
      var w, h := info.mapWidth, info.mapHeight;
      var localMinesCount := 0;
      var k := 0;
      placed := false;
      while k < |draws|
        invariant 0 <= k <= |draws|
        invariant Tied() && Layout(grid, w, h) && OnlyMinesDiffer(old(grid), grid, w, h)
        invariant 0 <= localMinesCount <= info.minesCount
        invariant Interior(grid, w, h, IsMine) == localMinesCount
        decreases |draws| - k
      {
        var ok, x, y := TryGetRandomPositionWithoutBorderAndMine(draws[k]);
        k := k + 1;
        if !ok {
          continue;
        }
        if localMinesCount < info.minesCount {
          MineChange(grid, w, h, x, y, true);
          MineChangeKeepsLayout(grid, w, h, x, y, true);
          Write(x, y, cells[x, y].(isMine := true));
          localMinesCount := localMinesCount + 1;
        } else {
          FreeCellBound(grid, w, h, x, y);
          placed := true;
          break;
        }
      }
    }

    /** The first part of Init: a fresh GameInfo and a W x H map of
        `new Cell(x, y)`. */
    method NewBoard(d: Difficulty)
      requires 1 <= d.mapWidth && 1 <= d.mapHeight
      modifies this
      ensures fresh(info) && fresh(cells)
      ensures info.mapWidth == d.mapWidth + 2 && info.mapHeight == d.mapHeight + 2 && info.preset == d.preset
      ensures info.diggedCount == 0 && info.minesCount == d.minesCount && info.flagsCount == d.minesCount
      ensures info.playerX == StartCoordinate(d.mapWidth) && info.playerY == StartCoordinate(d.mapHeight)
      ensures info.itsFirstMove && info.gameIsRunning
      ensures Shape()
      ensures forall x, y :: InGrid(info.mapWidth, info.mapHeight, x, y) ==> grid[x][y] == NewCell(x, y)
      ensures Interior(grid, info.mapWidth, info.mapHeight, IsMine) == 0
    {
      info := new GameInfo(d);
      var w, h := info.mapWidth, info.mapHeight;
      cells := NewMap(w, h);
      grid := seq(w, i => seq(h, j => NewCell(i, j)));
      PlayerStartsInside(d);
      FreshBoard(grid, w, h);
    }

    /** Init(difficulty): a fresh board, then the mines, then the counts.
        The draws stand for Random.Shared: `placed` is false when they run
        out before the mine loop ends, where the source would go on drawing. */
    method Init(d: Difficulty, draws: seq<Pos>) returns (placed: bool)
      requires 1 <= d.mapWidth && 1 <= d.mapHeight && 0 <= d.minesCount
      requires InRange(draws, d.mapWidth + 2, d.mapHeight + 2)
      modifies this
      ensures fresh(info) && fresh(cells)
      ensures info.mapWidth == d.mapWidth + 2 && info.mapHeight == d.mapHeight + 2 && info.preset == d.preset
      ensures info.diggedCount == 0 && info.minesCount == d.minesCount && info.flagsCount == d.minesCount
      ensures info.playerX == StartCoordinate(d.mapWidth) && info.playerY == StartCoordinate(d.mapHeight)
      ensures info.itsFirstMove && info.gameIsRunning
      ensures Shape()
      ensures forall x, y :: IsInterior(info.mapWidth, info.mapHeight, x, y) ==> grid[x][y].state == Default
      ensures Interior(grid, info.mapWidth, info.mapHeight, IsMine) <= d.minesCount
      ensures placed ==> Valid() && Interior(grid, info.mapWidth, info.mapHeight, IsMine) == d.minesCount
      ensures placed ==> d.minesCount < d.mapWidth * d.mapHeight
    {
      NewBoard(d);
      var w, h := info.mapWidth, info.mapHeight;
      placed := PlaceMines(draws);
      assert w - 2 == d.mapWidth && h - 2 == d.mapHeight;
      if placed {
        ghost var g1 := grid;
        SetMinesCountAround();
        CountsIgnoreMinesAround(g1, grid, w, h);
        UntouchedCounts(grid, w, h);
      }
    }

    method InitEasy(draws: seq<Pos>) returns (placed: bool)
      requires InRange(draws, EasyDifficulty.mapWidth + 2, EasyDifficulty.mapHeight + 2)
      modifies this
      ensures info != null && info.mapWidth == 11 && info.mapHeight == 11 && info.preset == EASY_PRESET
      ensures placed ==> Valid() && info.minesCount == 10
    {
      placed := Init(EasyDifficulty, draws);
    }

    method InitMedium(draws: seq<Pos>) returns (placed: bool)
      requires InRange(draws, MediumDifficulty.mapWidth + 2, MediumDifficulty.mapHeight + 2)
      modifies this
      ensures info != null && info.mapWidth == 19 && info.mapHeight == 19 && info.preset == MEDIUM_PRESET
      ensures placed ==> Valid() && info.minesCount == 40
    {
      placed := Init(MediumDifficulty, draws);
    }

    method InitHigh(draws: seq<Pos>) returns (placed: bool)
      requires InRange(draws, HighDifficulty.mapWidth + 2, HighDifficulty.mapHeight + 2)
      modifies this
      ensures info != null && info.mapWidth == 33 && info.mapHeight == 18 && info.preset == HARD_PRESET
      ensures placed ==> Valid() && info.minesCount == 99
    {
      placed := Init(HighDifficulty, draws);
    }

    /** The restart at the end of GameOver when the player answers "R": the
        preset kept in GameInfo picks the difficulty for a new Init.  The
        switch has no default arm, so the preset must be one of the three. */
    method Restart(draws: seq<Pos>) returns (placed: bool)
      requires info != null
      requires info.preset == EASY_PRESET || info.preset == MEDIUM_PRESET || info.preset == HARD_PRESET
      requires InRange(draws, DifficultyForPreset(info.preset).mapWidth + 2, DifficultyForPreset(info.preset).mapHeight + 2)
      modifies this
      ensures fresh(info) && info.preset == old(info.preset)
      ensures info.mapWidth == DifficultyForPreset(info.preset).mapWidth + 2
      ensures info.mapHeight == DifficultyForPreset(info.preset).mapHeight + 2
      ensures info.minesCount == DifficultyForPreset(info.preset).minesCount
      ensures placed ==> Valid()
    {
      var d := DifficultyForPreset(info.preset);
      placed := Init(d, draws);
    }

    /** StopGame: the game is no longer running. */
    method StopGame()
      requires info != null
      modifies info`gameIsRunning
      ensures !info.gameIsRunning
    {
      info.gameIsRunning := false;
    }

    /** cell.State = s, written back into the map. */
    method SetState(x: int, y: int, s: State)
      requires Tied() && InGrid(info.mapWidth, info.mapHeight, x, y)
      modifies this`grid, cells
      ensures Tied() && grid == Put(old(grid), x, y, old(grid)[x][y].(state := s))
    {
      Write(x, y, cells[x, y].(state := s));
    }

    /** (x, y) is a cell DigAndUpdateDiggedStat acts on: off the border and
        not flagged. */
    ghost predicate Diggable(x: int, y: int)
      reads this, info, cells
      requires Tied()
    {
      InGrid(info.mapWidth, info.mapHeight, x, y) && !IsBorder(info.mapWidth, info.mapHeight, x, y) &&
      grid[x][y].state != Flag
    }

    /** The relocation loop of DigAndUpdateDiggedStat, as intended: draws
        are made while the player's cell still holds its mine, and the mine
        moves to the first drawn playable cell without one, which is never
        the player's cell.  Returns, as a proof aid, where the mine went. */
    method RelocateFirstMine(draws: seq<Pos>) returns (ghost q: Pos)
      requires Tied() && IsInterior(info.mapWidth, info.mapHeight, info.playerX, info.playerY)
      requires grid[info.playerX][info.playerY].isMine
      requires InRange(draws, info.mapWidth, info.mapHeight)
      requires HasFreeDraw(grid, info.mapWidth, info.mapHeight, draws)
      modifies this`grid, cells
      ensures Tied()
      ensures IsInterior(info.mapWidth, info.mapHeight, q.x, q.y)
      ensures q != Pos(info.playerX, info.playerY) && !old(grid)[q.x][q.y].isMine
      ensures grid == MoveMine(old(grid), Pos(info.playerX, info.playerY), q)
    {
      var w, h := info.mapWidth, info.mapHeight;
      var px, py := info.playerX, info.playerY;
      var k := 0;
      q := Pos(px, py);
      while cells[px, py].isMine
        invariant 0 <= k <= |draws| && Tied()
        invariant cells[px, py].isMine ==> grid == old(grid) && HasFreeDraw(grid, w, h, draws[k..])
        invariant !cells[px, py].isMine ==>
                    IsInterior(w, h, q.x, q.y) && q != Pos(px, py) && !old(grid)[q.x][q.y].isMine &&
                    grid == MoveMine(old(grid), Pos(px, py), q)
        decreases |draws| - k
      {
        ghost var j :| 0 <= j < |draws[k..]| && !IsBorder(w, h, draws[k..][j].x, draws[k..][j].y) &&
                       !grid[draws[k..][j].x][draws[k..][j].y].isMine;
        var ok, x, y := TryGetRandomPositionWithoutBorderAndMine(draws[k]);
        k := k + 1;
        if !ok {
          assert j != 0;
          assert draws[k - 1..][j] == draws[k..][j - 1];
          continue;
        }
        Write(px, py, cells[px, py].(isMine := false));
        Write(x, y, cells[x, y].(isMine := true));
        q := Pos(x, y);
      }
    }

    /** The dig itself: an untouched cell becomes Digged and DiggedCount
        grows; a dug cell stays as it is. */
    method MarkDug(x: int, y: int)
      requires Tied() && InGrid(info.mapWidth, info.mapHeight, x, y)
      requires grid[x][y].state == Default || grid[x][y].state == Digged
      modifies this`grid, cells, info`diggedCount
      ensures Tied() && grid == Put(old(grid), x, y, old(grid)[x][y].(state := Digged))
      ensures info.diggedCount == old(info.diggedCount) + Ind(old(grid)[x][y].state == Default)
    {
      if cells[x, y].state != Digged {
        SetState(x, y, Digged);
        info.diggedCount := info.diggedCount + 1;
      } else {
        PutSame(grid, x, y);
      }
    }

    /** DigAndUpdateDiggedStat(cell): a border or flagged cell is left alone.
        Otherwise the cell is dug (the counter grows if it was not dug yet).
        A mine on the first move is moved away, the counts are recomputed and
        the player's cell is dug again by BfsDig; a mine later on stops the
        game.  Any other cell ends the first move.  Only the fields named in
        modifies change: dimensions, preset, mine and flag counters and the
        player's position stay. */
    method DigAndUpdateDiggedStat(x: int, y: int, draws: seq<Pos>)
      requires Valid() && InGrid(info.mapWidth, info.mapHeight, x, y)
      requires InRange(draws, info.mapWidth, info.mapHeight)
      requires info.itsFirstMove ==> x == info.playerX && y == info.playerY
      requires info.itsFirstMove && grid[x][y].isMine ==> HasFreeDraw(grid, info.mapWidth, info.mapHeight, draws)
      modifies this`grid, cells, info`diggedCount, info`itsFirstMove, info`gameIsRunning
      decreases if info != null && info.itsFirstMove then 1 else 0, 1
      ensures Valid()
      ensures !old(Diggable(x, y)) ==>
                grid == old(grid) && info.diggedCount == old(info.diggedCount) &&
                info.itsFirstMove == old(info.itsFirstMove) && info.gameIsRunning == old(info.gameIsRunning)
      ensures old(Diggable(x, y)) ==> grid[x][y].state == Digged && !info.itsFirstMove
      ensures old(Diggable(x, y)) && old(info.itsFirstMove) ==> !grid[x][y].isMine
      ensures Evolved(old(grid), grid, info.mapWidth, info.mapHeight, old(info.itsFirstMove))
      ensures old(Diggable(x, y)) && !old(info.itsFirstMove) ==>
                grid == Put(old(grid), x, y, old(grid)[x][y].(state := Digged)) &&
                info.diggedCount == old(info.diggedCount) + Ind(old(grid)[x][y].state == Default)
      ensures info.gameIsRunning == (old(info.gameIsRunning) && !(old(Diggable(x, y)) && grid[x][y].isMine))
      ensures (Interior(grid, info.mapWidth, info.mapHeight, IsDugMine) == 0) ==
              (old(Interior(grid, info.mapWidth, info.mapHeight, IsDugMine)) == 0 && !(old(Diggable(x, y)) && grid[x][y].isMine))
      ensures info.gameIsRunning ==> Flooded(old(grid), grid, info.mapWidth, info.mapHeight, [Pos(x, y)])
      ensures Sourced(old(grid), grid, info.mapWidth, info.mapHeight, Pos(x, y))
      ensures grid[x][y].minesAround != 0 ==> SameStatesBut(old(grid), grid, info.mapWidth, info.mapHeight, Pos(x, y))
    {
      if IsBorder(info.mapWidth, info.mapHeight, x, y) || cells[x, y].state == Flag {
        DugOnlyAt(grid, grid, info.mapWidth, info.mapHeight, Pos(x, y));
        return;
      }
      if info.itsFirstMove && cells[x, y].isMine {
        DigFirstMineAndSpread(draws);
      } else {
        DigPlain(x, y);
        DugOnlyAt(old(grid), grid, info.mapWidth, info.mapHeight, Pos(x, y));
      }
    }

    /** The first-move branch of DigAndUpdateDiggedStat when the player's
        cell holds a mine: the mine moves away, and BfsDig digs the
        player's cell again and floods from it.  No mine is dug, so the
        game keeps its running state. */
    method DigFirstMineAndSpread(draws: seq<Pos>)
      requires Valid() && info.itsFirstMove && grid[info.playerX][info.playerY].isMine
      requires InRange(draws, info.mapWidth, info.mapHeight)
      requires HasFreeDraw(grid, info.mapWidth, info.mapHeight, draws)
      modifies this`grid, cells, info`diggedCount, info`itsFirstMove, info`gameIsRunning
      decreases 1, 0
      ensures Valid() && !info.itsFirstMove
      ensures grid[info.playerX][info.playerY].state == Digged && !grid[info.playerX][info.playerY].isMine
      ensures Evolved(old(grid), grid, info.mapWidth, info.mapHeight, true)
      ensures info.gameIsRunning == old(info.gameIsRunning)
      ensures Interior(grid, info.mapWidth, info.mapHeight, IsDugMine) == 0
      ensures old(Interior(grid, info.mapWidth, info.mapHeight, IsDugMine)) == 0
      ensures info.gameIsRunning ==>
                Flooded(old(grid), grid, info.mapWidth, info.mapHeight, [Pos(info.playerX, info.playerY)])
      ensures Sourced(old(grid), grid, info.mapWidth, info.mapHeight, Pos(info.playerX, info.playerY))
      ensures grid[info.playerX][info.playerY].minesAround != 0 ==>
                SameStatesBut(old(grid), grid, info.mapWidth, info.mapHeight, Pos(info.playerX, info.playerY))
    {
      var x, y := info.playerX, info.playerY;
      DigFirstMine(draws);
      ghost var g3 := grid;
      BfsDig(x, y, draws);
      EvolvedTrans(old(grid), g3, grid, info.mapWidth, info.mapHeight, true, false);
      if info.gameIsRunning {
        FirstFlood(old(grid), g3, grid, info.mapWidth, info.mapHeight, Pos(x, y));
      }
      FirstSourced(old(grid), g3, grid, info.mapWidth, info.mapHeight, Pos(x, y));
    }

    /** DigAndUpdateDiggedStat on a playable, unflagged cell that is not a
        mine on the first move: the cell is dug, a mine stops the game and
        anything else ends the first move. */
    method DigPlain(x: int, y: int)
      requires Valid() && IsInterior(info.mapWidth, info.mapHeight, x, y) && grid[x][y].state != Flag
      requires info.itsFirstMove ==> !grid[x][y].isMine
      modifies this`grid, cells, info`diggedCount, info`itsFirstMove, info`gameIsRunning
      ensures Valid() && !info.itsFirstMove
      ensures grid == Put(old(grid), x, y, old(grid)[x][y].(state := Digged))
      ensures info.diggedCount == old(info.diggedCount) + Ind(old(grid)[x][y].state == Default)
      ensures Evolved(old(grid), grid, info.mapWidth, info.mapHeight, false)
      ensures info.gameIsRunning == (old(info.gameIsRunning) && !grid[x][y].isMine)
      ensures (Interior(grid, info.mapWidth, info.mapHeight, IsDugMine) == 0) ==
              (old(Interior(grid, info.mapWidth, info.mapHeight, IsDugMine)) == 0 && !grid[x][y].isMine)
    {
      DigCell(grid, info.mapWidth, info.mapHeight, x, y, info.diggedCount, info.flagsCount, info.minesCount,
              info.itsFirstMove, info.gameIsRunning);
      MarkDug(x, y);
      if cells[x, y].isMine {
        StopGame();
      } else {
        info.itsFirstMove := false;
      }
    }

    /** The first-move branch of DigAndUpdateDiggedStat when the player's
        cell holds a mine, up to the call of BfsDig: the cell is dug, the
        first move ends, the mine moves to a free cell and the counts are
        recomputed. */
    method DigFirstMine(draws: seq<Pos>)
      requires Valid() && info.itsFirstMove && grid[info.playerX][info.playerY].isMine
      requires InRange(draws, info.mapWidth, info.mapHeight)
      requires HasFreeDraw(grid, info.mapWidth, info.mapHeight, draws)
      modifies this`grid, cells, info`diggedCount, info`itsFirstMove
      ensures Valid() && !info.itsFirstMove
      ensures grid[info.playerX][info.playerY].state == Digged && !grid[info.playerX][info.playerY].isMine
      ensures Evolved(old(grid), grid, info.mapWidth, info.mapHeight, true)
      ensures Interior(grid, info.mapWidth, info.mapHeight, IsDugMine) == 0
      ensures old(Interior(grid, info.mapWidth, info.mapHeight, IsDugMine)) == 0
      ensures SameStatesBut(old(grid), grid, info.mapWidth, info.mapHeight, Pos(info.playerX, info.playerY))
    {
      ghost var g0 := grid;
      UntouchedFromCounts(grid, info.mapWidth, info.mapHeight);
      MarkDug(info.playerX, info.playerY);
      info.itsFirstMove := false;
      RelocateAndRecount(draws, g0);
    }

    /** The relocation and the recount that follow the first dig onto a
        mine, from the board g0 the dig started on. */
    method RelocateAndRecount(draws: seq<Pos>, ghost g0: Grid)
      requires Tied() && IsInterior(info.mapWidth, info.mapHeight, info.playerX, info.playerY)
      requires Consistent(g0, info.mapWidth, info.mapHeight, info.diggedCount - 1, info.flagsCount, info.minesCount,
                          true, info.gameIsRunning)
      requires g0[info.playerX][info.playerY].isMine && !info.itsFirstMove
      requires grid == Put(g0, info.playerX, info.playerY, g0[info.playerX][info.playerY].(state := Digged))
      requires InRange(draws, info.mapWidth, info.mapHeight)
      requires HasFreeDraw(g0, info.mapWidth, info.mapHeight, draws)
      modifies this`grid, cells
      ensures Valid()
      ensures grid[info.playerX][info.playerY].state == Digged && !grid[info.playerX][info.playerY].isMine
      ensures Evolved(g0, grid, info.mapWidth, info.mapHeight, true)
      ensures Interior(grid, info.mapWidth, info.mapHeight, IsDugMine) == 0
      ensures Interior(g0, info.mapWidth, info.mapHeight, IsDugMine) == 0
      ensures SameStatesBut(g0, grid, info.mapWidth, info.mapHeight, Pos(info.playerX, info.playerY))
    {
      var w, h := info.mapWidth, info.mapHeight;
      FreeDrawStays(g0, grid, w, h, draws);
      ghost var q := RelocateFirstMine(draws);
      SetMinesCountAround();
      FirstMineMoved(g0, grid, w, h, Pos(info.playerX, info.playerY), q,
                     info.diggedCount - 1, info.flagsCount, info.minesCount, info.gameIsRunning);
    }

    /** BfsDig(cell): dig the cell, then breadth first from it: a dequeued
        cell whose count is zero has its neighbours that are off the border,
        not flagged and not dug queued and dug; a game that has stopped ends
        the search at the first such neighbour. */
    method BfsDig(sx: int, sy: int, draws: seq<Pos>)
      requires Valid() && IsInterior(info.mapWidth, info.mapHeight, sx, sy) && grid[sx][sy].state != Flag
      requires InRange(draws, info.mapWidth, info.mapHeight)
      requires info.itsFirstMove ==> sx == info.playerX && sy == info.playerY
      requires info.itsFirstMove && grid[sx][sy].isMine ==> HasFreeDraw(grid, info.mapWidth, info.mapHeight, draws)
      modifies this`grid, cells, info`diggedCount, info`itsFirstMove, info`gameIsRunning
      decreases if info != null && info.itsFirstMove then 1 else 0, 5
      ensures Valid()
      ensures grid[sx][sy].state == Digged && !info.itsFirstMove
      ensures old(info.itsFirstMove) ==> !grid[sx][sy].isMine
      ensures Evolved(old(grid), grid, info.mapWidth, info.mapHeight, old(info.itsFirstMove))
      ensures info.gameIsRunning == (old(info.gameIsRunning) && !grid[sx][sy].isMine)
      ensures (Interior(grid, info.mapWidth, info.mapHeight, IsDugMine) == 0) ==
              (old(Interior(grid, info.mapWidth, info.mapHeight, IsDugMine)) == 0 && !grid[sx][sy].isMine)
      ensures !old(info.gameIsRunning) && !old(info.itsFirstMove) ==>
                grid == Put(old(grid), sx, sy, old(grid)[sx][sy].(state := Digged))
      ensures info.gameIsRunning ==>
                Flooded(old(grid), grid, info.mapWidth, info.mapHeight, []) &&
                Expanded(grid, info.mapWidth, info.mapHeight, sx, sy)
      ensures Sourced(old(grid), grid, info.mapWidth, info.mapHeight, Pos(sx, sy))
      ensures grid[sx][sy].minesAround != 0 ==>
                SameStatesBut(old(grid), grid, info.mapWidth, info.mapHeight, Pos(sx, sy))
      ensures !old(info.itsFirstMove) && old(grid)[sx][sy].minesAround != 0 ==>
                grid == Put(old(grid), sx, sy, old(grid)[sx][sy].(state := Digged))
    {
      DigAndUpdateDiggedStat(sx, sy, draws);
      ghost var g1 := grid;
      EvolvedLoose(old(grid), grid, info.mapWidth, info.mapHeight, old(info.itsFirstMove));
      Spread(sx, sy, draws, old(grid));
      EvolvedTrans(old(grid), g1, grid, info.mapWidth, info.mapHeight, old(info.itsFirstMove), false);
    }

    /** The queue loop of BfsDig, once its start cell is dug on the way
        from board g0.  A run that ends in a running game leaves every cell
        dug since g0, the start cell among them, expanded. */
    method Spread(sx: int, sy: int, draws: seq<Pos>, ghost g0: Grid)
      requires Valid() && !info.itsFirstMove && IsInterior(info.mapWidth, info.mapHeight, sx, sy)
      requires InRange(draws, info.mapWidth, info.mapHeight)
      requires Rectangular(g0, info.mapWidth, info.mapHeight)
      requires info.gameIsRunning ==> Flooded(g0, grid, info.mapWidth, info.mapHeight, [Pos(sx, sy)])
      requires Evolved(g0, grid, info.mapWidth, info.mapHeight, true)
      requires Sourced(g0, grid, info.mapWidth, info.mapHeight, Pos(sx, sy))
      modifies this`grid, cells, info`diggedCount, info`itsFirstMove, info`gameIsRunning
      ensures Valid() && !info.itsFirstMove
      ensures Evolved(old(grid), grid, info.mapWidth, info.mapHeight, false)
      ensures info.gameIsRunning == old(info.gameIsRunning)
      ensures !info.gameIsRunning ==> grid == old(grid)
      ensures info.gameIsRunning ==>
                Flooded(g0, grid, info.mapWidth, info.mapHeight, []) &&
                Expanded(grid, info.mapWidth, info.mapHeight, sx, sy)
      ensures Sourced(g0, grid, info.mapWidth, info.mapHeight, Pos(sx, sy))
      ensures old(grid)[sx][sy].minesAround != 0 ==> grid == old(grid)
      decreases 0, 4
    {
      var w, h := info.mapWidth, info.mapHeight;
      ghost var area := (w - 2) * (h - 2);
      var queue, stop := [Pos(sx, sy)], false;
      DugBound(grid, w, h);
      while |queue| > 0 && !stop
        invariant Valid() && !info.itsFirstMove && info.diggedCount <= area
        invariant AllInterior(queue, w, h)
        invariant Evolved(old(grid), grid, w, h, false)
        invariant info.gameIsRunning == old(info.gameIsRunning)
        invariant !info.gameIsRunning ==> grid == old(grid)
        invariant stop ==> !info.gameIsRunning
        invariant Searching(g0, grid, w, h, Pos(sx, sy), queue, info.gameIsRunning)
        invariant old(grid)[sx][sy].minesAround != 0 ==> grid == old(grid) && (queue == [Pos(sx, sy)] || queue == [])
        decreases area - info.diggedCount, |queue|
      {
        ghost var before := grid;
        var cur, rest := queue[0], queue[1..];
        assert [cur] + rest == queue;
        queue, stop := SpreadFrom(cur, rest, draws);
        EvolvedTrans(old(grid), before, grid, w, h, false, false);
        DugBound(grid, w, h);
        SearchStep(g0, before, grid, w, h, Pos(sx, sy), cur, rest, queue, info.gameIsRunning);
      }
    }

    /** One turn of BfsDig's queue loop: cur has been dequeued, and if its
        count is zero its diggable neighbours are dug and join the queue. */
    method SpreadFrom(cur: Pos, queue: seq<Pos>, draws: seq<Pos>) returns (queue': seq<Pos>, stop: bool)
      requires Valid() && !info.itsFirstMove && IsInterior(info.mapWidth, info.mapHeight, cur.x, cur.y)
      requires AllInterior(queue, info.mapWidth, info.mapHeight)
      requires InRange(draws, info.mapWidth, info.mapHeight)
      modifies this`grid, cells, info`diggedCount, info`itsFirstMove, info`gameIsRunning
      decreases 0, 3
      ensures Valid() && !info.itsFirstMove
      ensures AllInterior(queue', info.mapWidth, info.mapHeight)
      ensures Evolved(old(grid), grid, info.mapWidth, info.mapHeight, false)
      ensures info.gameIsRunning == old(info.gameIsRunning)
      ensures !info.gameIsRunning ==> grid == old(grid)
      ensures old(info.diggedCount) <= info.diggedCount && |queue'| == |queue| + info.diggedCount - old(info.diggedCount)
      ensures old(grid)[cur.x][cur.y].minesAround != 0 ==>
                queue' == queue && grid == old(grid) && info.diggedCount == old(info.diggedCount)
      ensures |queue| <= |queue'| && queue'[..|queue|] == queue
      ensures forall i :: |queue| <= i < |queue'| ==>
                InBox(cur.x - 1, cur.x + 2, cur.y - 1, cur.y + 2, queue'[i].x, queue'[i].y) &&
                old(grid)[queue'[i].x][queue'[i].y].state == Default
      ensures forall i :: |queue| <= i < |queue'| ==> grid[queue'[i].x][queue'[i].y].state == Digged
      ensures forall a, b ::
                0 <= a < info.mapWidth && 0 <= b < info.mapHeight && old(grid)[a][b].state != Digged && grid[a][b].state == Digged ==>
                  Pos(a, b) in queue'[|queue|..] && InBox(cur.x - 1, cur.x + 2, cur.y - 1, cur.y + 2, a, b) &&
                  grid[cur.x][cur.y].minesAround == 0
      ensures Flooded(old(grid), grid, info.mapWidth, info.mapHeight, queue')
      ensures stop ==> !info.gameIsRunning
      ensures info.gameIsRunning ==> Expanded(grid, info.mapWidth, info.mapHeight, cur.x, cur.y)
    {
      queue', stop := queue, false;
      if cells[cur.x, cur.y].minesAround == 0 {
        var added;
        added, stop := DigNeighbours(cur.x, cur.y, draws);
        AppendInterior(queue, added, info.mapWidth, info.mapHeight);
        queue' := queue + added;
        assert forall i :: 0 <= i < |added| ==> queue'[|queue| + i] == added[i];
        assert queue'[|queue|..] == added;
        assert Step(old(grid)[cur.x][cur.y], grid[cur.x][cur.y], false);
      }
    }

    /** The inner loop of BfsDig around a dequeued cell whose count is zero:
        each neighbour off the border, not flagged and not dug is queued
        (added) and dug; stop is BfsDig's early return when the game is no
        longer running. */
    method DigNeighbours(cx: int, cy: int, draws: seq<Pos>) returns (added: seq<Pos>, stop: bool)
      requires Valid() && !info.itsFirstMove && IsInterior(info.mapWidth, info.mapHeight, cx, cy)
      requires grid[cx][cy].minesAround == 0
      requires InRange(draws, info.mapWidth, info.mapHeight)
      modifies this`grid, cells, info`diggedCount, info`itsFirstMove, info`gameIsRunning
      decreases 0, 2
      ensures Valid() && !info.itsFirstMove
      ensures AllInterior(added, info.mapWidth, info.mapHeight)
      ensures Evolved(old(grid), grid, info.mapWidth, info.mapHeight, false)
      ensures info.gameIsRunning == old(info.gameIsRunning)
      ensures !info.gameIsRunning ==> grid == old(grid)
      ensures stop ==> !info.gameIsRunning
      ensures info.diggedCount == old(info.diggedCount) + |added|
      ensures Gathered(old(grid), grid, info.mapWidth, info.mapHeight, cx, cy, added)
      ensures !stop ==> ChordDug(grid, info.mapWidth, info.mapHeight, cx, cy)
      ensures !stop ==> forall i, j ::
                InBox(cx - 1, cx + 2, cy - 1, cy + 2, i, j) && !IsBorder(info.mapWidth, info.mapHeight, i, j) && old(grid)[i][j].state == Default ==>
                  Pos(i, j) in added
    {
      var w, h := info.mapWidth, info.mapHeight;
      ZeroCountMeansNoMineAround(grid, w, h, cx, cy);
      added, stop := [], false;
      for k := 0 to 9
        invariant Valid() && !info.itsFirstMove
        invariant Evolved(old(grid), grid, w, h, false)
        invariant info.gameIsRunning == old(info.gameIsRunning)
        invariant !info.gameIsRunning ==> grid == old(grid)
        invariant info.diggedCount == old(info.diggedCount) + |added|
        invariant Gathered(old(grid), grid, w, h, cx, cy, added)
        invariant Settled(grid, w, h, cx, cy, k)
      {
        var item := BlockAt(cx, cy, k);
        if IsBorder(w, h, item.x, item.y) {
          SettledStep(grid, grid, w, h, cx, cy, k);
          continue;
        }
        var c := cells[item.x, item.y];
        if c.state == Flag || c.state == Digged {
          SettledStep(grid, grid, w, h, cx, cy, k);
          continue;
        }
        if !info.gameIsRunning {
          stop := true;
          return;
        }
        ghost var before := grid;
        DigAndUpdateDiggedStat(item.x, item.y, draws);
        GatherStep(old(grid), before, grid, w, h, cx, cy, added, item);
        added := added + [item];
        EvolvedTrans(old(grid), before, grid, w, h, false, false);
        SettledStep(before, grid, w, h, cx, cy, k);
      }
      SettledAround(grid, w, h, cx, cy);
      GatherDone(old(grid), grid, w, h, cx, cy, added);
    }

    /** GetFlaggedCellsAround(x, y): the flagged cells of the 3x3 block
        around (x, y), row by row; the block is not clipped at the border,
        whose cells are never flagged.  FlaggedAt and FlaggedComplete say
        which cells the list holds. */
    method GetFlaggedCellsAround(x: int, y: int) returns (r: seq<Cell>)
      requires Tied() && IsInterior(info.mapWidth, info.mapHeight, x, y)
      ensures r == Flagged(grid, x - 1, x + 2, y - 1, y + 2)
      ensures |r| == Count3x3(grid, x, y, IsFlagged)
    {
      r := [];
      for yI := y - 1 to y + 2
        invariant r == Flagged(grid, x - 1, x + 2, y - 1, yI)
      {
        var row := FlaggedCellsOfRow(x - 1, x + 2, yI);
        r := r + row;
      }
      FlaggedCount(grid, x - 1, x + 2, y - 1, y + 2);
    }

    /** The inner loop of GetFlaggedCellsAround over row y. */
    method FlaggedCellsOfRow(x0: int, x1: int, y: int) returns (row: seq<Cell>)
      requires Tied() && 0 <= x0 <= x1 <= info.mapWidth && 0 <= y < info.mapHeight
      ensures row == FlaggedRow(grid, x0, x1, y)
    {
      row := [];
      for xI := x0 to x1
        invariant row == FlaggedRow(grid, x0, xI, y)
      {
        if cells[xI, y].state == Flag {
          row := row + [cells[xI, y]];
        }
      }
    }

    /** The first loop of Dig's chord: the game stops if a flagged cell of
        the list has no mine under it. */
    method StopOnWrongFlag(flagged: seq<Cell>)
      requires info != null
      modifies info`gameIsRunning
      ensures info.gameIsRunning == (old(info.gameIsRunning) && forall k :: 0 <= k < |flagged| ==> flagged[k].isMine)
    {
      for k := 0 to |flagged|
        invariant info.gameIsRunning == (old(info.gameIsRunning) && forall m :: 0 <= m < k ==> flagged[m].isMine)
      {
        if !flagged[k].isMine && info.gameIsRunning {
          StopGame();
        }
      }
    }

    /** The second loop of Dig's chord: BfsDig from every cell of the 3x3
        block around the player that GetCellsAround yields, i.e. off the
        border, and that is not flagged when its turn comes.  Every such cell ends
        up dug, and the game keeps running exactly when no mine is dug. */
    method DigAround(draws: seq<Pos>)
      requires Valid() && !info.itsFirstMove
      requires InRange(draws, info.mapWidth, info.mapHeight)
      modifies this`grid, cells, info`diggedCount, info`itsFirstMove, info`gameIsRunning
      ensures Valid() && !info.itsFirstMove
      ensures Evolved(old(grid), grid, info.mapWidth, info.mapHeight, false)
      ensures ChordDug(grid, info.mapWidth, info.mapHeight, info.playerX, info.playerY)
      ensures info.gameIsRunning == (old(info.gameIsRunning) && Interior(grid, info.mapWidth, info.mapHeight, IsDugMine) == 0)
      ensures info.gameIsRunning ==> Flooded(old(grid), grid, info.mapWidth, info.mapHeight, [])
    {
      var w, h := info.mapWidth, info.mapHeight;
      for k := 0 to 9
        invariant Valid() && !info.itsFirstMove
        invariant Evolved(old(grid), grid, w, h, false)
        invariant Settled(grid, w, h, info.playerX, info.playerY, k)
        invariant info.gameIsRunning == (old(info.gameIsRunning) && Interior(grid, w, h, IsDugMine) == 0)
        invariant info.gameIsRunning ==> Flooded(old(grid), grid, w, h, [])
      {
        ghost var before := grid;
        DigUnlessFlagged(k, draws);
        EvolvedTrans(old(grid), before, grid, w, h, false, false);
        if info.gameIsRunning {
          FloodedTrans(old(grid), before, grid, w, h);
        }
      }
      SettledAround(grid, w, h, info.playerX, info.playerY);
    }

    /** One turn of the chord's second loop: BfsDig from the k-th position
        of the block unless it is on the border or flagged; either way the
        position is settled afterwards. */
    method DigUnlessFlagged(k: int, draws: seq<Pos>)
      requires Valid() && !info.itsFirstMove && 0 <= k < 9
      requires Settled(grid, info.mapWidth, info.mapHeight, info.playerX, info.playerY, k)
      requires InRange(draws, info.mapWidth, info.mapHeight)
      modifies this`grid, cells, info`diggedCount, info`itsFirstMove, info`gameIsRunning
      ensures Valid() && !info.itsFirstMove
      ensures Evolved(old(grid), grid, info.mapWidth, info.mapHeight, false)
      ensures Settled(grid, info.mapWidth, info.mapHeight, info.playerX, info.playerY, k + 1)
      ensures info.gameIsRunning == (old(info.gameIsRunning) && Interior(grid, info.mapWidth, info.mapHeight, IsDugMine) == 0)
      ensures Interior(grid, info.mapWidth, info.mapHeight, IsDugMine) == 0 ==>
                old(Interior(grid, info.mapWidth, info.mapHeight, IsDugMine)) == 0
      ensures info.gameIsRunning ==> Flooded(old(grid), grid, info.mapWidth, info.mapHeight, [])
    {
      var p := BlockAt(info.playerX, info.playerY, k);
      if !IsBorder(info.mapWidth, info.mapHeight, p.x, p.y) && cells[p.x, p.y].state != Flag {
        BfsDig(p.x, p.y, draws);
      }
      SettledStep(old(grid), grid, info.mapWidth, info.mapHeight, info.playerX, info.playerY, k);
    }

    /** The chord of Dig: when flags sit around the player and number the
        player's count, a flag without a mine under it stops the game, and
        every unflagged cell around is dug by BfsDig.  A dug mine ends the
        game either way, so the game keeps running exactly when no mine
        has been dug. */
    method Chord(draws: seq<Pos>)
      requires Valid() && !info.itsFirstMove
      requires InRange(draws, info.mapWidth, info.mapHeight)
      modifies this`grid, cells, info`diggedCount, info`itsFirstMove, info`gameIsRunning
      ensures Valid() && !info.itsFirstMove
      ensures Evolved(old(grid), grid, info.mapWidth, info.mapHeight, false)
      ensures old(ChordFires(grid, info.playerX, info.playerY)) ==>
                ChordDug(grid, info.mapWidth, info.mapHeight, info.playerX, info.playerY)
      ensures !old(ChordFires(grid, info.playerX, info.playerY)) ==>
                grid == old(grid) && info.diggedCount == old(info.diggedCount) &&
                info.gameIsRunning == old(info.gameIsRunning)
      ensures info.gameIsRunning == (old(info.gameIsRunning) && Interior(grid, info.mapWidth, info.mapHeight, IsDugMine) == 0)
      ensures Interior(grid, info.mapWidth, info.mapHeight, IsDugMine) == 0 ==>
                old(Interior(grid, info.mapWidth, info.mapHeight, IsDugMine)) == 0
      ensures info.gameIsRunning ==> Flooded(old(grid), grid, info.mapWidth, info.mapHeight, [])
    {
      var w, h, px, py := info.mapWidth, info.mapHeight, info.playerX, info.playerY;
      var flagged := GetFlaggedCellsAround(px, py);
      if |flagged| != 0 && |flagged| == cells[px, py].minesAround {
        ghost var g0 := grid;
        StopOnWrongFlag(flagged);
        DigAround(draws);
        assert Counted(g0, px, py);
        ChordListDigsMine(g0, grid, w, h, px, py, flagged);
      }
    }

    /** The end of Dig, with the loss checked first: a game that has stopped
        is lost, a running game whose safe cells are all dug is won, and
        either result stops the game. */
    method EndOfDig() returns (outcome: Outcome)
      requires Valid()
      modifies info`gameIsRunning
      ensures Valid()
      ensures outcome == Won <==> old(info.gameIsRunning) && Cleared(grid, info.mapWidth, info.mapHeight)
      ensures outcome == Lost <==> !old(info.gameIsRunning)
      ensures info.gameIsRunning == (old(info.gameIsRunning) && outcome == Continue)
    {
      WonMeansCleared(grid, info.mapWidth, info.mapHeight, info.minesCount, info.diggedCount, info.gameIsRunning);
      outcome := DigOutcome(AllWithoutMinesHasDigged(info.mapWidth, info.mapHeight, info.minesCount, info.diggedCount),
                            info.gameIsRunning);
      if outcome != Continue {
        StopGame();
      }
    }

    /** Dig: nothing happens on a flagged cell.  Otherwise BfsDig from the
        player's cell, the chord when it fires, and the end-of-dig test.
        The game is won when it was running, no mine has been dug and every
        safe cell is dug; it is lost when a mine has been dug or it had
        already stopped; the first dig of a game is never lost. */
    method Dig(draws: seq<Pos>) returns (outcome: Outcome)
      requires Valid() && InRange(draws, info.mapWidth, info.mapHeight)
      requires info.itsFirstMove && grid[info.playerX][info.playerY].isMine ==>
                 HasFreeDraw(grid, info.mapWidth, info.mapHeight, draws)
      modifies this`grid, cells, info`diggedCount, info`itsFirstMove, info`gameIsRunning
      ensures Valid()
      ensures Evolved(old(grid), grid, info.mapWidth, info.mapHeight, old(info.itsFirstMove))
      ensures old(grid[info.playerX][info.playerY].state) == Flag ==>
                grid == old(grid) && outcome == Continue && info.diggedCount == old(info.diggedCount) &&
                info.itsFirstMove == old(info.itsFirstMove) && info.gameIsRunning == old(info.gameIsRunning)
      ensures old(grid[info.playerX][info.playerY].state) != Flag ==>
                grid[info.playerX][info.playerY].state == Digged && !info.itsFirstMove
      ensures old(grid[info.playerX][info.playerY].state) != Flag && old(ChordFires(grid, info.playerX, info.playerY)) ==>
                ChordDug(grid, info.mapWidth, info.mapHeight, info.playerX, info.playerY)
      ensures outcome == Won <==>
                old(grid[info.playerX][info.playerY].state) != Flag && old(info.gameIsRunning) &&
                Interior(grid, info.mapWidth, info.mapHeight, IsDugMine) == 0 && Cleared(grid, info.mapWidth, info.mapHeight)
      ensures outcome == Lost <==>
                old(grid[info.playerX][info.playerY].state) != Flag &&
                !(old(info.gameIsRunning) && Interior(grid, info.mapWidth, info.mapHeight, IsDugMine) == 0)
      ensures info.gameIsRunning == (old(info.gameIsRunning) && outcome == Continue)
      ensures old(info.itsFirstMove) && old(info.gameIsRunning) ==> outcome != Lost
      ensures outcome != Lost ==> Flooded(old(grid), grid, info.mapWidth, info.mapHeight, [])
      ensures old(grid[info.playerX][info.playerY].state) != Flag && outcome != Lost ==>
                Expanded(grid, info.mapWidth, info.mapHeight, info.playerX, info.playerY)
      ensures !old(ChordFires(grid, info.playerX, info.playerY)) && grid[info.playerX][info.playerY].minesAround != 0 ==>
                SameStatesBut(old(grid), grid, info.mapWidth, info.mapHeight, Pos(info.playerX, info.playerY))
      ensures old(grid[info.playerX][info.playerY].state) != Flag && !old(info.itsFirstMove) &&
              old(grid[info.playerX][info.playerY].minesAround) != 0 && !old(ChordFires(grid, info.playerX, info.playerY)) ==>
                grid == Put(old(grid), info.playerX, info.playerY, old(grid)[info.playerX][info.playerY].(state := Digged))
    {
      if cells[info.playerX, info.playerY].state == Flag {
        return Continue;
      }
      DigAndChord(draws);
      outcome := EndOfDig();
    }

    /** Dig on an unflagged cell, up to the end-of-dig test: BfsDig from
        the player's cell, then the chord.  Afterwards the game runs exactly
        when it ran before and no mine is dug, which the first dig never
        changes. */
    method DigAndChord(draws: seq<Pos>)
      requires Valid() && InRange(draws, info.mapWidth, info.mapHeight)
      requires grid[info.playerX][info.playerY].state != Flag
      requires info.itsFirstMove && grid[info.playerX][info.playerY].isMine ==>
                 HasFreeDraw(grid, info.mapWidth, info.mapHeight, draws)
      modifies this`grid, cells, info`diggedCount, info`itsFirstMove, info`gameIsRunning
      ensures Valid() && !info.itsFirstMove
      ensures Evolved(old(grid), grid, info.mapWidth, info.mapHeight, old(info.itsFirstMove))
      ensures grid[info.playerX][info.playerY].state == Digged
      ensures old(ChordFires(grid, info.playerX, info.playerY)) ==>
                ChordDug(grid, info.mapWidth, info.mapHeight, info.playerX, info.playerY)
      ensures info.gameIsRunning == (old(info.gameIsRunning) && Interior(grid, info.mapWidth, info.mapHeight, IsDugMine) == 0)
      ensures old(info.itsFirstMove) && old(info.gameIsRunning) ==> info.gameIsRunning
      ensures info.gameIsRunning ==>
                Flooded(old(grid), grid, info.mapWidth, info.mapHeight, []) &&
                Expanded(grid, info.mapWidth, info.mapHeight, info.playerX, info.playerY)
      ensures !old(ChordFires(grid, info.playerX, info.playerY)) && grid[info.playerX][info.playerY].minesAround != 0 ==>
                SameStatesBut(old(grid), grid, info.mapWidth, info.mapHeight, Pos(info.playerX, info.playerY))
      ensures !old(info.itsFirstMove) && old(grid)[info.playerX][info.playerY].minesAround != 0 &&
              !old(ChordFires(grid, info.playerX, info.playerY)) ==>
                grid == Put(old(grid), info.playerX, info.playerY, old(grid)[info.playerX][info.playerY].(state := Digged))
    {
      ghost var first := info.itsFirstMove;
      BfsDig(info.playerX, info.playerY, draws);
      ChordAfterDig(old(grid), first, old(info.gameIsRunning), draws);
    }

    /** The chord part of DigAndChord, on the board g0 that the dig of the
        player's cell started from. */
    method ChordAfterDig(ghost g0: Grid, ghost first: bool, ghost running: bool, draws: seq<Pos>)
      requires Valid() && !info.itsFirstMove && InRange(draws, info.mapWidth, info.mapHeight)
      requires Layout(g0, info.mapWidth, info.mapHeight) && Evolved(g0, grid, info.mapWidth, info.mapHeight, first)
      requires first ==> Interior(g0, info.mapWidth, info.mapHeight, IsFlagged) == 0 &&
                         Interior(grid, info.mapWidth, info.mapHeight, IsFlagged) == 0
      requires grid[info.playerX][info.playerY].state == Digged
      requires info.gameIsRunning == (running && Interior(grid, info.mapWidth, info.mapHeight, IsDugMine) == 0)
      requires info.gameIsRunning ==>
                 Flooded(g0, grid, info.mapWidth, info.mapHeight, []) &&
                 Expanded(grid, info.mapWidth, info.mapHeight, info.playerX, info.playerY)
      modifies this`grid, cells, info`diggedCount, info`itsFirstMove, info`gameIsRunning
      ensures Valid() && !info.itsFirstMove
      ensures Evolved(g0, grid, info.mapWidth, info.mapHeight, first)
      ensures grid[info.playerX][info.playerY].state == Digged
      ensures ChordFires(g0, info.playerX, info.playerY) ==>
                ChordDug(grid, info.mapWidth, info.mapHeight, info.playerX, info.playerY)
      ensures info.gameIsRunning == (running && Interior(grid, info.mapWidth, info.mapHeight, IsDugMine) == 0)
      ensures first ==> info.gameIsRunning == old(info.gameIsRunning)
      ensures !ChordFires(g0, info.playerX, info.playerY) ==> grid == old(grid)
      ensures info.gameIsRunning ==>
                Flooded(g0, grid, info.mapWidth, info.mapHeight, []) &&
                Expanded(grid, info.mapWidth, info.mapHeight, info.playerX, info.playerY)
    {
      var px, py := info.playerX, info.playerY;
      DigKeepsChordFires(g0, grid, info.mapWidth, info.mapHeight, px, py, first);
      ghost var g1 := grid;
      Chord(draws);
      assert Step(g1[px][py], grid[px][py], false);
      EvolvedTrans(g0, g1, grid, info.mapWidth, info.mapHeight, first, false);
      if info.gameIsRunning {
        FloodedTrans(g0, g1, grid, info.mapWidth, info.mapHeight);
        ExpandedStays(g1, grid, info.mapWidth, info.mapHeight, px, py);
      }
    }

    /** SetFlagAndUpdateFlagsInStat: ignored on the first move; otherwise an
        untouched cell under the player gets a flag and the flags left drop
        by one, a flag is taken off and they grow by one, and a dug cell
        stays as it is. */
    method SetFlagAndUpdateFlagsInStat()
      requires Valid()
      modifies this`grid, cells, info`flagsCount
      ensures Valid()
      ensures old(info.itsFirstMove) || old(grid[info.playerX][info.playerY].state) == Digged ==>
                grid == old(grid) && info.flagsCount == old(info.flagsCount)
      ensures !old(info.itsFirstMove) && old(grid[info.playerX][info.playerY].state) == Default ==>
                grid == Put(old(grid), info.playerX, info.playerY, old(grid)[info.playerX][info.playerY].(state := Flag)) &&
                info.flagsCount == old(info.flagsCount) - 1
      ensures !old(info.itsFirstMove) && old(grid[info.playerX][info.playerY].state) == Flag ==>
                grid == Put(old(grid), info.playerX, info.playerY, old(grid)[info.playerX][info.playerY].(state := Default)) &&
                info.flagsCount == old(info.flagsCount) + 1
    {
      if info.itsFirstMove {
        return;
      }
      var s := cells[info.playerX, info.playerY].state;
      if s == Default {
        Toggle(Flag);
      } else if s == Flag {
        Toggle(Default);
      }
    }

    /** The two arms of SetFlagAndUpdateFlagsInStat: SetFlag or SetDefault on
        the player's cell, and the flags left moved to match. */
    method Toggle(s: State)
      requires Valid() && !info.itsFirstMove
      requires (grid[info.playerX][info.playerY].state == Default && s == Flag) ||
               (grid[info.playerX][info.playerY].state == Flag && s == Default)
      modifies this`grid, cells, info`flagsCount
      ensures Valid()
      ensures grid == Put(old(grid), info.playerX, info.playerY, old(grid)[info.playerX][info.playerY].(state := s))
      ensures info.flagsCount == old(info.flagsCount) + Ind(s == Default) - Ind(s == Flag)
    {
      ToggleFlag(grid, info.mapWidth, info.mapHeight, info.playerX, info.playerY, info.diggedCount, info.flagsCount,
                 info.minesCount, info.gameIsRunning, s);
      SetState(info.playerX, info.playerY, s);
      info.flagsCount := info.flagsCount + Ind(s == Default) - Ind(s == Flag);
    }

    /** Move(x, y): a border cell refuses the player; otherwise the player
        goes to (x, y).  Redrawing the old cell as untouched, flagged or dug
        writes back the state it already has, so the map does not change. */
    method Move(x: int, y: int)
      requires Valid() && InGrid(info.mapWidth, info.mapHeight, x, y)
      modifies info`playerX, info`playerY
      ensures Valid()
      ensures IsBorder(info.mapWidth, info.mapHeight, x, y) ==>
                info.playerX == old(info.playerX) && info.playerY == old(info.playerY)
      ensures !IsBorder(info.mapWidth, info.mapHeight, x, y) ==> info.playerX == x && info.playerY == y
    {
      if IsBorder(info.mapWidth, info.mapHeight, x, y) {
        return;
      }
      info.playerX, info.playerY := x, y;
    }

    method MoveUp()
      requires Valid()
      modifies info`playerX, info`playerY
      ensures Valid() && info.playerX == old(info.playerX)
      ensures info.playerY == if old(info.playerY) == 1 then 1 else old(info.playerY) - 1
    {
      Move(info.playerX, info.playerY - 1);
    }

    method MoveDown()
      requires Valid()
      modifies info`playerX, info`playerY
      ensures Valid() && info.playerX == old(info.playerX)
      ensures info.playerY == if old(info.playerY) == info.mapHeight - 2 then old(info.playerY) else old(info.playerY) + 1
    {
      Move(info.playerX, info.playerY + 1);
    }

    method MoveRight()
      requires Valid()
      modifies info`playerX, info`playerY
      ensures Valid() && info.playerY == old(info.playerY)
      ensures info.playerX == if old(info.playerX) == info.mapWidth - 2 then old(info.playerX) else old(info.playerX) + 1
    {
      Move(info.playerX + 1, info.playerY);
    }

    method MoveLeft()
      requires Valid()
      modifies info`playerX, info`playerY
      ensures Valid() && info.playerY == old(info.playerY)
      ensures info.playerX == if old(info.playerX) == 1 then 1 else old(info.playerX) - 1
    {
      Move(info.playerX - 1, info.playerY);
    }
  }
}
