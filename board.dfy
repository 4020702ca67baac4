/** The board of Game.cs as a value: what a well-formed map looks like, the
    counters GameInfo keeps about it, the neighbourhood GetCellsAround
    yields, and the win test. */
module Boards {
  import opened Cells
  import opened Grids

  /** A cell of Game.cs's map at (x, y): it carries its own position, a
      border cell is the `new Cell(x, y)` Init put there and nothing ever
      changes, and a playable cell never takes the engine-only Border state. */
  predicate Placed(c: Cell, w: int, h: int, x: int, y: int) {
    c.x == x && c.y == y &&
    if IsBorder(w, h, x, y) then c == NewCell(x, y) else c.state != Border
  }

  /** The shape of Game.cs's map: at least one playable cell inside the
      border ring, and every cell placed. */
  ghost predicate Layout(g: Grid, w: int, h: int) {
    Rectangular(g, w, h) && 3 <= w && 3 <= h &&
    forall x, y :: 0 <= x < w && 0 <= y < h ==> Placed(g[x][y], w, h, x, y)
  }

  /** SetMinesCountAround's result: every playable cell holds the number of
      mines in the 3x3 block centred on it, itself included. */
  ghost predicate Adjacent(g: Grid, w: int, h: int)
    requires Rectangular(g, w, h)
  {
    forall x, y :: 1 <= x <= w - 2 && 1 <= y <= h - 2 ==> Counted(g, x, y)
  }

  /** The cell at (x, y) holds the number of mines in its 3x3 block. */
  ghost predicate Counted(g: Grid, x: int, y: int)
    requires Box(g, x - 1, x + 2, y - 1, y + 2)
  {
    g[x][y].minesAround == Count3x3(g, x, y, IsMine)
  }

  /** Number of playable cells that satisfy p: GameInfo's counters count these. */
  ghost function Interior(g: Grid, w: int, h: int, p: Prop): nat
    requires Rectangular(g, w, h)
  {
    Count(g, 1, w - 1, 1, h - 1, p)
  }

  /** How a cell may change while digging: its state stays, or goes from
      Default to Digged; flags are never touched; and unless the first-move
      mine relocation runs, neither the mine nor the count changes. */
  predicate Step(a: Cell, b: Cell, relocating: bool) {
    a.x == b.x && a.y == b.y &&
    (b.state == a.state || (a.state == Default && b.state == Digged)) &&
    (!relocating ==> a.isMine == b.isMine && a.minesAround == b.minesAround)
  }

  ghost predicate Evolved(g1: Grid, g2: Grid, w: int, h: int, relocating: bool)
    requires Rectangular(g1, w, h) && Rectangular(g2, w, h)
  {
    forall x, y {:trigger g1[x][y], g2[x][y]} :: 0 <= x < w && 0 <= y < h ==> Step(g1[x][y], g2[x][y], relocating)
  }

  /** g2 equals g1 except, possibly, in each cell's mine count. */
  ghost predicate OnlyCountsDiffer(g1: Grid, g2: Grid, w: int, h: int)
    requires Rectangular(g1, w, h) && Rectangular(g2, w, h)
  {
    forall x, y :: 0 <= x < w && 0 <= y < h ==> g2[x][y] == g1[x][y].(minesAround := g2[x][y].minesAround)
  }

  /** g2 equals g1 except, possibly, in where the mines are. */
  ghost predicate OnlyMinesDiffer(g1: Grid, g2: Grid, w: int, h: int)
    requires Rectangular(g1, w, h) && Rectangular(g2, w, h)
  {
    forall x, y :: 0 <= x < w && 0 <= y < h ==> g2[x][y] == g1[x][y].(isMine := g2[x][y].isMine)
  }

  /** GetCellsAround(x, y) walks the 3x3 block around (x, y) row by row,
      left to right, the centre included; BlockAt(x, y, k) is the k-th cell
      it reaches.  The walk skips border cells, and the variant without
      flagged cells skips flags as they are reached; the loops that walk the
      block make those two tests where they visit each position. */
  function BlockAt(x: int, y: int, k: int): (p: Pos)
    requires 0 <= k < 9
    ensures InBox(x - 1, x + 2, y - 1, y + 2, p.x, p.y)
  {
    Pos(x - 1 + k % 3, y - 1 + k / 3)
  }

  /** The walk reaches every cell of the block. */
  lemma BlockAtOnto(x: int, y: int, i: int, j: int) returns (k: int)
    requires InBox(x - 1, x + 2, y - 1, y + 2, i, j)
    ensures 0 <= k < 9 && BlockAt(x, y, k) == Pos(i, j)
  {
    k := 3 * (j - y + 1) + (i - x + 1);
  }

  // ---------------------------------------------------------------------------
  // Lemmas

  /** Changing the state of one playable cell keeps the layout. */
  lemma StateChangeKeepsLayout(g: Grid, w: int, h: int, x: int, y: int, s: State)
    requires Layout(g, w, h)
    requires IsInterior(w, h, x, y) && s != Border
    ensures Layout(Put(g, x, y, g[x][y].(state := s)), w, h)
  {
  }

  /** Changing the state of one playable cell keeps every adjacency count,
      since no count looks at states. */
  lemma StateChangeKeepsBoard(g: Grid, w: int, h: int, x: int, y: int, s: State)
    requires Layout(g, w, h) && Adjacent(g, w, h)
    requires IsInterior(w, h, x, y) && s != Border
    ensures Layout(Put(g, x, y, g[x][y].(state := s)), w, h)
    ensures Adjacent(Put(g, x, y, g[x][y].(state := s)), w, h)
  {
    var c := g[x][y].(state := s);
    var g': Grid := Put(g, x, y, c);
    forall i: int, j: int | IsInterior(w, h, i, j)
      ensures Counted(g', i, j)
    {
      assert Counted(g, i, j);
      CountPut(g, i - 1, i + 2, j - 1, j + 2, IsMine, x, y, c);
    }
  }

  /** The dug and flag counters after the state of one playable cell
      changes to s: each moves by what the old and the new cell contribute. */
  lemma StateChangeCounts(g: Grid, w: int, h: int, x: int, y: int, s: State)
    requires Rectangular(g, w, h) && IsInterior(w, h, x, y)
    ensures var g' := Put(g, x, y, g[x][y].(state := s));
      && Interior(g', w, h, IsDigged) + Ind(g[x][y].state == Digged) == Interior(g, w, h, IsDigged) + Ind(s == Digged)
      && Interior(g', w, h, IsFlagged) + Ind(g[x][y].state == Flag) == Interior(g, w, h, IsFlagged) + Ind(s == Flag)
  {
    var c := g[x][y].(state := s);
    CountPut(g, 1, w - 1, 1, h - 1, IsDigged, x, y, c);
    CountPut(g, 1, w - 1, 1, h - 1, IsFlagged, x, y, c);
  }

  /** The mine and dug-mine counters after the state of one playable cell
      changes to s. */
  lemma StateChangeMineCounts(g: Grid, w: int, h: int, x: int, y: int, s: State)
    requires Rectangular(g, w, h) && IsInterior(w, h, x, y)
    ensures var g' := Put(g, x, y, g[x][y].(state := s));
      && Interior(g', w, h, IsMine) == Interior(g, w, h, IsMine)
      && Interior(g', w, h, IsDugMine) + Ind(g[x][y].isMine && g[x][y].state == Digged)
         == Interior(g, w, h, IsDugMine) + Ind(g[x][y].isMine && s == Digged)
  {
    var c := g[x][y].(state := s);
    CountPut(g, 1, w - 1, 1, h - 1, IsMine, x, y, c);
    CountPut(g, 1, w - 1, 1, h - 1, IsDugMine, x, y, c);
  }

  /** Putting a mine on, or taking it off, a playable cell keeps the layout. */
  lemma MineChangeKeepsLayout(g: Grid, w: int, h: int, x: int, y: int, m: bool)
    requires Layout(g, w, h) && IsInterior(w, h, x, y)
    ensures Layout(Put(g, x, y, g[x][y].(isMine := m)), w, h)
  {
  }

  /** Putting a mine on, or taking it off, a playable cell moves the mine
      count by one at most and keeps the state counters. */
  lemma MineChange(g: Grid, w: int, h: int, x: int, y: int, m: bool)
    requires Rectangular(g, w, h) && IsInterior(w, h, x, y)
    ensures var g' := Put(g, x, y, g[x][y].(isMine := m));
      && Interior(g', w, h, IsMine) + Ind(g[x][y].isMine) == Interior(g, w, h, IsMine) + Ind(m)
      && Interior(g', w, h, IsDigged) == Interior(g, w, h, IsDigged)
      && Interior(g', w, h, IsFlagged) == Interior(g, w, h, IsFlagged)
  {
    var c := g[x][y].(isMine := m);
    CountPut(g, 1, w - 1, 1, h - 1, IsMine, x, y, c);
    CountPut(g, 1, w - 1, 1, h - 1, IsDigged, x, y, c);
    CountPut(g, 1, w - 1, 1, h - 1, IsFlagged, x, y, c);
  }

  /** No more cells are dug than there are playable cells. */
  lemma DugBound(g: Grid, w: int, h: int)
    requires Rectangular(g, w, h) && 2 <= w && 2 <= h
    ensures Interior(g, w, h, IsDigged) <= (w - 2) * (h - 2)
  {
    assert Interior(g, w, h, IsDigged) <= (w - 1 - 1) * (h - 1 - 1);
  }

  /** A playable cell without a mine leaves the mines fewer than the
      playable cells. */
  lemma FreeCellBound(g: Grid, w: int, h: int, x: int, y: int)
    requires Layout(g, w, h) && IsInterior(w, h, x, y) && !g[x][y].isMine
    ensures Interior(g, w, h, IsMine) < (w - 2) * (h - 2)
  {
    CountArea(g, 1, w - 1, 1, h - 1);
    forall i, j | InBox(1, w - 1, 1, h - 1, i, j)
      ensures Ind(Holds(Anything, g[i][j])) == Ind(Holds(IsMine, g[i][j])) + Ind(Holds(NotMine, g[i][j]))
    {
    }
    CountSplit(g, 1, w - 1, 1, h - 1, IsMine, NotMine, Anything);
    CountZero(g, 1, w - 1, 1, h - 1, NotMine);
  }

  /** A board whose playable cells are all untouched has nothing dug and
      nothing flagged. */
  lemma UntouchedCounts(g: Grid, w: int, h: int)
    requires Layout(g, w, h)
    requires forall x, y :: IsInterior(w, h, x, y) ==> g[x][y].state == Default
    ensures Interior(g, w, h, IsDigged) == 0 && Interior(g, w, h, IsFlagged) == 0
    ensures Interior(g, w, h, IsDugMine) == 0
  {
    CountZero(g, 1, w - 1, 1, h - 1, IsDigged);
    CountZero(g, 1, w - 1, 1, h - 1, IsFlagged);
    CountZero(g, 1, w - 1, 1, h - 1, IsDugMine);
  }

  /** The board Init starts from, `new Cell(x, y)` everywhere, is laid out
      and holds no mine. */
  lemma FreshBoard(g: Grid, w: int, h: int)
    requires Rectangular(g, w, h) && 3 <= w && 3 <= h
    requires forall x, y :: InGrid(w, h, x, y) ==> g[x][y] == NewCell(x, y)
    ensures Layout(g, w, h) && Interior(g, w, h, IsMine) == 0
  {
    CountZero(g, 1, w - 1, 1, h - 1, IsMine);
  }

  /** A board with nothing dug and nothing flagged is untouched. */
  lemma UntouchedFromCounts(g: Grid, w: int, h: int)
    requires Layout(g, w, h)
    requires Interior(g, w, h, IsDigged) == 0 && Interior(g, w, h, IsFlagged) == 0
    ensures forall x, y :: IsInterior(w, h, x, y) ==> g[x][y].state == Default
  {
    CountZero(g, 1, w - 1, 1, h - 1, IsDigged);
    CountZero(g, 1, w - 1, 1, h - 1, IsFlagged);
  }

  lemma EvolvedTrans(g1: Grid, g2: Grid, g3: Grid, w: int, h: int, r1: bool, r2: bool)
    requires Rectangular(g1, w, h) && Rectangular(g2, w, h) && Rectangular(g3, w, h)
    requires Evolved(g1, g2, w, h, r1) && Evolved(g2, g3, w, h, r2)
    ensures Evolved(g1, g3, w, h, r1 || r2)
  {
    forall x, y | 0 <= x < w && 0 <= y < h
      ensures Step(g1[x][y], g3[x][y], r1 || r2)
    {
      assert Step(g1[x][y], g2[x][y], r1) && Step(g2[x][y], g3[x][y], r2);
    }
  }

  /** g with the mine at p taken away and one put at q. */
  function MoveMine(g: Grid, p: Pos, q: Pos): Grid
    requires 0 <= p.x < |g| && 0 <= p.y < |g[p.x]| && 0 <= q.x < |g| && 0 <= q.y < |g[q.x]|
  {
    var g1 := Put(g, p.x, p.y, g[p.x][p.y].(isMine := false));
    Put(g1, q.x, q.y, g1[q.x][q.y].(isMine := true))
  }

  /** Moving a mine from p to a free playable cell q keeps the number of
      mines, the layout and the state counters. */
  lemma MineMoved(g: Grid, w: int, h: int, p: Pos, q: Pos)
    requires Layout(g, w, h) && IsInterior(w, h, p.x, p.y) && g[p.x][p.y].isMine
    requires IsInterior(w, h, q.x, q.y) && q != p && !g[q.x][q.y].isMine
    ensures Layout(MoveMine(g, p, q), w, h)
    ensures Interior(MoveMine(g, p, q), w, h, IsMine) == Interior(g, w, h, IsMine)
    ensures Interior(MoveMine(g, p, q), w, h, IsDigged) == Interior(g, w, h, IsDigged)
    ensures Interior(MoveMine(g, p, q), w, h, IsFlagged) == Interior(g, w, h, IsFlagged)
  {
    var g1: Grid := Put(g, p.x, p.y, g[p.x][p.y].(isMine := false));
    MineChange(g, w, h, p.x, p.y, false);
    MineChangeKeepsLayout(g, w, h, p.x, p.y, false);
    MineChange(g1, w, h, q.x, q.y, true);
    MineChangeKeepsLayout(g1, w, h, q.x, q.y, true);
  }

  /** GameInfo's counters agree with the board g: the laid-out board has
      its counts right, dug is the number of dug cells, flags plus the
      flags on the board is the number of mines, nothing is dug or flagged
      before the first move, and a running game has no dug mine. */
  ghost predicate Consistent(g: Grid, w: int, h: int, dug: int, flags: int, mines: int, first: bool, running: bool)
  {
    Layout(g, w, h) && Adjacent(g, w, h) &&
    dug == Interior(g, w, h, IsDigged) &&
    flags + Interior(g, w, h, IsFlagged) == mines &&
    mines == Interior(g, w, h, IsMine) &&
    (first ==> Interior(g, w, h, IsDigged) == 0 && Interior(g, w, h, IsFlagged) == 0) &&
    (running ==> Interior(g, w, h, IsDugMine) == 0)
  }

  /** Digging a playable, unflagged cell outside the first-move relocation:
      the cell becomes Digged, the dug counter grows when it was untouched,
      the counters stay consistent once a mine hit stops the game, and a
      dug mine appears exactly when the cell holds one. */
  lemma DigCell(g: Grid, w: int, h: int, x: int, y: int, dug: int, flags: int, mines: int, first: bool, running: bool)
    requires Consistent(g, w, h, dug, flags, mines, first, running)
    requires IsInterior(w, h, x, y) && g[x][y].state != Flag
    requires first ==> !g[x][y].isMine
    ensures var g' := Put(g, x, y, g[x][y].(state := Digged));
      && Consistent(g', w, h, dug + Ind(g[x][y].state == Default), flags, mines, false, running && !g[x][y].isMine)
      && Evolved(g, g', w, h, false)
      && (Interior(g', w, h, IsDugMine) == 0 <==> Interior(g, w, h, IsDugMine) == 0 && !g[x][y].isMine)
  {
    var g': Grid := Put(g, x, y, g[x][y].(state := Digged));
    StateChangeKeepsBoard(g, w, h, x, y, Digged);
    StateChangeCounts(g, w, h, x, y, Digged);
    StateChangeMineCounts(g, w, h, x, y, Digged);
    if g[x][y].isMine {
      CountZero(g', 1, w - 1, 1, h - 1, IsDugMine);
      assert Holds(IsDugMine, g'[x][y]);
    }
  }

  /** The first dig of a game, when it hits a mine: the cell at p is dug
      (g1), its mine is moved to a free playable cell q (g2) and the counts
      are recomputed (g3).  The result has the same number of mines, one dug
      cell, no flag and no dug mine. */
  lemma FirstMineMoved(g0: Grid, g3: Grid, w: int, h: int, p: Pos, q: Pos,
                       dug: int, flags: int, mines: int, running: bool)
    requires Consistent(g0, w, h, dug, flags, mines, true, running)
    requires IsInterior(w, h, p.x, p.y) && g0[p.x][p.y].isMine
    requires IsInterior(w, h, q.x, q.y) && q != p && !g0[q.x][q.y].isMine
    requires Layout(g3, w, h) && Adjacent(g3, w, h)
    requires OnlyCountsDiffer(MoveMine(Put(g0, p.x, p.y, g0[p.x][p.y].(state := Digged)), p, q), g3, w, h)
    ensures Consistent(g3, w, h, dug + 1, flags, mines, false, running)
    ensures Interior(g3, w, h, IsMine) == Interior(g0, w, h, IsMine)
    ensures Interior(g3, w, h, IsDigged) == 1 && Interior(g3, w, h, IsFlagged) == 0
    ensures Interior(g3, w, h, IsDugMine) == 0 && Interior(g0, w, h, IsDugMine) == 0
    ensures g3[p.x][p.y].state == Digged && !g3[p.x][p.y].isMine
    ensures Evolved(g0, g3, w, h, true)
    ensures SameStatesBut(g0, g3, w, h, p)
  {
    UntouchedFromCounts(g0, w, h);
    var g1: Grid := Put(g0, p.x, p.y, g0[p.x][p.y].(state := Digged));
    StateChangeCounts(g0, w, h, p.x, p.y, Digged);
    StateChangeMineCounts(g0, w, h, p.x, p.y, Digged);
    StateChangeKeepsLayout(g0, w, h, p.x, p.y, Digged);
    MineMoved(g1, w, h, p, q);
    CountsIgnoreMinesAround(MoveMine(g1, p, q), g3, w, h);
    OnlyFirstCellDug(g0, g3, w, h, p);
    UntouchedCounts(g0, w, h);
  }

  /** When g3 has the states of an untouched g0 except at p, where no mine
      is left, no mine is dug. */
  lemma OnlyFirstCellDug(g0: Grid, g3: Grid, w: int, h: int, p: Pos)
    requires Rectangular(g0, w, h) && Rectangular(g3, w, h)
    requires forall x, y :: IsInterior(w, h, x, y) ==> g0[x][y].state == Default
    requires forall x, y :: IsInterior(w, h, x, y) && (x != p.x || y != p.y) ==> g3[x][y].state == g0[x][y].state
    requires IsInterior(w, h, p.x, p.y) ==> !g3[p.x][p.y].isMine
    ensures Interior(g3, w, h, IsDugMine) == 0
  {
    CountZero(g3, 1, w - 1, 1, h - 1, IsDugMine);
  }

  /** Mines in the block split by flag, and so do the flags by mine. */
  lemma BlockMinesAndFlags(g: Grid, x: int, y: int)
    requires Box(g, x - 1, x + 2, y - 1, y + 2)
    ensures Count3x3(g, x, y, IsUnflaggedMine) + Count3x3(g, x, y, IsFlagged)
         == Count3x3(g, x, y, IsMine) + Count3x3(g, x, y, IsWrongFlag)
  {
    forall i, j | InBox(x - 1, x + 2, y - 1, y + 2, i, j)
      ensures Ind(Holds(IsMine, g[i][j])) == Ind(Holds(IsFlaggedMine, g[i][j])) + Ind(Holds(IsUnflaggedMine, g[i][j]))
      ensures Ind(Holds(IsFlagged, g[i][j])) == Ind(Holds(IsFlaggedMine, g[i][j])) + Ind(Holds(IsWrongFlag, g[i][j]))
    {
    }
    CountSplit(g, x - 1, x + 2, y - 1, y + 2, IsFlaggedMine, IsUnflaggedMine, IsMine);
    CountSplit(g, x - 1, x + 2, y - 1, y + 2, IsFlaggedMine, IsWrongFlag, IsFlagged);
  }

  /** A chord over a wrong flag digs a mine: if the flags in the block
      around (x, y) number its count and one of them has no mine under it,
      some mine of the block is unflagged, and it lies off the border. */
  lemma {:induction false} ChordHitsMine(g: Grid, w: int, h: int, x: int, y: int, a: int, b: int) returns (i: int, j: int)
    requires Layout(g, w, h) && IsInterior(w, h, x, y) && Counted(g, x, y)
    requires Count3x3(g, x, y, IsFlagged) == g[x][y].minesAround
    requires InBox(x - 1, x + 2, y - 1, y + 2, a, b) && g[a][b].state == Flag && !g[a][b].isMine
    ensures InBox(x - 1, x + 2, y - 1, y + 2, i, j) && !IsBorder(w, h, i, j) && g[i][j].isMine && g[i][j].state != Flag
  {
    i, j := UnflaggedMineInBlock(g, x, y, a, b);
    assert Placed(g[i][j], w, h, i, j);
  }

  /** The counting half of ChordHitsMine. */
  lemma {:induction false} UnflaggedMineInBlock(g: Grid, x: int, y: int, a: int, b: int) returns (i: int, j: int)
    requires Box(g, x - 1, x + 2, y - 1, y + 2)
    requires Count3x3(g, x, y, IsFlagged) == Count3x3(g, x, y, IsMine)
    requires InBox(x - 1, x + 2, y - 1, y + 2, a, b) && g[a][b].state == Flag && !g[a][b].isMine
    ensures InBox(x - 1, x + 2, y - 1, y + 2, i, j) && g[i][j].isMine && g[i][j].state != Flag
  {
    BlockMinesAndFlags(g, x, y);
    CountZero(g, x - 1, x + 2, y - 1, y + 2, IsWrongFlag);
    assert Holds(IsWrongFlag, g[a][b]);
    CountZero(g, x - 1, x + 2, y - 1, y + 2, IsUnflaggedMine);
    i, j :| InBox(x - 1, x + 2, y - 1, y + 2, i, j) && Holds(IsUnflaggedMine, g[i][j]);
  }

  /** Storing a new count in a playable cell keeps the layout, and the
      board still differs from g0 in counts only. */
  lemma CountChangeKeepsLayout(g0: Grid, g: Grid, w: int, h: int, x: int, y: int, n: int)
    requires Layout(g, w, h) && Rectangular(g0, w, h) && OnlyCountsDiffer(g0, g, w, h)
    requires IsInterior(w, h, x, y)
    ensures Layout(Put(g, x, y, g[x][y].(minesAround := n)), w, h)
    ensures OnlyCountsDiffer(g0, Put(g, x, y, g[x][y].(minesAround := n)), w, h)
  {
  }

  /** The playable cells of g before (x, y), row by row, hold the number of
      mines around them in g0: how far SetMinesCountAround has got. */
  ghost predicate RecountedBefore(g0: Grid, g: Grid, w: int, h: int, x: int, y: int)
    requires Rectangular(g0, w, h) && Rectangular(g, w, h)
  {
    forall i, j :: IsInterior(w, h, i, j) && (j < y || (j == y && i < x)) ==>
      g[i][j].minesAround == Count3x3(g0, i, j, IsMine)
  }

  /** Storing the recount of the playable cell (x, y) moves the progress
      one cell on and keeps the layout. */
  lemma RecountOne(g0: Grid, g: Grid, w: int, h: int, x: int, y: int)
    requires Layout(g, w, h) && Rectangular(g0, w, h) && OnlyCountsDiffer(g0, g, w, h)
    requires IsInterior(w, h, x, y) && RecountedBefore(g0, g, w, h, x, y)
    ensures var g' := Put(g, x, y, g[x][y].(minesAround := Count3x3(g0, x, y, IsMine)));
      Layout(g', w, h) && OnlyCountsDiffer(g0, g', w, h) && RecountedBefore(g0, g', w, h, x + 1, y)
  {
    CountChangeKeepsLayout(g0, g, w, h, x, y, Count3x3(g0, x, y, IsMine));
  }

  /** Once every playable cell holds its recount from g0, whose mines g
      shares, g is counted correctly. */
  lemma {:induction false} RecountDone(g0: Grid, g: Grid, w: int, h: int)
    requires Layout(g0, w, h) && Rectangular(g, w, h) && OnlyCountsDiffer(g0, g, w, h)
    requires RecountedBefore(g0, g, w, h, 0, h)
    ensures Adjacent(g, w, h)
  {
    forall x, y | IsInterior(w, h, x, y)
      ensures Counted(g, x, y)
    {
      CountAgree(g0, g, x - 1, x + 2, y - 1, y + 2, IsMine);
    }
  }

  /** Changing only mine counts leaves every counter over
      states and mines as it was. */
  lemma CountsIgnoreMinesAround(g1: Grid, g2: Grid, w: int, h: int)
    requires Rectangular(g1, w, h) && Rectangular(g2, w, h) && OnlyCountsDiffer(g1, g2, w, h)
    ensures Interior(g2, w, h, IsDigged) == Interior(g1, w, h, IsDigged)
    ensures Interior(g2, w, h, IsFlagged) == Interior(g1, w, h, IsFlagged)
    ensures Interior(g2, w, h, IsMine) == Interior(g1, w, h, IsMine)
    ensures Interior(g2, w, h, IsDugMine) == Interior(g1, w, h, IsDugMine)
  {
    CountAgree(g1, g2, 1, w - 1, 1, h - 1, IsDigged);
    CountAgree(g1, g2, 1, w - 1, 1, h - 1, IsFlagged);
    CountAgree(g1, g2, 1, w - 1, 1, h - 1, IsMine);
    CountAgree(g1, g2, 1, w - 1, 1, h - 1, IsDugMine);
  }

  /** A playable cell whose count is zero has no mine anywhere in its block. */
  lemma ZeroCountMeansNoMineAround(g: Grid, w: int, h: int, x: int, y: int)
    requires Rectangular(g, w, h) && Adjacent(g, w, h)
    requires IsInterior(w, h, x, y) && g[x][y].minesAround == 0
    ensures forall a, b :: InBox(x - 1, x + 2, y - 1, y + 2, a, b) ==> !g[a][b].isMine
  {
    assert Counted(g, x, y);
    CountZero(g, x - 1, x + 2, y - 1, y + 2, IsMine);
  }

  /** The stored count of a playable cell is between 0 and 9, and at most 8
      when the cell itself holds no mine. */
  lemma MinesAroundInRange(g: Grid, w: int, h: int, x: int, y: int)
    requires Layout(g, w, h) && Adjacent(g, w, h) && IsInterior(w, h, x, y)
    ensures 0 <= g[x][y].minesAround <= 9
    ensures !g[x][y].isMine ==> g[x][y].minesAround <= 8
  {
    assert Counted(g, x, y);
    Count3x3Terms(g, x, y, IsMine);
  }

  /** Every playable cell is a mine or dug. */
  ghost predicate Cleared(g: Grid, w: int, h: int)
    requires Rectangular(g, w, h)
  {
    forall x, y :: IsInterior(w, h, x, y) ==> g[x][y].isMine || g[x][y].state == Digged
  }

  /** The win test of Game.cs: playable cells minus mines equals dug cells. */
  predicate AllWithoutMinesHasDigged(w: int, h: int, minesCount: int, diggedCount: int) {
    (w - 2) * (h - 2) - minesCount == diggedCount
  }

  /** On a board where the counters are exact and no mine has been dug, the
      win test holds exactly when every playable cell without a mine is dug. */
  lemma {:induction false} WinTestMeansCleared(g: Grid, w: int, h: int, minesCount: int, diggedCount: int)
    requires Layout(g, w, h)
    requires minesCount == Interior(g, w, h, IsMine) && diggedCount == Interior(g, w, h, IsDigged)
    requires Interior(g, w, h, IsDugMine) == 0
    ensures AllWithoutMinesHasDigged(w, h, minesCount, diggedCount) <==> Cleared(g, w, h)
  {
    var safe := Partition(g, w, h);
    DugSplit(g, w, h);
    CountZero(g, 1, w - 1, 1, h - 1, IsSafeUndug);
  }

  /** Dug cells split into dug mines and dug safe cells. */
  lemma DugSplit(g: Grid, w: int, h: int)
    requires Layout(g, w, h)
    ensures Interior(g, w, h, IsDigged) == Interior(g, w, h, IsDugMine) + Interior(g, w, h, IsDugSafe)
  {
    forall x, y | InBox(1, w - 1, 1, h - 1, x, y)
      ensures Ind(Holds(IsDigged, g[x][y])) == Ind(Holds(IsDugMine, g[x][y])) + Ind(Holds(IsDugSafe, g[x][y]))
    {
    }
    CountSplit(g, 1, w - 1, 1, h - 1, IsDugMine, IsDugSafe, IsDigged);
  }

  /** The playable cells split into mines, dug safe cells and safe cells
      still to dig; the result is the number of safe cells. */
  lemma {:induction false} Partition(g: Grid, w: int, h: int) returns (safe: int)
    requires Rectangular(g, w, h) && 2 <= w && 2 <= h
    ensures safe == (w - 2) * (h - 2) - Interior(g, w, h, IsMine)
    ensures safe == Interior(g, w, h, IsDugSafe) + Interior(g, w, h, IsSafeUndug)
  {
    CountArea(g, 1, w - 1, 1, h - 1);
    forall x, y | InBox(1, w - 1, 1, h - 1, x, y)
      ensures Ind(Holds(Anything, g[x][y])) == Ind(Holds(IsMine, g[x][y])) + Ind(Holds(NotMine, g[x][y]))
      ensures Ind(Holds(NotMine, g[x][y])) == Ind(Holds(IsDugSafe, g[x][y])) + Ind(Holds(IsSafeUndug, g[x][y]))
    {
    }
    CountSplit(g, 1, w - 1, 1, h - 1, IsMine, NotMine, Anything);
    CountSplit(g, 1, w - 1, 1, h - 1, IsDugSafe, IsSafeUndug, NotMine);
    safe := Interior(g, w, h, NotMine);
  }

  datatype Outcome = Continue | Won | Lost

  /** The end of Game.Dig as written: the win test runs before the loss test. */
  function DigOutcomeAsWritten(allDug: bool, running: bool): Outcome {
    if allDug then Won else if !running then Lost else Continue
  }

  /** The end of Game.Dig as intended: a game that has stopped is lost, and
      only a running game can be won. */
  function DigOutcome(allDug: bool, running: bool): Outcome {
    if !running then Lost else if allDug then Won else Continue
  }

  /** As written, a dig that hits a mine while exactly one safe cell is left
      is reported as a win: the mine's cell is counted among the dug cells,
      so the counter reaches its target although a safe cell is still closed. */
  lemma {:induction false} LosingDigReportedAsWin(g: Grid, w: int, h: int, minesCount: int, diggedCount: int)
    requires Layout(g, w, h)
    requires minesCount == Interior(g, w, h, IsMine) && diggedCount == Interior(g, w, h, IsDigged)
    requires Interior(g, w, h, IsDugMine) == 1 && Interior(g, w, h, IsSafeUndug) == 1
    ensures AllWithoutMinesHasDigged(w, h, minesCount, diggedCount)
    ensures DigOutcomeAsWritten(AllWithoutMinesHasDigged(w, h, minesCount, diggedCount), false) == Won
    ensures DigOutcome(AllWithoutMinesHasDigged(w, h, minesCount, diggedCount), false) == Lost
  {
    var safe := Partition(g, w, h);
    DugSplit(g, w, h);
  }

  /** With the loss checked first, Dig reports a win only for a running game
      whose every safe cell is dug, and a stopped game is always a loss. */
  lemma WonMeansCleared(g: Grid, w: int, h: int, minesCount: int, diggedCount: int, running: bool)
    requires Layout(g, w, h)
    requires minesCount == Interior(g, w, h, IsMine) && diggedCount == Interior(g, w, h, IsDigged)
    requires running ==> Interior(g, w, h, IsDugMine) == 0
    ensures DigOutcome(AllWithoutMinesHasDigged(w, h, minesCount, diggedCount), running) == Won
        <==> running && Cleared(g, w, h)
    ensures DigOutcome(AllWithoutMinesHasDigged(w, h, minesCount, diggedCount), running) == Lost <==> !running
  {
    if running {
      WinTestMeansCleared(g, w, h, minesCount, diggedCount);
    }
  }

  // ---------------------------------------------------------------------------
  // Dig's chord and the flag toggle

  /** A dug mine stays dug while the board only evolves by digging. */
  lemma {:induction false} DugMineStays(g1: Grid, g2: Grid, w: int, h: int)
    requires Rectangular(g1, w, h) && Rectangular(g2, w, h) && Evolved(g1, g2, w, h, false)
    requires Interior(g1, w, h, IsDugMine) != 0
    ensures Interior(g2, w, h, IsDugMine) != 0
  {
    CountZero(g1, 1, w - 1, 1, h - 1, IsDugMine);
    var x, y :| InBox(1, w - 1, 1, h - 1, x, y) && Holds(IsDugMine, g1[x][y]);
    assert Step(g1[x][y], g2[x][y], false);
    CountZero(g2, 1, w - 1, 1, h - 1, IsDugMine);
  }

  /** With no flag among the playable cells, no block holds a flag: border
      cells are never flagged. */
  lemma {:induction false} NoFlagsAround(g: Grid, w: int, h: int, x: int, y: int)
    requires Layout(g, w, h) && IsInterior(w, h, x, y) && Interior(g, w, h, IsFlagged) == 0
    ensures Count3x3(g, x, y, IsFlagged) == 0
  {
    CountZero(g, 1, w - 1, 1, h - 1, IsFlagged);
    forall i, j | InBox(x - 1, x + 2, y - 1, y + 2, i, j)
      ensures !Holds(IsFlagged, g[i][j])
    {
      assert Placed(g[i][j], w, h, i, j);
    }
    CountZero(g, x - 1, x + 2, y - 1, y + 2, IsFlagged);
  }

  /** The chord of Dig fires on the cell (x, y): flags sit around it and
      they number its count. */
  ghost predicate ChordFires(g: Grid, x: int, y: int)
    requires Box(g, x - 1, x + 2, y - 1, y + 2)
  {
    Count3x3(g, x, y, IsFlagged) != 0 && Count3x3(g, x, y, IsFlagged) == g[x][y].minesAround
  }

  /** What a chord on (x, y) leaves behind: every playable, unflagged cell
      of the block is dug. */
  ghost predicate ChordDug(g: Grid, w: int, h: int, x: int, y: int)
    requires Rectangular(g, w, h) && IsInterior(w, h, x, y)
  {
    forall i, j :: InBox(x - 1, x + 2, y - 1, y + 2, i, j) && !IsBorder(w, h, i, j) && g[i][j].state != Flag ==>
      g[i][j].state == Digged
  }

  /** Digging changes neither a flag nor a count, so it does not change
      whether the chord fires. */
  lemma {:induction false} ChordFiresStays(g1: Grid, g2: Grid, w: int, h: int, x: int, y: int)
    requires Rectangular(g1, w, h) && Rectangular(g2, w, h) && Evolved(g1, g2, w, h, false)
    requires IsInterior(w, h, x, y)
    ensures ChordFires(g2, x, y) == ChordFires(g1, x, y)
  {
    forall i, j | InBox(x - 1, x + 2, y - 1, y + 2, i, j)
      ensures Holds(IsFlagged, g1[i][j]) == Holds(IsFlagged, g2[i][j])
    {
      assert Step(g1[i][j], g2[i][j], false);
    }
    CountAgree(g1, g2, x - 1, x + 2, y - 1, y + 2, IsFlagged);
    assert Step(g1[x][y], g2[x][y], false);
  }

  /** The dig before the chord does not change whether the chord fires:
      on the first move no flag exists before or after it, and later on
      digging leaves flags and counts alone. */
  lemma DigKeepsChordFires(g1: Grid, g2: Grid, w: int, h: int, x: int, y: int, first: bool)
    requires Layout(g1, w, h) && Layout(g2, w, h) && IsInterior(w, h, x, y) && Evolved(g1, g2, w, h, first)
    requires first ==> Interior(g1, w, h, IsFlagged) == 0 && Interior(g2, w, h, IsFlagged) == 0
    ensures ChordFires(g2, x, y) == ChordFires(g1, x, y)
    ensures first ==> !ChordFires(g2, x, y)
  {
    if first {
      NoFlagsAround(g1, w, h, x, y);
      NoFlagsAround(g2, w, h, x, y);
    } else {
      ChordFiresStays(g1, g2, w, h, x, y);
    }
  }

  /** A chord whose flags number the count but include one without a mine
      digs a mine. */
  lemma {:induction false} WrongFlagLoses(g1: Grid, g2: Grid, w: int, h: int, x: int, y: int, a: int, b: int)
    requires Layout(g1, w, h) && IsInterior(w, h, x, y) && Counted(g1, x, y)
    requires Count3x3(g1, x, y, IsFlagged) == g1[x][y].minesAround
    requires InBox(x - 1, x + 2, y - 1, y + 2, a, b) && g1[a][b].state == Flag && !g1[a][b].isMine
    requires Rectangular(g2, w, h) && Evolved(g1, g2, w, h, false) && ChordDug(g2, w, h, x, y)
    ensures Interior(g2, w, h, IsDugMine) != 0
  {
    var i, j := ChordHitsMine(g1, w, h, x, y, a, b);
    assert Step(g1[i][j], g2[i][j], false);
    DugMineCounted(g2, w, h, i, j);
  }

  /** A dug mine on a playable cell shows in the count of dug mines. */
  lemma DugMineCounted(g: Grid, w: int, h: int, i: int, j: int)
    requires Rectangular(g, w, h) && IsInterior(w, h, i, j) && g[i][j].isMine && g[i][j].state == Digged
    ensures Interior(g, w, h, IsDugMine) != 0
  {
    assert Holds(IsDugMine, g[i][j]);
    CountZero(g, 1, w - 1, 1, h - 1, IsDugMine);
  }

  /** After a chord on (x, y) that fired on g1, no mine is dug only if none
      was dug before and every flag of the block lies on a mine. */
  lemma {:induction false} ChordDigsMine(g1: Grid, g2: Grid, w: int, h: int, x: int, y: int)
    requires Layout(g1, w, h) && IsInterior(w, h, x, y) && Counted(g1, x, y) && ChordFires(g1, x, y)
    requires Rectangular(g2, w, h) && Evolved(g1, g2, w, h, false) && ChordDug(g2, w, h, x, y)
    ensures Interior(g2, w, h, IsDugMine) == 0 ==>
              Interior(g1, w, h, IsDugMine) == 0 &&
              forall i, j :: InBox(x - 1, x + 2, y - 1, y + 2, i, j) && g1[i][j].state == Flag ==> g1[i][j].isMine
  {
    if Interior(g1, w, h, IsDugMine) != 0 {
      DugMineStays(g1, g2, w, h);
    }
    forall i, j | InBox(x - 1, x + 2, y - 1, y + 2, i, j) && g1[i][j].state == Flag && !g1[i][j].isMine
      ensures Interior(g2, w, h, IsDugMine) != 0
    {
      WrongFlagLoses(g1, g2, w, h, x, y, i, j);
    }
  }

  /** ChordDigsMine for the flag list Dig walks: after the chord, no mine is
      dug only if none was dug before and every listed flag lies on a mine. */
  lemma ChordListDigsMine(g1: Grid, g2: Grid, w: int, h: int, x: int, y: int, flagged: seq<Cell>)
    requires Layout(g1, w, h) && IsInterior(w, h, x, y) && Counted(g1, x, y)
    requires flagged == Flagged(g1, x - 1, x + 2, y - 1, y + 2) && ChordFires(g1, x, y)
    requires Rectangular(g2, w, h) && Evolved(g1, g2, w, h, false) && ChordDug(g2, w, h, x, y)
    ensures Interior(g2, w, h, IsDugMine) == 0 ==>
              Interior(g1, w, h, IsDugMine) == 0 && forall k :: 0 <= k < |flagged| ==> flagged[k].isMine
  {
    ChordDigsMine(g1, g2, w, h, x, y);
    if Interior(g2, w, h, IsDugMine) == 0 {
      ListedFlagsOnMines(g1, x - 1, x + 2, y - 1, y + 2);
    }
  }

  /** Once every flag of a rectangle lies on a mine, so does every cell of
      its flag list. */
  lemma ListedFlagsOnMines(g: Grid, x0: int, x1: int, y0: int, y1: int)
    requires Box(g, x0, x1, y0, y1)
    requires forall i, j :: InBox(x0, x1, y0, y1, i, j) && g[i][j].state == Flag ==> g[i][j].isMine
    ensures forall k :: 0 <= k < |Flagged(g, x0, x1, y0, y1)| ==> Flagged(g, x0, x1, y0, y1)[k].isMine
  {
    forall k | 0 <= k < |Flagged(g, x0, x1, y0, y1)|
      ensures Flagged(g, x0, x1, y0, y1)[k].isMine
    {
      var a, b := FlaggedAt(g, x0, x1, y0, y1, k);
    }
  }

  /** The k-th cell of a rectangle's flag list is a flagged cell of the
      rectangle. */
  lemma {:induction false} FlaggedAt(g: Grid, x0: int, x1: int, y0: int, y1: int, k: int) returns (a: int, b: int)
    requires Box(g, x0, x1, y0, y1) && 0 <= k < |Flagged(g, x0, x1, y0, y1)|
    ensures InBox(x0, x1, y0, y1, a, b) && g[a][b] == Flagged(g, x0, x1, y0, y1)[k] && g[a][b].state == Flag
    decreases y1 - y0
  {
    var front := Flagged(g, x0, x1, y0, y1 - 1);
    if k < |front| {
      a, b := FlaggedAt(g, x0, x1, y0, y1 - 1, k);
    } else {
      a := FlaggedRowAt(g, x0, x1, y1 - 1, k - |front|);
      b := y1 - 1;
    }
  }

  /** The k-th cell of a row's flag list is a flagged cell of the row. */
  lemma {:induction false} FlaggedRowAt(g: Grid, x0: int, x1: int, y: int, k: int) returns (a: int)
    requires 0 <= x0 && x1 <= |g| && 0 <= y && forall x :: x0 <= x < x1 ==> y < |g[x]|
    requires 0 <= k < |FlaggedRow(g, x0, x1, y)|
    ensures x0 <= a < x1 && g[a][y] == FlaggedRow(g, x0, x1, y)[k] && g[a][y].state == Flag
    decreases x1 - x0
  {
    var front := FlaggedRow(g, x0, x1 - 1, y);
    if k < |front| {
      a := FlaggedRowAt(g, x0, x1 - 1, y, k);
    } else {
      a := x1 - 1;
    }
  }

  /** A playable position that is flagged or dug: the chord has nothing
      left to do there. */
  ghost predicate SettledAt(g: Grid, w: int, h: int, p: Pos)
    requires Rectangular(g, w, h)
  {
    IsInterior(w, h, p.x, p.y) ==> g[p.x][p.y].state == Flag || g[p.x][p.y].state == Digged
  }

  /** The first k positions of the walk around (x, y) are settled. */
  ghost predicate Settled(g: Grid, w: int, h: int, x: int, y: int, k: int)
    requires Rectangular(g, w, h)
  {
    forall m :: 0 <= m < k && m < 9 ==> SettledAt(g, w, h, BlockAt(x, y, m))
  }

  /** Digging keeps earlier positions settled, and settles the next one
      once it is dug or flagged. */
  lemma SettledStep(g1: Grid, g2: Grid, w: int, h: int, x: int, y: int, k: int)
    requires Rectangular(g1, w, h) && Rectangular(g2, w, h) && Evolved(g1, g2, w, h, false)
    requires Settled(g1, w, h, x, y, k) && 0 <= k < 9 && SettledAt(g2, w, h, BlockAt(x, y, k))
    ensures Settled(g2, w, h, x, y, k + 1)
  {
    forall m | 0 <= m < k + 1 && m < 9
      ensures SettledAt(g2, w, h, BlockAt(x, y, m))
    {
      var p := BlockAt(x, y, m);
      if m < k && IsInterior(w, h, p.x, p.y) {
        assert Step(g1[p.x][p.y], g2[p.x][p.y], false);
      }
    }
  }

  /** Once the whole block is settled, the chord has dug it. */
  lemma {:induction false} SettledAround(g: Grid, w: int, h: int, x: int, y: int)
    requires Rectangular(g, w, h) && IsInterior(w, h, x, y)
    requires Settled(g, w, h, x, y, 9)
    ensures ChordDug(g, w, h, x, y)
  {
    forall i, j | InBox(x - 1, x + 2, y - 1, y + 2, i, j) && !IsBorder(w, h, i, j) && g[i][j].state != Flag
      ensures g[i][j].state == Digged
    {
      var k := BlockAtOnto(x, y, i, j);
      assert SettledAt(g, w, h, BlockAt(x, y, k));
    }
  }

  /** BfsDig is done with the playable cell (x, y): if its count is zero,
      every playable, unflagged cell of its block is dug. */
  ghost predicate Expanded(g: Grid, w: int, h: int, x: int, y: int)
    requires Rectangular(g, w, h) && IsInterior(w, h, x, y)
  {
    g[x][y].minesAround == 0 ==> ChordDug(g, w, h, x, y)
  }

  /** Every playable cell dug between g0 and g is still waiting in the
      queue or has been expanded. */
  ghost predicate Flooded(g0: Grid, g: Grid, w: int, h: int, queue: seq<Pos>)
    requires Rectangular(g0, w, h) && Rectangular(g, w, h)
  {
    forall x, y {:trigger g0[x][y], g[x][y]} ::
      1 <= x <= w - 2 && 1 <= y <= h - 2 && g0[x][y].state != Digged && g[x][y].state == Digged ==>
        Pos(x, y) in queue || Expanded(g, w, h, x, y)
  }

  /** Digging never undoes an expansion: dug cells stay dug, flags stay
      flags and counts stay. */
  lemma ExpandedStays(g1: Grid, g2: Grid, w: int, h: int, x: int, y: int)
    requires Rectangular(g1, w, h) && Rectangular(g2, w, h) && Evolved(g1, g2, w, h, false)
    requires IsInterior(w, h, x, y) && Expanded(g1, w, h, x, y)
    ensures Expanded(g2, w, h, x, y)
  {
    assert Step(g1[x][y], g2[x][y], false);
    if g2[x][y].minesAround == 0 {
      forall i, j | InBox(x - 1, x + 2, y - 1, y + 2, i, j) && !IsBorder(w, h, i, j) && g2[i][j].state != Flag
        ensures g2[i][j].state == Digged
      {
        assert Step(g1[i][j], g2[i][j], false);
      }
    }
  }

  /** One cell through a turn of BfsDig's queue loop: cur is dequeued and
      expanded, the rest of the queue stays at the front of the next one. */
  lemma PendingStep(g1: Grid, g2: Grid, w: int, h: int, p: Pos, cur: Pos, rest: seq<Pos>, next: seq<Pos>)
    requires Rectangular(g1, w, h) && Rectangular(g2, w, h) && Evolved(g1, g2, w, h, false)
    requires IsInterior(w, h, p.x, p.y) && IsInterior(w, h, cur.x, cur.y)
    requires p in [cur] + rest || Expanded(g1, w, h, p.x, p.y)
    requires Expanded(g2, w, h, cur.x, cur.y)
    requires |rest| <= |next| && next[..|rest|] == rest
    ensures p in next || Expanded(g2, w, h, p.x, p.y)
  {
    if p == cur {
    } else if p in rest {
      var i :| 0 <= i < |rest| && rest[i] == p;
      assert next[i] == p;
    } else {
      ExpandedStays(g1, g2, w, h, p.x, p.y);
    }
  }

  /** A turn of BfsDig's queue loop keeps every cell dug since g0 queued
      or expanded, once the cells it digs join the queue. */
  lemma FloodStep(g0: Grid, g1: Grid, g2: Grid, w: int, h: int, cur: Pos, rest: seq<Pos>, next: seq<Pos>)
    requires Rectangular(g0, w, h) && Rectangular(g1, w, h) && Rectangular(g2, w, h)
    requires Evolved(g1, g2, w, h, false) && IsInterior(w, h, cur.x, cur.y)
    requires Flooded(g0, g1, w, h, [cur] + rest) && Flooded(g1, g2, w, h, next)
    requires Expanded(g2, w, h, cur.x, cur.y)
    requires |rest| <= |next| && next[..|rest|] == rest
    ensures Flooded(g0, g2, w, h, next)
  {
    forall x, y | 1 <= x <= w - 2 && 1 <= y <= h - 2 && g0[x][y].state != Digged && g2[x][y].state == Digged
      ensures Pos(x, y) in next || Expanded(g2, w, h, x, y)
    {
      if g1[x][y].state == Digged {
        PendingStep(g1, g2, w, h, Pos(x, y), cur, rest, next);
      }
    }
  }

  /** Two finished floods in a row make one. */
  lemma FloodedTrans(g0: Grid, g1: Grid, g2: Grid, w: int, h: int)
    requires Rectangular(g0, w, h) && Rectangular(g1, w, h) && Rectangular(g2, w, h)
    requires Evolved(g1, g2, w, h, false)
    requires Flooded(g0, g1, w, h, []) && Flooded(g1, g2, w, h, [])
    ensures Flooded(g0, g2, w, h, [])
  {
    forall x, y | 1 <= x <= w - 2 && 1 <= y <= h - 2 && g0[x][y].state != Digged && g2[x][y].state == Digged
      ensures Expanded(g2, w, h, x, y)
    {
      if g1[x][y].state == Digged {
        ExpandedStays(g1, g2, w, h, x, y);
      }
    }
  }

  /** Dropping the promise that mines and counts stay: the states alone
      still only go from untouched to dug. */
  lemma EvolvedLoose(g1: Grid, g2: Grid, w: int, h: int, r: bool)
    requires Rectangular(g1, w, h) && Rectangular(g2, w, h) && Evolved(g1, g2, w, h, r)
    ensures Evolved(g1, g2, w, h, true)
  {
    forall x, y | 0 <= x < w && 0 <= y < h
      ensures Step(g1[x][y], g2[x][y], true)
    {
      assert Step(g1[x][y], g2[x][y], r);
    }
  }

  /** (x, y) lies in the block of a playable cell whose count is zero and
      which is the start s or was dug between g0 and g: a cell BfsDig can
      have reached (x, y) from. */
  ghost predicate Parented(g0: Grid, g: Grid, w: int, h: int, s: Pos, x: int, y: int)
    requires Rectangular(g0, w, h) && Rectangular(g, w, h)
  {
    exists a, b {:trigger g0[a][b], g[a][b]} ::
      1 <= a <= w - 2 && 1 <= b <= h - 2 && InBox(a - 1, a + 2, b - 1, b + 2, x, y) &&
      (Pos(a, b) == s || (g0[a][b].state != Digged && g[a][b].state == Digged)) && g[a][b].minesAround == 0
  }

  /** Every playable cell dug between g0 and g, the start s aside, lies in
      the block of a cell with count zero that the flood dug or started
      from. */
  ghost predicate Sourced(g0: Grid, g: Grid, w: int, h: int, s: Pos)
    requires Rectangular(g0, w, h) && Rectangular(g, w, h)
  {
    forall x, y {:trigger g0[x][y], g[x][y]} ::
      1 <= x <= w - 2 && 1 <= y <= h - 2 && g0[x][y].state != Digged && g[x][y].state == Digged && Pos(x, y) != s ==>
        Parented(g0, g, w, h, s, x, y)
  }

  /** Digging keeps a parent: it stays dug and keeps its count. */
  lemma ParentStays(g0: Grid, g1: Grid, g2: Grid, w: int, h: int, s: Pos, x: int, y: int)
    requires Rectangular(g0, w, h) && Rectangular(g1, w, h) && Rectangular(g2, w, h)
    requires Evolved(g1, g2, w, h, false) && Parented(g0, g1, w, h, s, x, y)
    ensures Parented(g0, g2, w, h, s, x, y)
  {
    var a, b :| 1 <= a <= w - 2 && 1 <= b <= h - 2 && InBox(a - 1, a + 2, b - 1, b + 2, x, y) &&
                (Pos(a, b) == s || (g0[a][b].state != Digged && g1[a][b].state == Digged)) && g1[a][b].minesAround == 0;
    assert Step(g1[a][b], g2[a][b], false);
    ParentAt(g0, g2, w, h, s, x, y, a, b);
  }

  /** A witness for Parented. */
  lemma ParentAt(g0: Grid, g: Grid, w: int, h: int, s: Pos, x: int, y: int, a: int, b: int)
    requires Rectangular(g0, w, h) && Rectangular(g, w, h)
    requires 1 <= a <= w - 2 && 1 <= b <= h - 2 && InBox(a - 1, a + 2, b - 1, b + 2, x, y)
    requires Pos(a, b) == s || (g0[a][b].state != Digged && g[a][b].state == Digged)
    requires g[a][b].minesAround == 0
    ensures Parented(g0, g, w, h, s, x, y)
  {
    assert g0[a][b] == g0[a][b] && g[a][b] == g[a][b];
  }

  /** A turn of BfsDig's queue loop keeps every dug cell sourced: the turn
      digs only cells of the block of cur, and only when the count of cur
      is zero, and cur is the start or was dug by the flood. */
  lemma SourcedStep(g0: Grid, g1: Grid, g2: Grid, w: int, h: int, s: Pos, cur: Pos)
    requires Rectangular(g0, w, h) && Rectangular(g1, w, h) && Rectangular(g2, w, h)
    requires Evolved(g1, g2, w, h, false) && IsInterior(w, h, cur.x, cur.y) && Sourced(g0, g1, w, h, s)
    requires cur == s || (g0[cur.x][cur.y].state != Digged && g1[cur.x][cur.y].state == Digged)
    requires forall x, y :: 0 <= x < w && 0 <= y < h && g1[x][y].state != Digged && g2[x][y].state == Digged ==>
               InBox(cur.x - 1, cur.x + 2, cur.y - 1, cur.y + 2, x, y) && g2[cur.x][cur.y].minesAround == 0
    ensures Sourced(g0, g2, w, h, s)
  {
    forall x, y | 1 <= x <= w - 2 && 1 <= y <= h - 2 && g0[x][y].state != Digged && g2[x][y].state == Digged && Pos(x, y) != s
      ensures Parented(g0, g2, w, h, s, x, y)
    {
      if g1[x][y].state == Digged {
        ParentStays(g0, g1, g2, w, h, s, x, y);
      } else {
        assert Step(g1[cur.x][cur.y], g2[cur.x][cur.y], false);
        ParentAt(g0, g2, w, h, s, x, y, cur.x, cur.y);
      }
    }
  }

  /** g1 has the states of g0 except, possibly, at p. */
  ghost predicate SameStatesBut(g0: Grid, g1: Grid, w: int, h: int, p: Pos)
    requires Rectangular(g0, w, h) && Rectangular(g1, w, h)
  {
    forall x, y {:trigger g0[x][y], g1[x][y]} :: 0 <= x < w && 0 <= y < h && (x != p.x || y != p.y) ==>
      g1[x][y].state == g0[x][y].state
  }

  /** Digging the one cell p, or nothing, leaves nothing else to flood or
      to source, and keeps every other state. */
  lemma DugOnlyAt(g: Grid, g': Grid, w: int, h: int, p: Pos)
    requires Rectangular(g, w, h) && 0 <= p.x < w && 0 <= p.y < h
    requires g' == g || g' == Put(g, p.x, p.y, g[p.x][p.y].(state := Digged))
    ensures Rectangular(g', w, h)
    ensures Flooded(g, g', w, h, [p]) && Sourced(g, g', w, h, p) && SameStatesBut(g, g', w, h, p)
  {
    forall x, y | 0 <= x < w && 0 <= y < h && (x != p.x || y != p.y)
      ensures g'[x][y] == g[x][y]
    {
    }
  }

  /** The relocation digs only p before its BfsDig, so what that BfsDig
      sources from g3 is sourced from g0 as well. */
  lemma FirstSourced(g0: Grid, g3: Grid, g4: Grid, w: int, h: int, p: Pos)
    requires Rectangular(g0, w, h) && Rectangular(g3, w, h) && Rectangular(g4, w, h)
    requires SameStatesBut(g0, g3, w, h, p) && Sourced(g3, g4, w, h, p)
    ensures Sourced(g0, g4, w, h, p)
  {
    forall x, y | 1 <= x <= w - 2 && 1 <= y <= h - 2 && g0[x][y].state != Digged && g4[x][y].state == Digged && Pos(x, y) != p
      ensures Parented(g0, g4, w, h, p, x, y)
    {
      assert g3[x][y].state == g0[x][y].state;
      var a, b :| 1 <= a <= w - 2 && 1 <= b <= h - 2 && InBox(a - 1, a + 2, b - 1, b + 2, x, y) &&
                  (Pos(a, b) == p || (g3[a][b].state != Digged && g4[a][b].state == Digged)) && g4[a][b].minesAround == 0;
      if Pos(a, b) != p {
        assert g3[a][b].state == g0[a][b].state;
      }
      ParentAt(g0, g4, w, h, p, x, y, a, b);
    }
  }

  /** The first dig onto a mine digs only p before its own BfsDig, so a
      flood finished after that leaves nothing but p pending. */
  lemma FirstFlood(g0: Grid, g3: Grid, g4: Grid, w: int, h: int, p: Pos)
    requires Rectangular(g0, w, h) && Rectangular(g3, w, h) && Rectangular(g4, w, h)
    requires SameStatesBut(g0, g3, w, h, p) && Flooded(g3, g4, w, h, [])
    ensures Flooded(g0, g4, w, h, [p])
  {
    forall x, y | 1 <= x <= w - 2 && 1 <= y <= h - 2 && g0[x][y].state != Digged && g4[x][y].state == Digged
      ensures Pos(x, y) in [p] || Expanded(g4, w, h, x, y)
    {
      if Pos(x, y) != p {
        assert g3[x][y].state == g0[x][y].state;
      }
    }
  }

  /** Setting a flag on an untouched playable cell, or taking one off, keeps
      the counters consistent with the flag counter moved by one, down for
      a new flag and up for a removed one. */
  lemma ToggleFlag(g: Grid, w: int, h: int, x: int, y: int, dug: int, flags: int, mines: int, running: bool, s: State)
    requires Consistent(g, w, h, dug, flags, mines, false, running) && IsInterior(w, h, x, y)
    requires (g[x][y].state == Default && s == Flag) || (g[x][y].state == Flag && s == Default)
    ensures Consistent(Put(g, x, y, g[x][y].(state := s)), w, h, dug, flags + Ind(s == Default) - Ind(s == Flag), mines, false, running)
  {
    StateChangeKeepsBoard(g, w, h, x, y, s);
    StateChangeCounts(g, w, h, x, y, s);
    StateChangeMineCounts(g, w, h, x, y, s);
  }

  /** Flagging an untouched cell and taking the flag off again gives back
      the board. */
  lemma FlagRoundTrip(g: Grid, x: int, y: int)
    requires 0 <= x < |g| && 0 <= y < |g[x]| && g[x][y].state == Default
    ensures var g1 := Put(g, x, y, g[x][y].(state := Flag));
            Put(g1, x, y, g1[x][y].(state := Default)) == g
  {
    var g1: Grid := Put(g, x, y, g[x][y].(state := Flag));
    assert g1[x][y].(state := Default) == g[x][y];
    assert g1[x][y := g[x][y]] == g[x];
  }

  // ---------------------------------------------------------------------------
  // GetFlaggedCellsAround

  /** The flagged cells of row y with x0 <= x < x1, left to right. */
  function FlaggedRow(g: Grid, x0: int, x1: int, y: int): seq<Cell>
    requires 0 <= x0 && x1 <= |g| && 0 <= y && forall x :: x0 <= x < x1 ==> y < |g[x]|
    decreases x1 - x0
  {
    if x1 <= x0 then []
    else FlaggedRow(g, x0, x1 - 1, y) + (if g[x1 - 1][y].state == Flag then [g[x1 - 1][y]] else [])
  }

  /** The flagged cells of the rectangle [x0, x1) x [y0, y1), row by row. */
  function Flagged(g: Grid, x0: int, x1: int, y0: int, y1: int): seq<Cell>
    requires Box(g, x0, x1, y0, y1)
    decreases y1 - y0
  {
    if y1 <= y0 then [] else Flagged(g, x0, x1, y0, y1 - 1) + FlaggedRow(g, x0, x1, y1 - 1)
  }

  /** A row has as many flagged cells as its flag count. */
  lemma {:induction false} FlaggedRowCount(g: Grid, x0: int, x1: int, y: int)
    requires 0 <= x0 && x1 <= |g| && 0 <= y && forall x :: x0 <= x < x1 ==> y < |g[x]|
    ensures |FlaggedRow(g, x0, x1, y)| == CountRow(g, x0, x1, y, IsFlagged)
    decreases x1 - x0
  {
    if x0 < x1 {
      FlaggedRowCount(g, x0, x1 - 1, y);
    }
  }

  /** A rectangle has as many flagged cells as its flag count. */
  lemma {:induction false} FlaggedCount(g: Grid, x0: int, x1: int, y0: int, y1: int)
    requires Box(g, x0, x1, y0, y1)
    ensures |Flagged(g, x0, x1, y0, y1)| == Count(g, x0, x1, y0, y1, IsFlagged)
    decreases y1 - y0
  {
    if y0 < y1 {
      assert Box(g, x0, x1, y0, y1 - 1);
      FlaggedCount(g, x0, x1, y0, y1 - 1);
      FlaggedRowCount(g, x0, x1, y1 - 1);
    }
  }

  /** A flagged cell of the rectangle is in its list. */
  lemma {:induction false} FlaggedComplete(g: Grid, x0: int, x1: int, y0: int, y1: int, x: int, y: int)
    requires Box(g, x0, x1, y0, y1)
    requires InBox(x0, x1, y0, y1, x, y) && g[x][y].state == Flag
    ensures g[x][y] in Flagged(g, x0, x1, y0, y1)
    decreases y1 - y0
  {
    var front, last := Flagged(g, x0, x1, y0, y1 - 1), FlaggedRow(g, x0, x1, y1 - 1);
    assert Flagged(g, x0, x1, y0, y1) == front + last;
    if y < y1 - 1 {
      FlaggedComplete(g, x0, x1, y0, y1 - 1, x, y);
      assert g[x][y] in front;
    } else {
      FlaggedRowComplete(g, x0, x1, y, x);
      assert g[x][y] in last;
    }
  }

  /** A flagged cell of a row segment is in the segment's list. */
  lemma {:induction false} FlaggedRowComplete(g: Grid, x0: int, x1: int, y: int, x: int)
    requires 0 <= x0 && x1 <= |g| && 0 <= y && forall i :: x0 <= i < x1 ==> y < |g[i]|
    requires x0 <= x < x1 && g[x][y].state == Flag
    ensures g[x][y] in FlaggedRow(g, x0, x1, y)
    decreases x1 - x0
  {
    var front := FlaggedRow(g, x0, x1 - 1, y);
    if x < x1 - 1 {
      FlaggedRowComplete(g, x0, x1 - 1, y, x);
      assert g[x][y] in front;
    }
  }
}
