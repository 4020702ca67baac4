/** The bordered grid both engines keep, as a value: positions, the border
    test, and counting of cells with a property over a rectangle.  Game.cs's
    `Map` and MinesweeperEngine.cs's `Grid` are `Cell[,]` indexed [x, y]; a
    `Grid` here is indexed g[x][y] the same way. */
module Grids {
  import opened Cells

  datatype Pos = Pos(x: int, y: int)

  type Grid = seq<seq<Cell>>

  /** The border test of both engines (Game.IsBorder, MinesweeperEngine.IsBorder):
      first or last column, first or last row of a w-by-h grid. */
  predicate IsBorder(w: int, h: int, x: int, y: int) {
    x == 0 || y == 0 || x == w - 1 || y == h - 1
  }

  predicate InGrid(w: int, h: int, x: int, y: int) {
    0 <= x < w && 0 <= y < h
  }

  /** The playable part: columns 1..w-2 and rows 1..h-2. */
  predicate IsInterior(w: int, h: int, x: int, y: int) {
    1 <= x <= w - 2 && 1 <= y <= h - 2
  }

  /** Inside the grid, the border is exactly what is not interior. */
  lemma BorderIsFrame(w: int, h: int, x: int, y: int)
    requires InGrid(w, h, x, y)
    ensures IsBorder(w, h, x, y) <==> !IsInterior(w, h, x, y)
  {
  }

  ghost predicate Rectangular(g: Grid, w: int, h: int) {
    |g| == w && forall x :: 0 <= x < w ==> |g[x]| == h
  }

  /** The rectangle [x0, x1) x [y0, y1) lies inside g. */
  ghost predicate Box(g: Grid, x0: int, x1: int, y0: int, y1: int) {
    0 <= x0 && x1 <= |g| && 0 <= y0 && forall x :: x0 <= x < x1 ==> y1 <= |g[x]|
  }

  predicate InBox(x0: int, x1: int, y0: int, y1: int, x: int, y: int) {
    x0 <= x < x1 && y0 <= y < y1
  }

  /** g with the cell at (x, y) replaced by c: the write `Map[x, y] = c`. */
  function Put(g: Grid, x: int, y: int, c: Cell): (r: Grid)
    requires 0 <= x < |g| && 0 <= y < |g[x]|
    ensures |r| == |g| && forall i :: 0 <= i < |g| ==> |r[i]| == |g[i]|
    ensures r[x][y] == c
    ensures forall i, j :: 0 <= i < |g| && 0 <= j < |g[i]| && (i != x || j != y) ==> r[i][j] == g[i][j]
  {
    g[x := g[x][y := c]]
  }

  /** Writing back the cell that is already there changes nothing. */
  lemma PutSame(g: Grid, x: int, y: int)
    requires 0 <= x < |g| && 0 <= y < |g[x]|
    ensures Put(g, x, y, g[x][y]) == g
  {
    assert g[x][y := g[x][y]] == g[x];
  }

  function Ind(b: bool): nat { if b then 1 else 0 }

  /** Number of cells (x, y) with x0 <= x < x1 in row y that satisfy p. */
  function CountRow(g: Grid, x0: int, x1: int, y: int, p: Prop): (n: nat)
    requires 0 <= x0 && x1 <= |g| && 0 <= y && forall x :: x0 <= x < x1 ==> y < |g[x]|
    ensures n <= if x0 <= x1 then x1 - x0 else 0
    decreases x1 - x0
  {
    if x1 <= x0 then 0 else CountRow(g, x0, x1 - 1, y, p) + Ind(Holds(p, g[x1 - 1][y]))
  }

  /** Number of cells of the rectangle [x0, x1) x [y0, y1) that satisfy p,
      summed row by row as the engines' nested loops visit them. */
  function Count(g: Grid, x0: int, x1: int, y0: int, y1: int, p: Prop): (n: nat)
    requires Box(g, x0, x1, y0, y1)
    ensures n <= if x0 <= x1 && y0 <= y1 then (x1 - x0) * (y1 - y0) else 0
    decreases y1 - y0
  {
    if y1 <= y0 then 0
    else
      var n := Count(g, x0, x1, y0, y1 - 1, p) + CountRow(g, x0, x1, y1 - 1, p);
      assert x0 <= x1 ==> (x1 - x0) * (y1 - 1 - y0) + (x1 - x0) == (x1 - x0) * (y1 - y0);
      n
  }

  /** The 3x3 block centred on (x, y), the centre included. */
  function Count3x3(g: Grid, x: int, y: int, p: Prop): nat
    requires Box(g, x - 1, x + 2, y - 1, y + 2)
  {
    Count(g, x - 1, x + 2, y - 1, y + 2, p)
  }

  // ---------------------------------------------------------------------------
  // Counting lemmas

  /** Writing one cell moves a row count by what the old and the new cell
      contribute, and only when the cell is in the counted row segment. */
  lemma {:induction false} CountRowPut(g: Grid, x0: int, x1: int, y: int, p: Prop, i: int, j: int, c: Cell)
    requires 0 <= x0 && x1 <= |g| && 0 <= y && forall x :: x0 <= x < x1 ==> y < |g[x]|
    requires 0 <= i < |g| && 0 <= j < |g[i]|
    ensures CountRow(Put(g, i, j, c), x0, x1, y, p) + Ind(InBox(x0, x1, y, y + 1, i, j) && Holds(p, g[i][j]))
         == CountRow(g, x0, x1, y, p) + Ind(InBox(x0, x1, y, y + 1, i, j) && Holds(p, c))
    decreases x1 - x0
  {
    if x0 < x1 {
      CountRowPut(g, x0, x1 - 1, y, p, i, j, c);
    }
  }

  /** Writing one cell moves a count by what the old and the new cell
      contribute, and only when the cell is in the counted rectangle. */
  lemma {:induction false} CountPut(g: Grid, x0: int, x1: int, y0: int, y1: int, p: Prop, i: int, j: int, c: Cell)
    requires Box(g, x0, x1, y0, y1)
    requires 0 <= i < |g| && 0 <= j < |g[i]|
    ensures Count(Put(g, i, j, c), x0, x1, y0, y1, p) + Ind(InBox(x0, x1, y0, y1, i, j) && Holds(p, g[i][j]))
         == Count(g, x0, x1, y0, y1, p) + Ind(InBox(x0, x1, y0, y1, i, j) && Holds(p, c))
    decreases y1 - y0
  {
    if y0 < y1 {
      CountPut(g, x0, x1, y0, y1 - 1, p, i, j, c);
      CountRowPut(g, x0, x1, y1 - 1, p, i, j, c);
    }
  }

  /** Two grids that agree on p along a row segment have the same row count. */
  lemma {:induction false} CountRowAgree(g1: Grid, g2: Grid, x0: int, x1: int, y: int, p: Prop)
    requires 0 <= x0 && x1 <= |g1| && x1 <= |g2| && 0 <= y
    requires forall x :: x0 <= x < x1 ==> y < |g1[x]| && y < |g2[x]| && Holds(p, g1[x][y]) == Holds(p, g2[x][y])
    ensures CountRow(g1, x0, x1, y, p) == CountRow(g2, x0, x1, y, p)
    decreases x1 - x0
  {
    if x0 < x1 {
      CountRowAgree(g1, g2, x0, x1 - 1, y, p);
    }
  }

  /** Two grids that agree on p over a rectangle have the same count there. */
  lemma {:induction false} CountAgree(g1: Grid, g2: Grid, x0: int, x1: int, y0: int, y1: int, p: Prop)
    requires Box(g1, x0, x1, y0, y1) && Box(g2, x0, x1, y0, y1)
    requires forall x, y :: InBox(x0, x1, y0, y1, x, y) ==> Holds(p, g1[x][y]) == Holds(p, g2[x][y])
    ensures Count(g1, x0, x1, y0, y1, p) == Count(g2, x0, x1, y0, y1, p)
    decreases y1 - y0
  {
    if y0 < y1 {
      CountAgree(g1, g2, x0, x1, y0, y1 - 1, p);
      var y := y1 - 1;
      assert forall x :: x0 <= x < x1 ==> InBox(x0, x1, y0, y1, x, y);
      CountRowAgree(g1, g2, x0, x1, y, p);
    }
  }

  /** Along a row segment where r holds exactly when one of p and q holds and
      never both, the row counts add up. */
  lemma {:induction false} CountRowSplit(g: Grid, x0: int, x1: int, y: int, p: Prop, q: Prop, r: Prop)
    requires 0 <= x0 && x1 <= |g| && 0 <= y
    requires forall x :: x0 <= x < x1 ==> y < |g[x]| && Ind(Holds(r, g[x][y])) == Ind(Holds(p, g[x][y])) + Ind(Holds(q, g[x][y]))
    ensures CountRow(g, x0, x1, y, r) == CountRow(g, x0, x1, y, p) + CountRow(g, x0, x1, y, q)
    decreases x1 - x0
  {
    if x0 < x1 {
      CountRowSplit(g, x0, x1 - 1, y, p, q, r);
    }
  }

  /** When every cell of the rectangle satisfies r exactly when it satisfies
      one of p and q and never both, the counts add up. */
  lemma {:induction false} CountSplit(g: Grid, x0: int, x1: int, y0: int, y1: int, p: Prop, q: Prop, r: Prop)
    requires Box(g, x0, x1, y0, y1)
    requires forall x, y :: InBox(x0, x1, y0, y1, x, y) ==> Ind(Holds(r, g[x][y])) == Ind(Holds(p, g[x][y])) + Ind(Holds(q, g[x][y]))
    ensures Count(g, x0, x1, y0, y1, r) == Count(g, x0, x1, y0, y1, p) + Count(g, x0, x1, y0, y1, q)
    decreases y1 - y0
  {
    if y0 < y1 {
      CountSplit(g, x0, x1, y0, y1 - 1, p, q, r);
      var y := y1 - 1;
      assert forall x :: x0 <= x < x1 ==> InBox(x0, x1, y0, y1, x, y);
      CountRowSplit(g, x0, x1, y, p, q, r);
    }
  }

  /** A row count is zero exactly when no cell of the segment satisfies p. */
  lemma {:induction false} CountRowZero(g: Grid, x0: int, x1: int, y: int, p: Prop)
    requires 0 <= x0 && x1 <= |g| && 0 <= y && forall x :: x0 <= x < x1 ==> y < |g[x]|
    ensures CountRow(g, x0, x1, y, p) == 0 <==> forall x :: x0 <= x < x1 ==> !Holds(p, g[x][y])
    decreases x1 - x0
  {
    if x0 < x1 {
      CountRowZero(g, x0, x1 - 1, y, p);
    }
  }

  /** A count is zero exactly when no cell of the rectangle satisfies p. */
  lemma {:induction false} CountZero(g: Grid, x0: int, x1: int, y0: int, y1: int, p: Prop)
    requires Box(g, x0, x1, y0, y1)
    ensures Count(g, x0, x1, y0, y1, p) == 0 <==> forall x, y :: InBox(x0, x1, y0, y1, x, y) ==> !Holds(p, g[x][y])
    decreases y1 - y0
  {
    if y0 < y1 {
      CountZero(g, x0, x1, y0, y1 - 1, p);
      CountRowZero(g, x0, x1, y1 - 1, p);
    }
  }

  /** Every cell of a row satisfies Anything. */
  lemma {:induction false} CountRowAll(g: Grid, x0: int, x1: int, y: int)
    requires 0 <= x0 <= x1 <= |g| && 0 <= y && forall x :: x0 <= x < x1 ==> y < |g[x]|
    ensures CountRow(g, x0, x1, y, Anything) == x1 - x0
    decreases x1 - x0
  {
    if x0 < x1 {
      CountRowAll(g, x0, x1 - 1, y);
    }
  }

  /** Every cell satisfies Anything, so its count is the area. */
  lemma {:induction false} CountArea(g: Grid, x0: int, x1: int, y0: int, y1: int)
    requires Box(g, x0, x1, y0, y1) && x0 <= x1 && y0 <= y1
    ensures Count(g, x0, x1, y0, y1, Anything) == (x1 - x0) * (y1 - y0)
    decreases y1 - y0
  {
    if y0 < y1 {
      CountArea(g, x0, x1, y0, y1 - 1);
      CountRowAll(g, x0, x1, y1 - 1);
      assert (x1 - x0) * (y1 - y0) == (x1 - x0) * (y1 - 1 - y0) + (x1 - x0);
    }
  }

  /** A row segment cut into a left and a right part. */
  lemma {:induction false} CountRowColumns(g: Grid, x0: int, xm: int, x1: int, y: int, p: Prop)
    requires 0 <= x0 <= xm <= x1 <= |g| && 0 <= y && forall x :: x0 <= x < x1 ==> y < |g[x]|
    ensures CountRow(g, x0, x1, y, p) == CountRow(g, x0, xm, y, p) + CountRow(g, xm, x1, y, p)
    decreases x1 - xm
  {
    if xm < x1 {
      CountRowColumns(g, x0, xm, x1 - 1, y, p);
    }
  }

  /** A rectangle cut into a left and a right part. */
  lemma {:induction false} CountColumns(g: Grid, x0: int, xm: int, x1: int, y0: int, y1: int, p: Prop)
    requires Box(g, x0, x1, y0, y1) && x0 <= xm <= x1
    ensures Count(g, x0, x1, y0, y1, p) == Count(g, x0, xm, y0, y1, p) + Count(g, xm, x1, y0, y1, p)
    decreases y1 - y0
  {
    if y0 < y1 {
      CountColumns(g, x0, xm, x1, y0, y1 - 1, p);
      CountRowColumns(g, x0, xm, x1, y1 - 1, p);
    }
  }

  /** A rectangle cut into a lower and an upper part. */
  lemma {:induction false} CountRows(g: Grid, x0: int, x1: int, y0: int, ym: int, y1: int, p: Prop)
    requires Box(g, x0, x1, y0, y1) && y0 <= ym <= y1
    ensures Count(g, x0, x1, y0, y1, p) == Count(g, x0, x1, y0, ym, p) + Count(g, x0, x1, ym, y1, p)
    decreases y1 - ym
  {
    if ym < y1 {
      CountRows(g, x0, x1, y0, ym, y1 - 1, p);
    }
  }

  /** When no border cell satisfies p, counting the whole grid and counting
      its interior agree. */
  lemma CountInterior(g: Grid, w: int, h: int, p: Prop)
    requires Rectangular(g, w, h) && 2 <= w && 2 <= h
    requires forall x, y :: InGrid(w, h, x, y) && IsBorder(w, h, x, y) ==> !Holds(p, g[x][y])
    ensures Count(g, 0, w, 0, h, p) == Count(g, 1, w - 1, 1, h - 1, p)
  {
    CountWithoutEndRows(g, w, h, p);
    CountWithoutEndColumns(g, w, h, p);
  }

  lemma CountWithoutEndRows(g: Grid, w: int, h: int, p: Prop)
    requires Rectangular(g, w, h) && 2 <= w && 2 <= h
    requires forall x, y :: InGrid(w, h, x, y) && IsBorder(w, h, x, y) ==> !Holds(p, g[x][y])
    ensures Count(g, 0, w, 0, h, p) == Count(g, 0, w, 1, h - 1, p)
  {
    CountRows(g, 0, w, 0, 1, h, p);
    CountRows(g, 0, w, 1, h - 1, h, p);
    CountZero(g, 0, w, 0, 1, p);
    CountZero(g, 0, w, h - 1, h, p);
  }

  lemma CountWithoutEndColumns(g: Grid, w: int, h: int, p: Prop)
    requires Rectangular(g, w, h) && 2 <= w && 2 <= h
    requires forall x, y :: InGrid(w, h, x, y) && IsBorder(w, h, x, y) ==> !Holds(p, g[x][y])
    ensures Count(g, 0, w, 1, h - 1, p) == Count(g, 1, w - 1, 1, h - 1, p)
  {
    CountColumns(g, 0, 1, w, 1, h - 1, p);
    CountColumns(g, 1, w - 1, w, 1, h - 1, p);
    CountZero(g, 0, 1, 1, h - 1, p);
    CountZero(g, w - 1, w, 1, h - 1, p);
  }

  /** The 3x3 count written out as the nine terms MinesweeperEngine.cs adds. */
  lemma Count3x3Terms(g: Grid, x: int, y: int, p: Prop)
    requires Box(g, x - 1, x + 2, y - 1, y + 2)
    ensures Count3x3(g, x, y, p)
         == Ind(Holds(p, g[x - 1][y - 1])) + Ind(Holds(p, g[x][y - 1])) + Ind(Holds(p, g[x + 1][y - 1]))
          + Ind(Holds(p, g[x - 1][y])) + Ind(Holds(p, g[x][y])) + Ind(Holds(p, g[x + 1][y]))
          + Ind(Holds(p, g[x - 1][y + 1])) + Ind(Holds(p, g[x][y + 1])) + Ind(Holds(p, g[x + 1][y + 1]))
  {
    assert CountRow(g, x - 1, x + 1, y - 1, p) == Ind(Holds(p, g[x - 1][y - 1])) + Ind(Holds(p, g[x][y - 1]));
    assert CountRow(g, x - 1, x + 1, y, p) == Ind(Holds(p, g[x - 1][y])) + Ind(Holds(p, g[x][y]));
    assert CountRow(g, x - 1, x + 1, y + 1, p) == Ind(Holds(p, g[x - 1][y + 1])) + Ind(Holds(p, g[x][y + 1]));
    assert CountRow(g, x - 1, x + 2, y - 1, p) == Ind(Holds(p, g[x - 1][y - 1])) + Ind(Holds(p, g[x][y - 1])) + Ind(Holds(p, g[x + 1][y - 1]));
    assert CountRow(g, x - 1, x + 2, y, p) == Ind(Holds(p, g[x - 1][y])) + Ind(Holds(p, g[x][y])) + Ind(Holds(p, g[x + 1][y]));
    assert CountRow(g, x - 1, x + 2, y + 1, p) == Ind(Holds(p, g[x - 1][y + 1])) + Ind(Holds(p, g[x][y + 1])) + Ind(Holds(p, g[x + 1][y + 1]));
    assert Count(g, x - 1, x + 2, y - 1, y + 1, p) == CountRow(g, x - 1, x + 2, y - 1, p) + CountRow(g, x - 1, x + 2, y, p);
  }
}
