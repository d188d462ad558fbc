/**
 How a stretch of video memory shows a grid of rows, and what moving or filling cells of it
 does to the rows.  Addresses are counted in 16-bit cells from the start of video memory.
 */
module VideoMemory {
  import opened Terminal

  function At(cols: int, r: int, c: int): int {
    r * cols + c
  }

  lemma NextRow(cols: int, r: int)
    ensures At(cols, r + 1, 0) == At(cols, r, 0) + cols && At(cols, 0, 0) == 0
  {
  }

  lemma {:induction false} RowsBelow(cols: int, r: int, s: int)
    requires 0 <= cols && r <= s
    ensures At(cols, r, 0) <= At(cols, s, 0)
    decreases s - r
  {
    if r < s {
      NextRow(cols, r);
      RowsBelow(cols, r + 1, s);
    }
  }

  lemma CellsInOrder(cols: int, r: int, c: int, s: int)
    requires 0 <= c < cols
    ensures r < s ==> At(cols, r, c) < At(cols, s, 0)
    ensures r >= s ==> At(cols, s, 0) <= At(cols, r, c)
    ensures At(cols, r, c) == At(cols, r, 0) + c
  {
    NextRow(cols, r);
    if r < s { RowsBelow(cols, r + 1, s); } else { RowsBelow(cols, s, r); }
  }

  /** The grid is what video memory shows from the origin on. */
  ghost predicate Shows(v: seq<int>, origin: int, g: Grid, cols: int)
    ensures Shows(v, origin, g, cols) ==> 0 <= origin && origin + At(cols, |g|, 0) <= |v|
  {
    && 0 <= origin && origin + At(cols, |g|, 0) <= |v| && GridOk(g, |g|, cols)
    && forall r, c :: 0 <= r < |g| && 0 <= c < cols ==> ShowsCell(v, origin, g, cols, r, c)
  }

  ghost predicate ShowsCell(v: seq<int>, origin: int, g: Grid, cols: int, r: int, c: int)
    requires 0 <= r < |g| && 0 <= c < |g[r]|
  {
    0 <= origin + At(cols, r, c) < |v| && v[origin + At(cols, r, c)] == g[r][c]
  }

  /** w is v with the cells from..to blank. */
  ghost predicate Filled(v: seq<int>, w: seq<int>, from: int, to: int) {
    |w| == |v| && forall k :: 0 <= k < |v| ==> w[k] == if from <= k < to then BLANK else v[k]
  }

  /** w is v with n cells from src on copied to dst on. */
  ghost predicate Moved(v: seq<int>, w: seq<int>, src: int, dst: int, n: int) {
    |w| == |v| && 0 <= src && 0 <= dst && src + n <= |v| && dst + n <= |v|
    && forall k :: 0 <= k < |v| ==> w[k] == Source(v, src, dst, n, k)
  }

  function Source(v: seq<int>, src: int, dst: int, n: int, k: int): int
    requires 0 <= k < |v| && 0 <= src && src + n <= |v|
  {
    if dst <= k < dst + n then v[k - dst + src] else v[k]
  }

  lemma UpRow(g: Grid, cols: int, top: int, bottom: int, r: int)
    requires GridOk(g, |g|, cols) && 0 <= cols && 0 <= top < bottom <= |g| && 0 <= r < |g|
    ensures Up(g, cols, top, bottom)[r] ==
      if top <= r < bottom - 1 then g[r + 1] else if r == bottom - 1 then Blanks(cols) else g[r]
  {
  }

  lemma DownRow(g: Grid, cols: int, top: int, bottom: int, r: int)
    requires GridOk(g, |g|, cols) && 0 <= cols && 0 <= top < bottom <= |g| && 0 <= r < |g|
    ensures Down(g, cols, top, bottom)[r] ==
      if top < r < bottom then g[r - 1] else if r == top then Blanks(cols) else g[r]
  {
  }

  lemma ShowsUp(v: seq<int>, m: seq<int>, w: seq<int>, o: int, g: Grid, cols: int, top: int, bottom: int)
    requires Shows(v, o, g, cols) && 0 < cols && 0 <= top < bottom <= |g|
    requires Moved(v, m, o + At(cols, top + 1, 0), o + At(cols, top, 0), At(cols, bottom - top - 1, 0))
    requires Filled(m, w, o + At(cols, bottom - 1, 0), o + At(cols, bottom, 0))
    ensures Shows(w, o, Up(g, cols, top, bottom), cols)
  {
    hide At, Up;
    var h := Up(g, cols, top, bottom);
    NextRow(cols, bottom - 1);
    SumRows(cols, top, bottom - top - 1, bottom - 1);
    forall r, c | 0 <= r < |g| && 0 <= c < cols ensures ShowsCell(w, o, h, cols, r, c) {
      assert ShowsCell(v, o, g, cols, r, c);
      UpRow(g, cols, top, bottom, r);
      CellsInOrder(cols, r, c, top);
      CellsInOrder(cols, r, c, bottom - 1);
      CellsInOrder(cols, r, c, bottom);
      NextRow(cols, r);
      NextRow(cols, top);
      if top <= r < bottom - 1 {
        assert ShowsCell(v, o, g, cols, r + 1, c);
        CellsInOrder(cols, r + 1, c, r + 1);
      }
    }
  }

  lemma SumRows(cols: int, r: int, s: int, sum: int)
    requires sum == r + s
    ensures At(cols, sum, 0) == At(cols, r, 0) + At(cols, s, 0)
  {
  }

  lemma ShowsDown(v: seq<int>, m: seq<int>, w: seq<int>, o: int, g: Grid, cols: int, top: int, bottom: int)
    requires Shows(v, o, g, cols) && 0 < cols && 0 <= top < bottom <= |g|
    requires Moved(v, m, o + At(cols, top, 0), o + At(cols, top + 1, 0), At(cols, bottom - top - 1, 0))
    requires Filled(m, w, o + At(cols, top, 0), o + At(cols, top + 1, 0))
    ensures Shows(w, o, Down(g, cols, top, bottom), cols)
  {
    hide At, Down;
    var h := Down(g, cols, top, bottom);
    NextRow(cols, top);
    SumRows(cols, top + 1, bottom - top - 1, bottom);
    forall r, c | 0 <= r < |g| && 0 <= c < cols ensures ShowsCell(w, o, h, cols, r, c) {
      assert ShowsCell(v, o, g, cols, r, c);
      DownRow(g, cols, top, bottom, r);
      CellsInOrder(cols, r, c, top);
      CellsInOrder(cols, r, c, top + 1);
      CellsInOrder(cols, r, c, bottom);
      if top < r < bottom {
        assert ShowsCell(v, o, g, cols, r - 1, c);
        CellsInOrder(cols, r - 1, c, r);
        NextRow(cols, r - 1);
      }
    }
  }

  /** Scrolling by moving the origin: only the new last row is written. */
  lemma ShowsShift(v: seq<int>, w: seq<int>, o: int, g: Grid, cols: int)
    requires Shows(v, o, g, cols) && 0 < cols && 0 < |g| && o + At(cols, |g| + 1, 0) <= |v|
    requires Filled(v, w, o + At(cols, |g|, 0), o + At(cols, |g| + 1, 0))
    ensures Shows(w, o + cols, Up(g, cols, 0, |g|), cols)
  {
    hide At, Up;
    var h, at := Up(g, cols, 0, |g|), o + cols;
    NextRow(cols, |g|);
    NextRow(cols, |g| - 1);
    forall r, c | 0 <= r < |g| && 0 <= c < cols ensures ShowsCell(w, at, h, cols, r, c) {
      UpRow(g, cols, 0, |g|, r);
      NextRow(cols, r);
      CellsInOrder(cols, r, c, |g| - 1);
      CellsInOrder(cols, r, c, 0);
      CellsInOrder(cols, r, c, |g|);
      if r < |g| - 1 {
        assert ShowsCell(v, o, g, cols, r + 1, c);
        CellsInOrder(cols, r + 1, c, |g|);
      }
    }
  }

  /** At the end of video memory all rows but the first are copied back to its start. */
  lemma ShowsCopyBack(v: seq<int>, m: seq<int>, w: seq<int>, o: int, g: Grid, cols: int)
    requires Shows(v, o, g, cols) && 0 < cols && 0 < |g|
    requires Moved(v, m, o + cols, 0, At(cols, |g| - 1, 0)) && Filled(m, w, At(cols, |g| - 1, 0), At(cols, |g|, 0))
    ensures Shows(w, 0, Up(g, cols, 0, |g|), cols)
  {
    hide At, Up;
    var h := Up(g, cols, 0, |g|);
    forall r, c | 0 <= r < |g| && 0 <= c < cols ensures ShowsCell(w, 0, h, cols, r, c) {
      UpRow(g, cols, 0, |g|, r);
      assert ShowsCell(v, o, g, cols, r, c);
      CellsInOrder(cols, r, c, |g| - 1);
      CellsInOrder(cols, r, c, |g|);
      CellsInOrder(cols, r, c, 0);
      NextRow(cols, r);
      if r < |g| - 1 {
        assert ShowsCell(v, o, g, cols, r + 1, c);
        CellsInOrder(cols, r + 1, c, |g|);
      }
    }
  }

  /** Only row y was written. */
  ghost predicate RowWritten(v: seq<int>, w: seq<int>, o: int, cols: int, y: int, row: Row) {
    && |w| == |v| && |row| == cols && 0 <= o + At(cols, y, 0) && o + At(cols, y, 0) + cols <= |v|
    && forall k :: 0 <= k < |v| ==> w[k] == RowCell(v, o + At(cols, y, 0), row, k)
  }

  function RowCell(v: seq<int>, at: int, row: Row, k: int): int
    requires 0 <= k < |v|
  {
    if at <= k < at + |row| then row[k - at] else v[k]
  }

  lemma ShowsRow(v: seq<int>, w: seq<int>, o: int, g: Grid, cols: int, y: int, row: Row)
    requires Shows(v, o, g, cols) && 0 < cols && 0 <= y < |g| && RowWritten(v, w, o, cols, y, row)
    ensures Shows(w, o, g[y := row], cols)
  {
    hide At;
    var h := g[y := row];
    NextRow(cols, y);
    forall r, c | 0 <= r < |g| && 0 <= c < cols ensures ShowsCell(w, o, h, cols, r, c) {
      assert ShowsCell(v, o, g, cols, r, c);
      CellsInOrder(cols, r, c, y);
      CellsInOrder(cols, r, c, y + 1);
    }
  }

  lemma RowInside(cols: int, lines: int, y: int)
    requires 0 < cols && 0 <= y < lines
    ensures 0 <= At(cols, y, 0) && At(cols, y, 0) + cols <= At(cols, lines, 0)
  {
    NextRow(cols, y);
    NextRow(cols, 0);
    RowsBelow(cols, 0, y);
    RowsBelow(cols, y + 1, lines);
  }

  /** The cells of a row as video memory holds them. */
  lemma RowShown(v: seq<int>, o: int, g: Grid, cols: int, y: int)
    requires Shows(v, o, g, cols) && 0 < cols && 0 <= y < |g|
    ensures 0 <= o + At(cols, y, 0) && o + At(cols, y, 0) + cols <= |v|
    ensures v[o + At(cols, y, 0)..o + At(cols, y, 0) + cols] == g[y]
  {
    RowInside(cols, |g|, y);
    var row := v[o + At(cols, y, 0)..o + At(cols, y, 0) + cols];
    forall c | 0 <= c < cols ensures row[c] == g[y][c] {
      assert ShowsCell(v, o, g, cols, y, c);
      CellsInOrder(cols, y, c, y);
    }
  }

  /** Blank cells from one address to another, wherever the rows break. */
  lemma ShowsErase(v: seq<int>, w: seq<int>, o: int, g: Grid, h: Grid, cols: int, from: int, to: int)
    requires Shows(v, o, g, cols) && GridOk(h, |g|, cols) && Filled(v, w, o + from, o + to)
    requires forall r, c :: 0 <= r < |g| && 0 <= c < cols ==> h[r][c] == Erased(g, cols, r, c, from, to)
    ensures Shows(w, o, h, cols)
  {
    hide At;
    forall r, c | 0 <= r < |g| && 0 <= c < cols ensures ShowsCell(w, o, h, cols, r, c) {
      assert ShowsCell(v, o, g, cols, r, c);
    }
  }

  function Erased(g: Grid, cols: int, r: int, c: int, from: int, to: int): int
    requires 0 <= r < |g| && 0 <= c < |g[r]|
  {
    if from <= At(cols, r, c) < to then BLANK else g[r][c]
  }

  /** Erasing the display, in cell addresses. */
  lemma EraseRange(t: Term, p: int)
    requires TermOk(t) && 0 <= p <= 2
    ensures var from, to := if p == 0 then At(t.cols, t.y, 0) + t.x else 0, if p == 1 then At(t.cols, t.y, 0) + t.x else At(t.cols, t.lines, 0);
      forall r, c :: 0 <= r < t.lines && 0 <= c < t.cols ==>
        EraseDisplay(t, p).grid[r][c] == Erased(t.grid, t.cols, r, c, from, to)
  {
    hide At;
    forall r, c | 0 <= r < t.lines && 0 <= c < t.cols
      ensures EraseDisplay(t, p).grid[r][c] == Erased(t.grid, t.cols, r, c, if p == 0 then At(t.cols, t.y, 0) + t.x else 0,
                                                      if p == 1 then At(t.cols, t.y, 0) + t.x else At(t.cols, t.lines, 0))
    {
      CellsInOrder(t.cols, r, c, t.y);
      CellsInOrder(t.cols, r, c, t.y + 1);
      CellsInOrder(t.cols, r, c, t.lines);
      CellsInOrder(t.cols, r, c, 0);
      NextRow(t.cols, t.y);
    }
  }

  lemma MovedFilledOutside(v: seq<int>, m: seq<int>, w: seq<int>, src: int, dst: int, n: int, from: int, to: int, lo: int, hi: int)
    requires Moved(v, m, src, dst, n) && Filled(m, w, from, to) && lo <= dst && dst + n <= hi && lo <= from && to <= hi
    ensures |w| == |v| && forall k :: 0 <= k < |v| && !(lo <= k < hi) ==> w[k] == v[k]
  {
  }

  lemma FilledOutside(v: seq<int>, w: seq<int>, from: int, to: int, lo: int, hi: int)
    requires Filled(v, w, from, to) && lo <= from && to <= hi
    ensures |w| == |v| && forall k :: 0 <= k < |v| && !(lo <= k < hi) ==> w[k] == v[k]
  {
  }

  lemma Bounds(t: Term)
    requires TermOk(t)
    ensures 8 <= t.cols && 1 <= t.lines && |t.grid| == t.lines && GridOk(t.grid, t.lines, t.cols)
    ensures 0 <= t.x <= t.cols && 0 <= t.y < t.lines && 0 <= t.top < t.bottom <= t.lines && |t.grid[t.y]| == t.cols
  {
  }

  lemma NewGrid(t: Term, g: Grid)
    requires TermOk(t) && GridOk(g, t.lines, t.cols)
    ensures TermOk(t.(grid := g))
  {
  }

  lemma EvenRows(cols: int, n: int)
    requires cols % 2 == 0
    ensures At(cols, n, 0) % 2 == 0
  {
    assert n * cols == 2 * (n * (cols / 2));
  }

  // ----- an odd number of cells to move

  /** scrup moves half as many long words as there are cells, rounded down.  With an odd number
      of cells the last one stays behind and the blank row starts a cell early; the screen is
      right all the same exactly when that last cell was blank. */
  lemma ScrUpShows(v: seq<int>, m: seq<int>, w: seq<int>, o: int, g: Grid, cols: int, top: int, bottom: int)
    requires Shows(v, o, g, cols) && 0 < cols && 0 <= top < bottom <= |g|
    requires var n := At(cols, bottom - top - 1, 0) / 2 * 2;
      Moved(v, m, o + At(cols, top + 1, 0), o + At(cols, top, 0), n) &&
      Filled(m, w, o + At(cols, top, 0) + n, o + At(cols, top, 0) + n + cols)
    ensures Shows(w, o, Up(g, cols, top, bottom), cols) <==>
      At(cols, bottom - top - 1, 0) % 2 == 0 || g[bottom - 1][cols - 1] == BLANK
  {
    hide At, Up, Moved, Filled;
    SumRows(cols, top, bottom - top - 1, bottom - 1);
    NextRow(cols, bottom - 1);
    if At(cols, bottom - top - 1, 0) % 2 == 0 {
      ShowsUp(v, m, w, o, g, cols, top, bottom);
    } else {
      if Shows(w, o, Up(g, cols, top, bottom), cols) { StaleCell(v, m, w, o, g, cols, top, bottom); }
      if g[bottom - 1][cols - 1] == BLANK { OddUp(v, m, w, o, g, cols, top, bottom); }
    }
  }

  lemma StaleCell(v: seq<int>, m: seq<int>, w: seq<int>, o: int, g: Grid, cols: int, top: int, bottom: int)
    requires Shows(v, o, g, cols) && 0 < cols && 0 <= top < bottom <= |g| && At(cols, bottom - top - 1, 0) % 2 != 0
    requires var n := At(cols, bottom - top - 1, 0) - 1;
      Moved(v, m, o + At(cols, top + 1, 0), o + At(cols, top, 0), n) &&
      Filled(m, w, o + At(cols, top, 0) + n, o + At(cols, top, 0) + n + cols)
    requires Shows(w, o, Up(g, cols, top, bottom), cols)
    ensures g[bottom - 1][cols - 1] == BLANK
  {
    hide At, Up;
    SumRows(cols, top, bottom - top - 1, bottom - 1);
    NextRow(cols, bottom - 1);
    UpRow(g, cols, top, bottom, bottom - 1);
    CellsInOrder(cols, bottom - 1, cols - 1, bottom);
    assert ShowsCell(v, o, g, cols, bottom - 1, cols - 1);
    assert ShowsCell(w, o, Up(g, cols, top, bottom), cols, bottom - 1, cols - 1);
  }

  lemma OddUp(v: seq<int>, m: seq<int>, w: seq<int>, o: int, g: Grid, cols: int, top: int, bottom: int)
    requires Shows(v, o, g, cols) && 0 < cols && 0 <= top < bottom <= |g| && At(cols, bottom - top - 1, 0) % 2 != 0
    requires var n := At(cols, bottom - top - 1, 0) - 1;
      Moved(v, m, o + At(cols, top + 1, 0), o + At(cols, top, 0), n) &&
      Filled(m, w, o + At(cols, top, 0) + n, o + At(cols, top, 0) + n + cols)
    requires g[bottom - 1][cols - 1] == BLANK
    ensures Shows(w, o, Up(g, cols, top, bottom), cols)
  {
    hide At, Up;
    var h := Up(g, cols, top, bottom);
    SumRows(cols, top, bottom - top - 1, bottom - 1);
    NextRow(cols, bottom - 1);
    NextRow(cols, bottom - 2);
    NextRow(cols, top);
    forall r, c | 0 <= r < |g| && 0 <= c < cols ensures ShowsCell(w, o, h, cols, r, c) {
      assert ShowsCell(v, o, g, cols, r, c);
      UpRow(g, cols, top, bottom, r);
      CellsInOrder(cols, r, c, top);
      CellsInOrder(cols, r, c, bottom - 1);
      CellsInOrder(cols, r, c, bottom - 2);
      CellsInOrder(cols, r, c, bottom);
      NextRow(cols, r);
      if top <= r < bottom - 1 {
        assert ShowsCell(v, o, g, cols, r + 1, c);
        CellsInOrder(cols, r + 1, c, r + 1);
      }
    }
  }
}
