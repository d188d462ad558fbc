/**
 kernel/chr_drv/console.c: the cursor, the moving origin and video memory, updated byte by
 byte, shown to display the grid of the plain Terminal.  Addresses are counted in 16-bit cells
 from video_mem_start; a movsl moves two of them.
 */
module Console {
  import opened Terminal
  import opened VideoMemory

  class Console {
    const ega: bool                    // video_type is EGAC or EGAM
    const cols: int
    const lines: int
    const erase: char                  // ERASE_CHAR(tty)
    const vram: array<int>             // video_mem_start .. video_mem_end
    var origin: int
    var scrEnd: int
    var pos: int
    var x: int
    var y: int
    var top: int
    var bottom: int
    var state: int
    var npar: int
    var par: seq<int>
    var ques: bool
    var attr: int
    var savedX: int
    var savedY: int
    ghost var grid: Grid

    /** The parameters mean something only while a control sequence is being read. */
    ghost function Abs(): Term
      reads this
    {
      Term(cols, lines, grid, x, y, top, bottom, state, if state == 3 then npar else 0, if state == 3 then par else Zeros(),
           attr, savedX, savedY)
    }

    ghost predicate Valid()
      reads this, vram
      ensures Valid() ==> TermOk(Abs())
    {
      && TermOk(Abs()) && cols % 2 == 0 && (!ega ==> origin == 0) && 0 <= npar < NPAR && |par| == NPAR
      && scrEnd == origin + At(cols, lines, 0) <= vram.Length
      && pos == origin + At(cols, y, 0) + x
      && Shows(vram[..], origin, grid, cols)
    }

    /** con_init's share: the screen is the first rows of video memory as they are found, with
        the cursor where the boot code left it. */
    constructor (ega: bool, cols: int, lines: int, origX: int, origY: int, vram: array<int>, erase: char)
      requires 0 <= origX <= cols && 0 <= origY < lines
      requires 8 <= cols < 256 && cols % 2 == 0 && 1 <= lines < 256 && At(cols, lines, 0) <= vram.Length
      ensures Valid() && this.vram == vram && this.cols == cols && this.lines == lines && this.erase == erase && this.ega == ega
      ensures x == origX && y == origY && top == 0 && bottom == lines && state == 0 && attr == 0x07
    {
      this.ega, this.cols, this.lines, this.vram, this.erase := ega, cols, lines, vram, erase;
      origin, scrEnd, pos, x, y, top, bottom := 0, At(cols, lines, 0), At(cols, origY, 0) + origX, origX, origY, 0, lines;
      state, npar, par, ques, attr, savedX, savedY := 0, 0, Zeros(), false, 0x07, 0, 0;
      grid := FoundGrid(vram[..], cols, lines);
      new;
    }

    /** Every store was to what is now the screen. */
    twostate predicate Inside()
      reads this, vram
    {
      forall k :: 0 <= k < vram.Length && !(origin <= k < scrEnd) ==> vram[k] == old(vram[k])
    }

    // ----- the string instructions

    /** cld; rep movsl */
    method MoveForward(dst: int, src: int, longs: int)
      requires 0 <= dst <= src && 0 <= longs && src + 2 * longs <= vram.Length
      modifies vram
      ensures Moved(old(vram[..]), vram[..], src, dst, 2 * longs)
    {
      var d, s, n := dst, src, longs;
      while n > 0
        invariant 0 <= n <= longs && d == dst + 2 * (longs - n) && s == src + 2 * (longs - n)
        invariant forall k :: 0 <= k < vram.Length ==> vram[k] == Source(old(vram[..]), src, dst, 2 * (longs - n), k)
      {
        vram[d], vram[d + 1] := vram[s], vram[s + 1];
        d, s, n := d + 2, s + 2, n - 1;
      }
    }

    /** std; rep movsl: from the last long word down to the first; edi afterwards. */
    method MoveBackward(dst: int, src: int, longs: int) returns (edi: int)
      requires 0 <= longs && 0 <= src - 2 * longs + 2 && src <= dst && dst + 2 <= vram.Length
      modifies vram
      ensures Moved(old(vram[..]), vram[..], src - 2 * longs + 2, dst - 2 * longs + 2, 2 * longs) && edi == dst - 2 * longs
    {
      var s, n := src, longs;
      edi := dst;
      while n > 0
        invariant 0 <= n <= longs && edi == dst - 2 * (longs - n) && s == src - 2 * (longs - n)
        invariant forall k :: edi + 2 <= k < dst + 2 ==> vram[k] == old(vram[k - (dst - src)])
        invariant forall k :: 0 <= k < vram.Length && !(edi + 2 <= k < dst + 2) ==> vram[k] == old(vram[k])
      {
        vram[edi], vram[edi + 1] := vram[s], vram[s + 1];
        edi, s, n := edi - 2, s - 2, n - 1;
      }
    }

    /** cld; rep stosw with the erase character */
    method Fill(at: int, count: int)
      requires 0 <= at && 0 <= count && at + count <= vram.Length
      modifies vram
      ensures Filled(old(vram[..]), vram[..], at, at + count)
    {
      var n := 0;
      while n < count
        invariant 0 <= n <= count
        invariant forall k :: 0 <= k < vram.Length ==> vram[k] == if at <= k < at + n then BLANK else old(vram[k])
      {
        vram[at + n] := BLANK;
        n := n + 1;
      }
    }

    /** std; rep stosw */
    method FillBackward(at: int, count: int)
      requires at < vram.Length && 0 <= count && 0 <= at - count + 1
      modifies vram
      ensures Filled(old(vram[..]), vram[..], at - count + 1, at + 1)
    {
      var n := 0;
      while n < count
        invariant 0 <= n <= count
        invariant forall k :: 0 <= k < vram.Length ==> vram[k] == if at - n < k <= at then BLANK else old(vram[k])
      {
        vram[at - n] := BLANK;
        n := n + 1;
      }
    }

    // ----- scrolling

    /** The origin has moved on by a row and nothing but the new last row was written. */
    twostate predicate RolledOn()
      reads this, vram
    {
      && origin == old(origin) + cols && scrEnd == old(scrEnd) + cols
      && forall k :: 0 <= k < vram.Length && !(old(scrEnd) <= k < scrEnd) ==> vram[k] == old(vram[k])
    }

    method ScrUp()
      requires Valid()
      modifies vram, `origin, `pos, `scrEnd, `grid
      ensures Valid() && Abs() == old(Abs()).(grid := Up(old(grid), cols, top, bottom))
      ensures Inside()
      ensures if ega && top == 0 && bottom == lines then old(scrEnd) + cols <= vram.Length ==> RolledOn() else origin == old(origin)
    {
      hide At, Up, Shows, Moved, Filled, TermOk, GridOk;
      Bounds(Abs());
      ghost var up := Up(grid, cols, top, bottom);
      NewGrid(Abs(), up);
      if ega && top == 0 && bottom == lines {
        HardwareScroll();
      } else {
        ScrollRegionUp();
      }
      grid := up;
    }

    /** Scrolling the whole screen on EGA/VGA: the origin moves on by a row until the end of
        video memory, where the rows are copied back to its start. */
    method HardwareScroll()
      requires Valid() && ega && top == 0 && bottom == lines
      modifies vram, `origin, `pos, `scrEnd
      ensures Shows(vram[..], origin, Up(grid, cols, 0, lines), cols)
      ensures scrEnd - origin == old(scrEnd - origin) && pos - origin == old(pos - origin) && scrEnd <= vram.Length
      ensures Inside() && (old(scrEnd) + cols <= vram.Length ==> RolledOn())
    {
      hide At, Up, Shows, Moved, Filled, TermOk, GridOk;
      Bounds(Abs());
      RowInside(cols, lines, lines - 1);
      NextRow(cols, lines);
      NextRow(cols, lines - 1);
      ghost var o, v := origin, vram[..];
      origin := origin + cols;
      pos := pos + cols;
      scrEnd := scrEnd + cols;
      if scrEnd > vram.Length {
        EvenRows(cols, lines - 1);
        MoveForward(0, origin, At(cols, lines - 1, 0) / 2);
        ghost var m := vram[..];
        Fill(At(cols, lines - 1, 0), cols);
        ShowsCopyBack(v, m, vram[..], o, grid, cols);
        MovedFilledOutside(v, m, vram[..], o + cols, 0, At(cols, lines - 1, 0), At(cols, lines - 1, 0), At(cols, lines, 0), 0, At(cols, lines, 0));
        scrEnd := scrEnd - origin;
        pos := pos - origin;
        origin := 0;
      } else {
        Fill(scrEnd - cols, cols);
        ShowsShift(v, vram[..], o, grid, cols);
        FilledOutside(v, vram[..], scrEnd - cols, scrEnd, origin, scrEnd);
      }
    }

    /** Moving the rows of the region up in place. */
    method ScrollRegionUp()
      requires Valid()
      modifies vram
      ensures Shows(vram[..], origin, Up(grid, cols, top, bottom), cols)
      ensures Inside()
    {
      hide At, Up, Shows, Moved, Filled, TermOk, GridOk;
      ghost var v := vram[..];
      Bounds(Abs());
      RegionRows(cols, lines, top, bottom);
      MoveForward(origin + At(cols, top, 0), origin + At(cols, top + 1, 0), At(cols, bottom - top - 1, 0) / 2);
      ghost var m := vram[..];
      Fill(origin + At(cols, top, 0) + At(cols, bottom - top - 1, 0) / 2 * 2, cols);
      ShowsUp(v, m, vram[..], origin, grid, cols, top, bottom);
      MovedFilledOutside(v, m, vram[..], origin + At(cols, top + 1, 0), origin + At(cols, top, 0), At(cols, bottom - top - 1, 0),
                         origin + At(cols, bottom - 1, 0), origin + At(cols, bottom, 0), origin, scrEnd);
    }

    method ScrDown()
      requires Valid()
      modifies vram, `grid
      ensures Valid() && Abs() == old(Abs()).(grid := Down(old(grid), cols, top, bottom))
      ensures Inside()
    {
      hide At, Down, Shows, Moved, Filled, TermOk, GridOk;
      ghost var v := vram[..];
      Bounds(Abs());
      RegionRows(cols, lines, top, bottom);
      ghost var down := Down(grid, cols, top, bottom);
      NewGrid(Abs(), down);
      var edi := MoveBackward(origin + At(cols, bottom, 0) - 2, origin + At(cols, bottom - 1, 0) - 2, At(cols, bottom - top - 1, 0) / 2);
      ghost var m := vram[..];
      FillBackward(edi + 1, cols);
      ShowsDown(v, m, vram[..], origin, grid, cols, top, bottom);
      MovedFilledOutside(v, m, vram[..], origin + At(cols, top, 0), origin + At(cols, top + 1, 0), At(cols, bottom - top - 1, 0),
                         origin + At(cols, top, 0), origin + At(cols, top + 1, 0), origin, scrEnd);
      grid := down;
    }

    // ----- cursor

    /** gotoxy: 32-bit unsigned coordinates; a position off the screen is ignored. */
    method GotoXY(newX: int, newY: int)
      requires Valid() && 0 <= newX && 0 <= newY
      modifies `x, `y, `pos
      ensures Valid() && Abs() == Terminal.GotoXY(old(Abs()), newX, newY)
    {
      hide At, Shows;
      if newX > cols || newY >= lines { return; }
      x := newX;
      y := newY;
      pos := origin + At(cols, y, 0) + x;
    }

    method LineFeed()
      requires Valid()
      modifies vram, `origin, `pos, `scrEnd, `grid, `y
      ensures Valid() && Abs() == Terminal.LineFeed(old(Abs()))
      ensures Inside()
    {
      hide At, Shows, Up;
      if y + 1 < bottom {
        NextRow(cols, y);
        y := y + 1;
        pos := pos + cols;
        return;
      }
      ScrUp();
    }

    method ReverseIndex()
      requires Valid()
      modifies vram, `pos, `grid, `y
      ensures Valid() && Abs() == Terminal.ReverseIndex(old(Abs()))
      ensures Inside()
    {
      hide At, Shows, Down;
      if y > top {
        NextRow(cols, y - 1);
        y := y - 1;
        pos := pos - cols;
        return;
      }
      ScrDown();
    }

    method CarriageReturn()
      requires Valid()
      modifies `x, `pos
      ensures Valid() && Abs() == old(Abs()).(x := 0)
    {
      hide At, Shows;
      pos := pos - x;
      x := 0;
    }

    /** One character cell. */
    method Store(v: int)
      requires Valid() && x < cols
      modifies vram, `grid
      ensures Valid() && Abs() == Show(old(Abs()), v)
      ensures Inside()
    {
      hide At, Shows;
      ghost var before, row := vram[..], grid[y][x := v];
      RowInside(cols, lines, y);
      RowShown(before, origin, grid, cols, y);
      CellOfRow(before, origin + At(cols, y, 0), cols, grid[y], x);
      vram[pos] := v;
      assert forall k :: 0 <= k < |before| ==> vram[..][k] == RowCell(before, origin + At(cols, y, 0), row, k);
      ShowsRow(before, vram[..], origin, grid, cols, y, row);
      grid := grid[y := row];
    }

    method Delete()
      requires Valid()
      modifies vram, `grid, `x, `pos
      ensures Valid() && Abs() == Rubout(old(Abs()))
      ensures Inside()
    {
      hide At, Shows, Show;
      if x > 0 {
        pos := pos - 1;
        x := x - 1;
        Store(BLANK);
      }
    }

    // ----- erasing

    method EraseDisplay(p: int)
      requires Valid()
      modifies vram, `grid
      ensures Valid() && Abs() == Terminal.EraseDisplay(old(Abs()), p)
      ensures Inside()
    {
      hide At, Shows, Filled, Terminal.EraseDisplay;
      var count, start;
      ghost var before, t := vram[..], Abs();
      RowInside(cols, lines, y);
      if p == 0 {
        count := scrEnd - pos;
        start := pos;
      } else if p == 1 {
        count := pos - origin;
        start := origin;
      } else if p == 2 {
        count := At(cols, lines, 0);
        start := origin;
      } else {
        EraseOther(t, p);
        return;
      }
      EraseRange(t, p);
      Fill(start, count);
      grid := Terminal.EraseDisplay(t, p).grid;
      EraseGridOnly(t, p);
      ShowsErase(before, vram[..], origin, t.grid, grid, cols, start - origin, start - origin + count);
      FilledOutside(before, vram[..], start, start + count, origin, scrEnd);
    }

    method EraseLine(p: int)
      requires Valid()
      modifies vram, `grid
      ensures Valid() && Abs() == Terminal.EraseLine(old(Abs()), p)
      ensures Inside()
    {
      hide At, Shows, Filled, Erase;
      var count, start;
      if p == 0 {
        if x >= cols {
          assert Erase(grid[y], x, cols) == grid[y] by { NothingErased(grid[y]); }
          assert grid[y := grid[y]] == grid;
          return;
        }
        count := cols - x;
        start := pos;
      } else if p == 1 {
        start := pos - x;
        count := if x < cols then x else cols;
      } else if p == 2 {
        start := pos - x;
        count := cols;
        AllErased(grid[y]);
      } else {
        return;
      }
      FillRow(start, count);
    }

    /** The stosw of csi_K: it stays in the cursor's row. */
    method FillRow(start: int, count: int)
      requires Valid() && 0 <= count && pos - x <= start && start + count <= pos - x + cols
      modifies vram, `grid
      ensures Valid() && Abs() == old(Abs()).(grid := old(grid)[y := Erase(old(grid)[y], start - (pos - x), start - (pos - x) + count)])
      ensures Inside()
    {
      hide At, Shows, Filled, Erase, RowWritten;
      ghost var before, from := vram[..], start - (pos - x);
      RowInside(cols, lines, y);
      RowShown(before, origin, grid, cols, y);
      Fill(start, count);
      ghost var row := Erase(grid[y], from, from + count);
      ErasedRow(before, vram[..], origin, cols, y, grid[y], from, from + count);
      ShowsRow(before, vram[..], origin, grid, cols, y, row);
      FilledOutside(before, vram[..], start, start + count, origin, scrEnd);
      grid := grid[y := row];
    }

    // ----- inserting and deleting

    /** The loop of insert_char: each cell takes the old value of the one before it. */
    method CarryRight(ghost at: int)
      requires 0 <= x <= cols && pos == at + x && 0 <= at && at + cols <= vram.Length
      modifies vram
      ensures forall k :: 0 <= k < vram.Length ==>
        vram[k] == if !(pos <= k < at + cols) then old(vram[k]) else if k == pos then BLANK else old(vram[k - 1])
    {
      var i, carried, p := x, BLANK, pos;
      while i < cols
        invariant x <= i <= cols && p == at + i && carried == (if i == x then BLANK else old(vram[at + i - 1]))
        invariant forall k :: 0 <= k < vram.Length ==>
          vram[k] == if !(pos <= k < p) then old(vram[k]) else if k == pos then BLANK else old(vram[k - 1])
      {
        var tmp := vram[p];
        vram[p] := carried;
        carried := tmp;
        p := p + 1;
        i := i + 1;
      }
    }

    /** The loop of delete_char: each cell takes the value of the one behind it. */
    method CarryLeft(ghost at: int)
      requires 0 <= x < cols && pos == at + x && 0 <= at && at + cols <= vram.Length
      modifies vram
      ensures forall k :: 0 <= k < vram.Length ==>
        vram[k] == if !(pos <= k < at + cols) then old(vram[k]) else if k == at + cols - 1 then BLANK else old(vram[k + 1])
    {
      var p := pos;
      var i := x + 1;
      while i < cols
        invariant x + 1 <= i <= cols && p == at + i - 1
        invariant forall k :: 0 <= k < vram.Length ==> vram[k] == if pos <= k < p then old(vram[k + 1]) else old(vram[k])
      {
        vram[p] := vram[p + 1];
        p := p + 1;
        i := i + 1;
      }
      vram[p] := BLANK;
    }

    method InsertChar()
      requires Valid()
      modifies vram, `grid
      ensures Valid() && Abs() == old(Abs()).(grid := old(grid)[y := InsertCells(old(grid)[y], x, 1)])
      ensures Inside()
    {
      hide At, Shows, InsertCells, TermOk, GridOk;
      Bounds(Abs());
      NewRow(Abs(), InsertCells(grid[y], x, 1));
      ghost var before, at, was := vram[..], pos - x, grid[y];
      RowInside(cols, lines, y);
      RowShown(before, origin, grid, cols, y);
      CellOfRow(before, at, cols, was, 0);
      CarryRight(at);
      ghost var row := InsertCells(was, x, 1);
      forall k | 0 <= k < |before| ensures vram[..][k] == RowCell(before, at, row, k) {
        if at <= k < at + cols { InsertedCell(was, x, k - at); }
      }
      ShowsRow(before, vram[..], origin, grid, cols, y, row);
      grid := grid[y := row];
    }

    method DeleteChar()
      requires Valid()
      modifies vram, `grid
      ensures Valid() && Abs() == old(Abs()).(grid := old(grid)[y := DeleteCells(old(grid)[y], x, 1)])
      ensures Inside()
    {
      hide At, Shows, DeleteCells, TermOk, GridOk;
      Bounds(Abs());
      NewRow(Abs(), DeleteCells(grid[y], x, 1));
      ghost var before, at, was := vram[..], pos - x, grid[y];
      RowInside(cols, lines, y);
      RowShown(before, origin, grid, cols, y);
      CellOfRow(before, at, cols, was, 0);
      if x >= cols {
        DeletedBeyond(was);
        assert grid[y := grid[y]] == grid;
        return;
      }
      CarryLeft(at);
      ghost var row := DeleteCells(was, x, 1);
      CellsTaken(before, vram[..], at, was, x);
      ShowsRow(before, vram[..], origin, grid, cols, y, row);
      grid := grid[y := row];
    }

    method InsertLine()
      requires Valid()
      modifies vram, `grid, `top, `bottom
      ensures Valid() && Abs() == old(Abs()).(grid := Down(old(grid), cols, y, lines))
      ensures Inside()
    {
      hide At, Shows, Down;
      var oldTop, oldBottom := top, bottom;
      top := y;
      bottom := lines;
      ScrDown();
      top := oldTop;
      bottom := oldBottom;
    }

    method DeleteLine()
      requires Valid()
      modifies vram, `grid, `top, `bottom, `origin, `pos, `scrEnd
      ensures Valid() && Abs() == old(Abs()).(grid := Up(old(grid), cols, y, lines))
      ensures Inside()
      ensures if ega && y == 0 then old(scrEnd) + cols <= vram.Length ==> RolledOn() else origin == old(origin)
    {
      hide At, Shows, Up;
      var oldTop, oldBottom := top, bottom;
      top := y;
      bottom := lines;
      ScrUp();
      top := oldTop;
      bottom := oldBottom;
    }

    /** ESC [ n @ */
    method InsertChars(n: int)
      requires Valid() && 0 <= n
      modifies vram, `grid
      ensures Valid() && Abs() == old(Abs()).(grid := old(grid)[y := InsertCells(old(grid)[y], x, Clamp(n, cols))])
      ensures Inside()
    {
      hide At, Shows, InsertCells;
      var nr := if n > cols then cols else if n == 0 then 1 else n;
      ghost var was, g, k := grid[y], grid, 0;
      InsertedNone(was, x);
      assert grid[y := was] == grid;
      while nr > 0
        invariant 0 <= nr && nr + k == Clamp(n, cols) && 0 <= k && Valid() && Inside()
        invariant Abs() == old(Abs()).(grid := g[y := InsertCells(was, x, k)])
      {
        InsertedNext(was, x, k);
        InsertChar();
        nr := nr - 1;
        k := k + 1;
      }
    }

    /** ESC [ n P */
    method DeleteChars(n: int)
      requires Valid() && 0 <= n
      modifies vram, `grid
      ensures Valid() && Abs() == old(Abs()).(grid := old(grid)[y := DeleteCells(old(grid)[y], x, Clamp(n, cols))])
      ensures Inside()
    {
      hide At, Shows, DeleteCells;
      var nr := if n > cols then cols else if n == 0 then 1 else n;
      ghost var was, g, k := grid[y], grid, 0;
      DeletedNone(was, x);
      assert grid[y := was] == grid;
      while nr > 0
        invariant 0 <= nr && nr + k == Clamp(n, cols) && 0 <= k && Valid() && Inside()
        invariant Abs() == old(Abs()).(grid := g[y := DeleteCells(was, x, k)])
      {
        DeletedNext(was, x, k);
        DeleteChar();
        nr := nr - 1;
        k := k + 1;
      }
    }

    /** ESC [ n L */
    method InsertLines(n: int)
      requires Valid() && 0 <= n
      modifies vram, `grid, `top, `bottom
      ensures Valid() && Abs() == old(Abs()).(grid := InsertRows(old(grid), cols, y, Clamp(n, lines)))
      ensures Inside()
    {
      hide At, Shows, InsertRows, Down;
      var nr := if n > lines then lines else if n == 0 then 1 else n;
      ghost var g, k := grid, 0;
      RowsInsertedNone(g, cols, y);
      while nr > 0
        invariant 0 <= nr && nr + k == Clamp(n, lines) && 0 <= k && Valid() && Inside()
        invariant Abs() == old(Abs()).(grid := InsertRows(g, cols, y, k))
      {
        RowsInsertedNext(g, cols, y, k);
        InsertLine();
        nr := nr - 1;
        k := k + 1;
      }
    }

    /** ESC [ n M */
    method DeleteLines(n: int)
      requires Valid() && 0 <= n
      modifies vram, `grid, `top, `bottom, `origin, `pos, `scrEnd
      ensures Valid() && Abs() == old(Abs()).(grid := DeleteRows(old(grid), cols, y, Clamp(n, lines)))
      ensures !(ega && y == 0) || old(scrEnd) + At(cols, Clamp(n, lines), 0) <= vram.Length ==> Inside()
    {
      hide At, Shows, DeleteRows, Up;
      NextRow(cols, 0);
      var nr := if n > lines then lines else if n == 0 then 1 else n;
      ghost var g, k := grid, 0;
      RowsDeletedNone(g, cols, y);
      while nr > 0
        invariant 0 <= nr && nr + k == Clamp(n, lines) && 0 <= k && Valid()
        invariant Abs() == old(Abs()).(grid := DeleteRows(g, cols, y, k))
        invariant !(ega && y == 0) ==> origin == old(origin) && Inside()
        invariant ega && y == 0 && old(scrEnd) + At(cols, Clamp(n, lines), 0) <= vram.Length ==>
          && origin == old(origin) + At(cols, k, 0) && scrEnd == old(scrEnd) + At(cols, k, 0)
          && forall j :: 0 <= j < vram.Length && !(old(scrEnd) <= j < scrEnd) ==> vram[j] == old(vram[j])
      {
        RowsDeletedNext(g, cols, y, k);
        NextRow(cols, k);
        RowsBelow(cols, k + 1, Clamp(n, lines));
        RowsBelow(cols, 0, k);
        ghost var e := scrEnd;
        DeleteLine();
        assert ega && y == 0 && old(scrEnd) + At(cols, Clamp(n, lines), 0) <= vram.Length ==> scrEnd == e + cols;
        nr := nr - 1;
        k := k + 1;
      }
      RowsBelow(cols, k, lines);
    }

    // ----- control sequences

    /** csi_m */
    method SetAttributes()
      requires Valid()
      modifies `attr
      ensures Valid() && Abs() == old(Abs()).(attr := Attributes(old(attr), par, npar + 1))
    {
      hide At, Shows;
      var i := 0;
      while i <= npar
        invariant unchanged(`npar, `par) && 0 <= i <= npar + 1 && Valid()
        invariant Abs() == old(Abs()).(attr := Attributes(old(attr), par, i))
      {
        attr := Attribute(attr, par[i]);
        i := i + 1;
      }
    }

    /** The sequences that move the cursor. */
    method CursorSequence(c: char)
      requires Valid() && state == 3 && IsCursor(c)
      modifies `x, `y, `pos, `state, `par
      ensures Valid() && Abs() == Reset(Control(old(Abs()), c))
    {
      hide At, Shows, Terminal.GotoXY, TermOk, Terminal.EraseDisplay, Terminal.EraseLine, Scroll, Control;
      ghost var t := Abs();
      Bounds(t);
      Parameters(t);
      state := 0;
      assert Abs() == Reset(t);
      var newX, newY := FindTarget(c, t);
      ControlGoes(t, c);
      GotoReset(t, newX, newY);
      GotoXY(newX, newY);
    }

    method FindTarget(c: char, ghost t: Term) returns (newX: int, newY: int)
      requires TermOk(t) && par == t.par && x == t.x && y == t.y && IsCursor(c)
      modifies `par
      ensures newX == TargetX(t, c) && newY == TargetY(t, c) && 0 <= newX && 0 <= newY && |par| == NPAR
    {
      newX, newY := x, y;
      if c == 'G' || c == '`' {
        if par[0] != 0 { par := par[0 := par[0] - 1]; }
        newX := par[0];
      } else if c == 'd' {
        if par[0] != 0 { par := par[0 := par[0] - 1]; }
        newY := par[0];
      } else if c == 'H' || c == 'f' {
        if par[0] != 0 { par := par[0 := par[0] - 1]; }
        if par[1] != 0 { par := par[1 := par[1] - 1]; }
        newX, newY := par[1], par[0];
      } else {
        if par[0] == 0 { par := par[0 := 1]; }
        if c == 'A' {
          newY := (y - par[0]) % W32;
        } else if c == 'B' || c == 'e' {
          newY := (y + par[0]) % W32;
        } else if c == 'C' || c == 'a' {
          newX := (x + par[0]) % W32;
        } else if c == 'D' {
          newX := (x - par[0]) % W32;
        } else if c == 'E' {
          newX, newY := 0, (y + par[0]) % W32;
        } else {
          newX, newY := 0, (y - par[0]) % W32;
        }
      }
    }

    method EraseSequence(c: char)
      requires Valid() && state == 3 && (c == 'J' || c == 'K')
      modifies vram, `grid, `state
      ensures Valid() && Abs() == Reset(Control(old(Abs()), c)) && Inside()
    {
      hide At, Shows, Terminal.EraseDisplay, Terminal.EraseLine, TermOk;
      ghost var t := Abs();
      Bounds(t);
      Parameters(t);
      state := 0;
      assert Abs() == Reset(t);
      EraseReset(t, par[0]);
      if c == 'J' {
        EraseDisplay(par[0]);
      } else {
        EraseLine(par[0]);
      }
    }

    /** Rows and cells; n rows are deleted by scrolling n times, each time within the screen. */
    method ShiftSequence(c: char)
      requires Valid() && state == 3 && IsEdit(c) && c != 'J' && c != 'K'
      modifies vram, `grid, `top, `bottom, `origin, `pos, `scrEnd, `state
      ensures Valid() && Abs() == Reset(Control(old(Abs()), c))
      ensures c != 'M' ==> Inside()
    {
      hide At, Shows, InsertRows, DeleteRows, InsertCells, DeleteCells, TermOk;
      ghost var t := Abs();
      Bounds(t);
      Parameters(t);
      state := 0;
      assert Abs() == Reset(t);
      if c == 'L' {
        InsertLines(par[0]);
      } else if c == 'M' {
        DeleteLines(par[0]);
      } else if c == 'P' {
        DeleteChars(par[0]);
      } else {
        InsertChars(par[0]);
      }
    }

    /** The sequences that change the screen. */
    method EditSequence(c: char)
      requires Valid() && state == 3 && IsEdit(c)
      modifies vram, `grid, `top, `bottom, `origin, `pos, `scrEnd, `state
      ensures Valid() && Abs() == Reset(Control(old(Abs()), c))
      ensures c != 'M' ==> Inside()
    {
      hide Valid, Abs, Control, Reset, Inside;
      if c == 'J' || c == 'K' { EraseSequence(c); } else { ShiftSequence(c); }
    }

    method SetRegion(p: int, q: int)
      requires Valid() && 0 <= p && 0 <= q
      modifies `top, `bottom
      ensures Valid() && Abs() == Scroll(old(Abs()), p, q)
    {
      hide At, Shows;
      var first, last := p, q;
      if first != 0 { first := first - 1; }
      if last == 0 { last := lines; }
      if first < last && last <= lines {
        top := first;
        bottom := last;
      }
    }

    /** The sequences that change the terminal's modes, and unknown ones. */
    method ModeSequence(c: char)
      requires Valid() && state == 3 && !IsCursor(c) && !IsEdit(c)
      modifies `x, `y, `pos, `top, `bottom, `attr, `savedX, `savedY, `state, `par
      ensures Valid() && Abs() == Reset(Control(old(Abs()), c))
    {
      hide At, Shows, Attributes;
      ghost var t := Abs();
      if c == 'm' {
        SetAttributes();
        state := 0;
        return;
      }
      state := 0;
      assert Abs() == Reset(t);
      if c == 'r' {
        SetRegion(par[0], par[1]);
      } else if c == 's' {
        savedX, savedY := x, y;
      } else if c == 'u' {
        GotoXY(savedX, savedY);
      }
    }

    // ----- con_write

    /** A cursor behind the last column goes to the next line. */
    method WrapLine()
      requires Valid()
      modifies vram, `origin, `pos, `scrEnd, `grid, `x, `y
      ensures Valid() && Abs() == (if old(x) >= cols then Terminal.LineFeed(old(Abs()).(x := 0)) else old(Abs())) && Inside()
      ensures x < cols
    {
      hide At, Shows, TermOk;
      Bounds(Abs());
      CursorAt(Abs(), 0);
      if x >= cols {
        x := x - cols;
        pos := pos - cols;
        LineFeed();
      }
    }

    method PutChar(b: int)
      requires Valid() && 0 <= b < 128
      modifies vram, `origin, `pos, `scrEnd, `grid, `x, `y
      ensures Valid() && Abs() == Print(old(Abs()), b)
      ensures Inside()
    {
      hide At, Shows, Terminal.LineFeed, TermOk, Show;
      Bounds(Abs());
      WrapLine();
      Bounds(Abs());
      Store(attr * 256 + b);
      CursorAt(Abs(), x + 1);
      pos := pos + 1;
      x := x + 1;
    }

    method Tabulate()
      requires Valid()
      modifies vram, `origin, `pos, `scrEnd, `grid, `x, `y
      ensures Valid() && Abs() == Tab(old(Abs()))
      ensures Inside()
    {
      hide At, Shows, Terminal.LineFeed;
      var n := 8 - x % 8;
      x := x + n;
      pos := pos + n;
      if x > cols {
        x := x - cols;
        pos := pos - cols;
        LineFeed();
      }
    }

    method NormalByte(c: char)
      requires Valid() && state == 0
      modifies vram, `origin, `pos, `scrEnd, `grid, `x, `y, `state
      ensures Valid() && Abs() == Normal(old(Abs()), c, erase)
      ensures Inside()
    {
      hide At, Shows, Terminal.LineFeed, Rubout, Show, Print, Tab;
      var b := c as int;
      if b > 31 && b < 127 {
        PutChar(b);
      } else if b == 27 {
        state := 1;
      } else if b == 10 || b == 11 || b == 12 {
        LineFeed();
      } else if b == 13 {
        CarriageReturn();
      } else if c == erase && b < 128 {
        Delete();
      } else if b == 8 {
        if x > 0 {
          x := x - 1;
          pos := pos - 1;
        }
      } else if b == 9 {
        Tabulate();
      }
    }

    method EscapedByte(c: char)
      requires Valid() && state == 1
      modifies vram, `origin, `pos, `scrEnd, `grid, `x, `y, `state, `savedX, `savedY
      ensures Valid() && Abs() == Escaped(old(Abs()), c)
      ensures Inside()
    {
      hide At, Shows, Terminal.LineFeed, Terminal.ReverseIndex;
      state := 0;
      if c == '[' {
        state := 2;
      } else if c == 'E' {
        GotoXY(0, y + 1);
      } else if c == 'M' {
        ReverseIndex();
      } else if c == 'D' {
        LineFeed();
      } else if c == 'Z' {
      } else if x == '7' as int {
        savedX, savedY := x, y;
      } else if x == '8' as int {
        GotoXY(savedX, savedY);
      }
    }

    method ParameterByte(c: char)
      requires Valid() && state == 3
      modifies this, vram
      ensures Valid() && Abs() == Parameter(old(Abs()), c)
      ensures c != 'M' ==> Inside()
    {
      hide At, Shows, Control;
      if c == ';' && npar < NPAR - 1 {
        npar := npar + 1;
      } else if '0' <= c <= '9' {
        par := par[npar := (10 * par[npar] + (c as int - '0' as int)) % W32];
      } else if IsCursor(c) {
        CursorSequence(c);
      } else if IsEdit(c) {
        EditSequence(c);
      } else {
        ModeSequence(c);
      }
    }

    method WriteByte(c: char)
      requires Valid()
      modifies this, vram
      ensures Valid() && Abs() == Step(old(Abs()), c, erase)
      ensures old(state) < 2 || c != 'M' ==> Inside()
    {
      hide At, Shows, Parameter, Normal, Escaped;
      if state == 0 {
        NormalByte(c);
      } else if state == 1 {
        EscapedByte(c);
      } else {
        var rest := true;
        if state == 2 {
          par := Zeros();
          npar := 0;
          state := 3;
          ques := c == '?';
          rest := !ques;
        }
        if rest { ParameterByte(c); }
      }
    }

    ghost function Shot(): Frame
      reads this, vram
    {
      Frame(vram[..], origin, scrEnd, Abs())
    }

    /** con_write: whatever the bytes are, the screen is that of the plain terminal.  The stores
        of each byte are to the screen it leaves, but for ESC [ n M, which scrolls n times. */
    method Write(bytes: seq<char>) returns (ghost trace: seq<Frame>)
      requires Valid()
      modifies this, vram
      ensures Valid() && Abs() == Steps(old(Abs()), bytes, erase)
      ensures |trace| == |bytes| + 1 && trace[0] == old(Shot()) && trace[|bytes|] == Shot()
      ensures forall i :: 0 <= i < |bytes| ==> Written(trace[i], bytes[i], erase, trace[i + 1])
    {
      hide Valid, Abs, Step, Written;
      var nr := 0;
      trace := [Shot()];
      while nr < |bytes|
        invariant 0 <= nr <= |bytes| && Valid() && Abs() == Steps(old(Abs()), bytes[..nr], erase)
        invariant |trace| == nr + 1 && trace[0] == old(Shot()) && trace[nr] == Shot()
        invariant forall i :: 0 <= i < nr ==> Written(trace[i], bytes[i], erase, trace[i + 1])
      {
        assert bytes[..nr + 1][..nr] == bytes[..nr];
        WriteNext(bytes[nr]);
        trace := trace + [Shot()];
        nr := nr + 1;
      }
      assert bytes[..nr] == bytes;
    }

    method WriteNext(c: char)
      requires Valid()
      modifies this, vram
      ensures Valid() && Abs() == Step(old(Abs()), c, erase) && Written(old(Shot()), c, erase, Shot())
    {
      hide At, Shows, Step;
      WriteByte(c);
    }
  }

  /** Video memory and the part of it that is the screen, after some bytes. */
  datatype Frame = Frame(cells: seq<int>, origin: int, scrEnd: int, term: Term)

  /** One byte: the terminal's step, and no store outside what is then the screen. */
  ghost predicate Written(f: Frame, c: char, erase: char, g: Frame) {
    && TermOk(f.term) && g.term == Step(f.term, c, erase)
    && Shows(g.cells, g.origin, g.term.grid, g.term.cols) && |g.cells| == |f.cells|
    && (f.term.state < 2 || c != 'M' ==> forall k :: 0 <= k < |f.cells| && !(g.origin <= k < g.scrEnd) ==> g.cells[k] == f.cells[k])
  }

  lemma InsertedCell(row: Row, x: int, c: int)
    requires 0 <= x <= |row| && 0 <= c < |row|
    ensures InsertCells(row, x, 1)[c] == if c < x then row[c] else if c == x then BLANK else row[c - 1]
  {
    InsertedAt(row, x, 1, c);
  }

  lemma InsertedAt(row: Row, x: int, n: int, c: int)
    requires 0 <= x <= |row| && 0 <= n && 0 <= c < |row|
    ensures InsertCells(row, x, n)[c] == if c < x then row[c] else if c < x + n then BLANK else row[c - n]
  {
  }

  lemma DeletedCell(row: Row, x: int, c: int)
    requires 0 <= x <= |row| && 0 <= c < |row|
    ensures DeleteCells(row, x, 1)[c] == if c < x then row[c] else if c == |row| - 1 then BLANK else row[c + 1]
  {
    DeletedAt(row, x, 1, c);
  }

  lemma CellsTaken(v: seq<int>, w: seq<int>, at: int, was: Row, x: int)
    requires 0 <= x < |was| && 0 <= at && at + |was| <= |v| == |w| && forall k :: at <= k < at + |was| ==> v[k] == was[k - at]
    requires forall k {:trigger w[k]} :: 0 <= k < |v| && !(at + x <= k < at + |was|) ==> w[k] == v[k]
    requires forall k {:trigger w[k]} :: at + x <= k < at + |was| - 1 ==> w[k] == v[k + 1]
    requires w[at + |was| - 1] == BLANK
    ensures forall k :: 0 <= k < |v| ==> w[k] == RowCell(v, at, DeleteCells(was, x, 1), k)
  {
    hide DeleteCells;
    var row := DeleteCells(was, x, 1);
    forall k | 0 <= k < |v| ensures w[k] == RowCell(v, at, row, k) {
      if at <= k < at + |was| {
        DeletedCell(was, x, k - at);
        assert v[k] == was[k - at];
        if k + 1 < at + |was| { assert v[k + 1] == was[k - at + 1]; }
        assert w[k] == row[k - at];
      }
    }
  }

  lemma DeletedAt(row: Row, x: int, n: int, c: int)
    requires 0 <= x <= |row| && 0 <= n && 0 <= c < |row|
    ensures DeleteCells(row, x, n)[c] == if c < x then row[c] else if c + n < |row| then row[c + n] else BLANK
  {
  }

  lemma InsertedNone(row: Row, x: int)
    requires 0 <= x <= |row|
    ensures InsertCells(row, x, 0) == row
  {
  }

  lemma DeletedBeyond(row: Row)
    ensures DeleteCells(row, |row|, 1) == row
  {
  }

  lemma DeletedNone(row: Row, x: int)
    requires 0 <= x <= |row|
    ensures DeleteCells(row, x, 0) == row
  {
  }

  /** Inserting one more blank. */
  lemma InsertedNext(row: Row, x: int, k: int)
    requires 0 <= x <= |row| && 0 <= k
    ensures InsertCells(InsertCells(row, x, k), x, 1) == InsertCells(row, x, k + 1)
  {
    var a, b := InsertCells(InsertCells(row, x, k), x, 1), InsertCells(row, x, k + 1);
    hide InsertCells;
    forall c | 0 <= c < |row| ensures a[c] == b[c] {
      InsertedCell(InsertCells(row, x, k), x, c);
      InsertedAt(row, x, k + 1, c);
      InsertedAt(row, x, k, c);
      if c > x { InsertedAt(row, x, k, c - 1); }
    }
  }

  lemma DeletedNext(row: Row, x: int, k: int)
    requires 0 <= x <= |row| && 0 <= k
    ensures DeleteCells(DeleteCells(row, x, k), x, 1) == DeleteCells(row, x, k + 1)
  {
    var a, b := DeleteCells(DeleteCells(row, x, k), x, 1), DeleteCells(row, x, k + 1);
    hide DeleteCells;
    forall c | 0 <= c < |row| ensures a[c] == b[c] {
      DeletedCell(DeleteCells(row, x, k), x, c);
      DeletedAt(row, x, k + 1, c);
      DeletedAt(row, x, k, c);
      if c + 1 < |row| { DeletedAt(row, x, k, c + 1); }
    }
  }

  lemma RowsInsertedNone(g: Grid, cols: int, y: int)
    requires GridOk(g, |g|, cols) && 0 <= cols && 0 <= y < |g|
    ensures InsertRows(g, cols, y, 0) == g
  {
  }

  lemma RowsDeletedNone(g: Grid, cols: int, y: int)
    requires GridOk(g, |g|, cols) && 0 <= cols && 0 <= y < |g|
    ensures DeleteRows(g, cols, y, 0) == g
  {
  }

  lemma RowInserted(g: Grid, cols: int, y: int, n: int, r: int)
    requires GridOk(g, |g|, cols) && 0 <= cols && 0 <= y < |g| && 0 <= n && 0 <= r < |g|
    ensures InsertRows(g, cols, y, n)[r] == if r < y then g[r] else if r < y + n then Blanks(cols) else g[r - n]
  {
  }

  lemma RowDeleted(g: Grid, cols: int, y: int, n: int, r: int)
    requires GridOk(g, |g|, cols) && 0 <= cols && 0 <= y < |g| && 0 <= n && 0 <= r < |g|
    ensures DeleteRows(g, cols, y, n)[r] == if r < y then g[r] else if r + n < |g| then g[r + n] else Blanks(cols)
  {
  }

  lemma RowsInsertedNext(g: Grid, cols: int, y: int, k: int)
    requires GridOk(g, |g|, cols) && 0 <= cols && 0 <= y < |g| && 0 <= k
    ensures Down(InsertRows(g, cols, y, k), cols, y, |g|) == InsertRows(g, cols, y, k + 1)
  {
    var a, b := Down(InsertRows(g, cols, y, k), cols, y, |g|), InsertRows(g, cols, y, k + 1);
    hide InsertRows, Down;
    forall r | 0 <= r < |g| ensures a[r] == b[r] {
      DownRow(InsertRows(g, cols, y, k), cols, y, |g|, r);
      RowInserted(g, cols, y, k + 1, r);
      RowInserted(g, cols, y, k, r);
      if r > y { RowInserted(g, cols, y, k, r - 1); }
    }
  }

  lemma RowsDeletedNext(g: Grid, cols: int, y: int, k: int)
    requires GridOk(g, |g|, cols) && 0 <= cols && 0 <= y < |g| && 0 <= k
    ensures Up(DeleteRows(g, cols, y, k), cols, y, |g|) == DeleteRows(g, cols, y, k + 1)
  {
    var a, b := Up(DeleteRows(g, cols, y, k), cols, y, |g|), DeleteRows(g, cols, y, k + 1);
    hide DeleteRows, Up;
    forall r | 0 <= r < |g| ensures a[r] == b[r] {
      UpRow(DeleteRows(g, cols, y, k), cols, y, |g|, r);
      RowDeleted(g, cols, y, k + 1, r);
      RowDeleted(g, cols, y, k, r);
      if r + 1 < |g| { RowDeleted(g, cols, y, k, r + 1); }
    }
  }

  ghost function FoundGrid(v: seq<int>, cols: int, lines: int): (g: Grid)
    requires 0 < cols && 0 <= lines && At(cols, lines, 0) <= |v|
    ensures GridOk(g, lines, cols) && Shows(v, 0, g, cols)
  {
    hide At;
    assert forall r :: 0 <= r < lines ==> 0 <= At(cols, r, 0) && At(cols, r, 0) + cols <= At(cols, lines, 0) by {
      forall r | 0 <= r < lines ensures 0 <= At(cols, r, 0) && At(cols, r, 0) + cols <= At(cols, lines, 0) {
        RowInside(cols, lines, r);
      }
    }
    assert forall r, c :: 0 <= r < lines && 0 <= c < cols ==> At(cols, r, c) == At(cols, r, 0) + c by {
      forall r, c | 0 <= r < lines && 0 <= c < cols ensures At(cols, r, c) == At(cols, r, 0) + c {
        CellsInOrder(cols, r, c, 0);
      }
    }
    seq(lines, r requires 0 <= r < lines => v[At(cols, r, 0)..At(cols, r, 0) + cols])
  }

  predicate IsEdit(c: char) {
    c in "JKLMP@"
  }

  lemma NewRow(t: Term, row: Row)
    requires TermOk(t) && |row| == t.cols
    ensures TermOk(t.(grid := t.grid[t.y := row])) && |t.grid[t.y]| == t.cols
  {
  }

  lemma CursorAt(t: Term, x: int)
    requires TermOk(t) && 0 <= x <= t.cols
    ensures TermOk(t.(x := x))
  {
  }

  lemma Parameters(t: Term)
    requires TermOk(t)
    ensures |t.par| == NPAR && 0 <= t.par[0] && 0 <= t.par[1] && TermOk(Reset(t))
  {
  }

  lemma ControlGoes(t: Term, c: char)
    requires TermOk(t) && IsCursor(c)
    ensures Control(t, c) == Terminal.GotoXY(t, TargetX(t, c), TargetY(t, c))
  {
  }

  lemma GotoReset(t: Term, x: int, y: int)
    ensures Terminal.GotoXY(Reset(t), x, y) == Reset(Terminal.GotoXY(t, x, y))
  {
  }

  lemma EraseReset(t: Term, p: int)
    requires TermOk(t)
    ensures Terminal.EraseDisplay(Reset(t), p) == Reset(Terminal.EraseDisplay(t, p))
    ensures Terminal.EraseLine(Reset(t), p) == Reset(Terminal.EraseLine(t, p))
  {
  }

  lemma NothingErased(row: Row)
    ensures Erase(row, |row|, |row|) == row
  {
  }

  lemma AllErased(row: Row)
    ensures Erase(row, 0, |row|) == Blanks(|row|)
  {
  }

  lemma CellOfRow(v: seq<int>, at: int, cols: int, row: Row, x: int)
    requires 0 <= at && 0 <= x < cols && at + cols <= |v| && v[at..at + cols] == row
    ensures forall k :: at <= k < at + cols ==> v[k] == row[k - at]
  {
    forall k | at <= k < at + cols ensures v[k] == row[k - at] { assert v[at..at + cols][k - at] == v[k]; }
  }

  lemma ErasedRow(v: seq<int>, w: seq<int>, o: int, cols: int, y: int, row: Row, from: int, to: int)
    requires 0 < cols && 0 <= o + At(cols, y, 0) && o + At(cols, y, 0) + cols <= |v| && v[o + At(cols, y, 0)..o + At(cols, y, 0) + cols] == row
    requires 0 <= from <= to <= cols && Filled(v, w, o + At(cols, y, 0) + from, o + At(cols, y, 0) + to)
    ensures RowWritten(v, w, o, cols, y, Erase(row, from, to))
  {
    hide At;
    CellOfRow(v, o + At(cols, y, 0), cols, row, 0);
  }

  lemma EraseOther(t: Term, p: int)
    requires TermOk(t) && !(0 <= p <= 2)
    ensures Terminal.EraseDisplay(t, p) == t
  {
  }

  lemma EraseGridOnly(t: Term, p: int)
    requires TermOk(t)
    ensures Terminal.EraseDisplay(t, p) == t.(grid := Terminal.EraseDisplay(t, p).grid)
  {
  }

  /** The addresses of the rows of a scroll region. */
  lemma RegionRows(cols: int, lines: int, top: int, bottom: int)
    requires 0 < cols && cols % 2 == 0 && 0 <= top < bottom <= lines
    ensures At(cols, bottom - top - 1, 0) % 2 == 0 && 0 <= At(cols, bottom - top - 1, 0)
    ensures 0 <= At(cols, top, 0) && At(cols, top + 1, 0) == At(cols, top, 0) + cols
    ensures At(cols, bottom, 0) == At(cols, bottom - 1, 0) + cols <= At(cols, lines, 0)
    ensures At(cols, bottom - 1, 0) == At(cols, top, 0) + At(cols, bottom - top - 1, 0)
    ensures At(cols, bottom, 0) == At(cols, top + 1, 0) + At(cols, bottom - top - 1, 0)
  {
    hide At;
    RowInside(cols, lines, top);
    RowInside(cols, lines, bottom - 1);
    NextRow(cols, top);
    NextRow(cols, bottom - 1);
    SumRows(cols, top, bottom - top - 1, bottom - 1);
    SumRows(cols, top + 1, bottom - top - 1, bottom);
    EvenRows(cols, bottom - top - 1);
    RowsBelow(cols, 0, bottom - top - 1);
    NextRow(cols, 0);
  }
}
