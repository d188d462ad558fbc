/**
 The terminal that kernel/chr_drv/console.c is meant to show: a plain grid of rows with a
 cursor and a scroll region, and what each byte does to it.  There is no video memory here.
 A cell holds attribute * 256 + character.
 */
module Terminal {

  const BLANK: int := 0x0720
  const NPAR: int := 16
  const W32: int := 0x1_0000_0000

  type Row = seq<int>
  type Grid = seq<Row>

  /** state 1 follows ESC, 2 follows ESC [, 3 reads the parameters of a control sequence. */
  datatype Term = Term(cols: int, lines: int, grid: Grid, x: int, y: int, top: int, bottom: int,
                       state: int, npar: int, par: seq<int>, attr: int, savedX: int, savedY: int)

  predicate GridOk(g: Grid, lines: int, cols: int) {
    |g| == lines && forall r :: 0 <= r < lines ==> |g[r]| == cols
  }

  predicate TermOk(t: Term) {
    && 8 <= t.cols < 256 && 1 <= t.lines < 256 && GridOk(t.grid, t.lines, t.cols)
    && 0 <= t.x <= t.cols && 0 <= t.y < t.lines && 0 <= t.top < t.bottom <= t.lines
    && 0 <= t.state <= 3 && 0 <= t.npar < NPAR && |t.par| == NPAR && (forall i :: 0 <= i < NPAR ==> 0 <= t.par[i] < W32)
    && 0 <= t.attr < 256 && 0 <= t.savedX <= t.cols && 0 <= t.savedY < t.lines
  }

  function Blanks(n: int): (r: Row)
    requires 0 <= n
    ensures |r| == n && forall i :: 0 <= i < n ==> r[i] == BLANK
  {
    seq(n, _ => BLANK)
  }

  function BlankRows(n: int, cols: int): (g: Grid)
    requires 0 <= n && 0 <= cols
    ensures GridOk(g, n, cols) && forall r, c :: 0 <= r < n && 0 <= c < cols ==> g[r][c] == BLANK
  {
    seq(n, _ => Blanks(cols))
  }

  // ----- what the operations do to the grid

  /** Rows top..bottom move up by one. */
  function Up(g: Grid, cols: int, top: int, bottom: int): (h: Grid)
    requires GridOk(g, |g|, cols) && 0 <= cols && 0 <= top < bottom <= |g|
    ensures GridOk(h, |g|, cols)
  {
    g[..top] + g[top + 1..bottom] + [Blanks(cols)] + g[bottom..]
  }

  /** Rows top..bottom move down by one. */
  function Down(g: Grid, cols: int, top: int, bottom: int): (h: Grid)
    requires GridOk(g, |g|, cols) && 0 <= cols && 0 <= top < bottom <= |g|
    ensures GridOk(h, |g|, cols)
  {
    g[..top] + [Blanks(cols)] + g[top..bottom - 1] + g[bottom..]
  }

  function Clamp(n: int, most: int): int {
    if n > most then most else if n == 0 then 1 else n
  }

  function Min(a: int, b: int): int {
    if a < b then a else b
  }

  /** csi_L: n blank rows are opened at row y, to the bottom of the screen. */
  function InsertRows(g: Grid, cols: int, y: int, n: int): (h: Grid)
    requires GridOk(g, |g|, cols) && 0 <= cols && 0 <= y < |g| && 0 <= n
    ensures GridOk(h, |g|, cols)
  {
    var k := Min(n, |g| - y);
    g[..y] + BlankRows(k, cols) + g[y..|g| - k]
  }

  /** csi_M: n rows are taken out at row y, to the bottom of the screen. */
  function DeleteRows(g: Grid, cols: int, y: int, n: int): (h: Grid)
    requires GridOk(g, |g|, cols) && 0 <= cols && 0 <= y < |g| && 0 <= n
    ensures GridOk(h, |g|, cols)
  {
    var k := Min(n, |g| - y);
    g[..y] + g[y + k..] + BlankRows(k, cols)
  }

  function InsertCells(row: Row, x: int, n: int): (r: Row)
    requires 0 <= x <= |row| && 0 <= n
    ensures |r| == |row|
  {
    var k := Min(n, |row| - x);
    row[..x] + Blanks(k) + row[x..|row| - k]
  }

  function DeleteCells(row: Row, x: int, n: int): (r: Row)
    requires 0 <= x <= |row| && 0 <= n
    ensures |r| == |row|
  {
    var k := Min(n, |row| - x);
    row[..x] + row[x + k..] + Blanks(k)
  }

  function Erase(row: Row, from: int, to: int): (r: Row)
    requires 0 <= from <= to <= |row|
    ensures |r| == |row|
  {
    row[..from] + Blanks(to - from) + row[to..]
  }

  // ----- cursor

  function GotoXY(t: Term, x: int, y: int): (u: Term)
    ensures TermOk(t) ==> TermOk(u) && u.cols == t.cols && u.lines == t.lines
  {
    if x < 0 || x > t.cols || y < 0 || y >= t.lines then t else t.(x := x, y := y)
  }

  function LineFeed(t: Term): (u: Term)
    requires TermOk(t)
    ensures TermOk(u) && u.cols == t.cols && u.lines == t.lines
  {
    if t.y + 1 < t.bottom then t.(y := t.y + 1) else t.(grid := Up(t.grid, t.cols, t.top, t.bottom))
  }

  function ReverseIndex(t: Term): (u: Term)
    requires TermOk(t)
    ensures TermOk(u) && u.cols == t.cols && u.lines == t.lines
  {
    if t.y > t.top then t.(y := t.y - 1) else t.(grid := Down(t.grid, t.cols, t.top, t.bottom))
  }

  function Show(t: Term, v: int): Term
    requires TermOk(t) && t.x < t.cols
  {
    t.(grid := t.grid[t.y := t.grid[t.y][t.x := v]])
  }

  /** A printable character: a cursor behind the last column goes to the next line first. */
  function Print(t: Term, c: int): (u: Term)
    requires TermOk(t)
    ensures TermOk(u) && u.cols == t.cols && u.lines == t.lines
  {
    var u := if t.x >= t.cols then LineFeed(t.(x := 0)) else t;
    Show(u, u.attr * 256 + c).(x := u.x + 1)
  }

  function Rubout(t: Term): (u: Term)
    requires TermOk(t)
    ensures TermOk(u) && u.cols == t.cols && u.lines == t.lines
  {
    if t.x > 0 then Show(t.(x := t.x - 1), BLANK) else t
  }

  function Tab(t: Term): (u: Term)
    requires TermOk(t)
    ensures TermOk(u) && u.cols == t.cols && u.lines == t.lines
  {
    var x := t.x + 8 - t.x % 8;
    if x > t.cols then LineFeed(t.(x := x - t.cols)) else t.(x := x)
  }

  // ----- control sequences

  function EraseDisplay(t: Term, p: int): (u: Term)
    requires TermOk(t)
    ensures TermOk(u) && u.cols == t.cols && u.lines == t.lines
  {
    var g, y, row := t.grid, t.y, t.grid[t.y];
    if p == 0 then t.(grid := g[..y] + [Erase(row, t.x, t.cols)] + BlankRows(t.lines - y - 1, t.cols))
    else if p == 1 then t.(grid := BlankRows(y, t.cols) + [Erase(row, 0, t.x)] + g[y + 1..])
    else if p == 2 then t.(grid := BlankRows(t.lines, t.cols))
    else t
  }

  function EraseLine(t: Term, p: int): (u: Term)
    requires TermOk(t)
    ensures TermOk(u) && u.cols == t.cols && u.lines == t.lines
  {
    var row := t.grid[t.y];
    if p == 0 then t.(grid := t.grid[t.y := Erase(row, t.x, t.cols)])
    else if p == 1 then t.(grid := t.grid[t.y := Erase(row, 0, t.x)])
    else if p == 2 then t.(grid := t.grid[t.y := Blanks(t.cols)])
    else t
  }

  function Attribute(attr: int, p: int): int {
    if p == 0 || p == 27 then 0x07 else if p == 1 || p == 4 then 0x0f else if p == 7 then 0x70 else attr
  }

  /** The parameters 0..n of ESC [ m in order. */
  function Attributes(attr: int, par: seq<int>, n: int): (a: int)
    requires n <= |par| && 0 <= attr < 256
    ensures 0 <= a < 256
  {
    if n <= 0 then attr else Attribute(Attributes(attr, par, n - 1), par[n - 1])
  }

  function OneOr(p: int): int {
    if p == 0 then 1 else p
  }

  function ZeroBased(p: int): int {
    if p == 0 then 0 else p - 1
  }

  function Scroll(t: Term, p: int, q: int): (u: Term)
    requires TermOk(t) && 0 <= p && 0 <= q
    ensures TermOk(u) && u.cols == t.cols && u.lines == t.lines
  {
    var first, last := ZeroBased(p), if q == 0 then t.lines else q;
    if first < last <= t.lines then t.(top := first, bottom := last) else t
  }

  predicate IsCursor(c: char) {
    c in "G`ABeCaDEFdHf"
  }

  /** Where a cursor sequence wants to go.  Sums and differences are those of 32-bit unsigned
      numbers, so a huge parameter may wrap around to a position on the screen. */
  function TargetX(t: Term, c: char): int
    requires |t.par| == NPAR && IsCursor(c)
  {
    if c == 'G' || c == '`' then ZeroBased(t.par[0])
    else if c == 'C' || c == 'a' then (t.x + OneOr(t.par[0])) % W32
    else if c == 'D' then (t.x - OneOr(t.par[0])) % W32
    else if c == 'E' || c == 'F' then 0
    else if c == 'H' || c == 'f' then ZeroBased(t.par[1])
    else t.x
  }

  function TargetY(t: Term, c: char): int
    requires |t.par| == NPAR && IsCursor(c)
  {
    if c == 'A' || c == 'F' then (t.y - OneOr(t.par[0])) % W32
    else if c == 'B' || c == 'e' || c == 'E' then (t.y + OneOr(t.par[0])) % W32
    else if c == 'd' || c == 'H' || c == 'f' then ZeroBased(t.par[0])
    else t.y
  }

  /** The last byte of a control sequence ESC [ ... */
  function Control(t: Term, c: char): Term
    requires TermOk(t)
  {
    var p, q := t.par[0], t.par[1];
    if IsCursor(c) then GotoXY(t, TargetX(t, c), TargetY(t, c))
    else if c == 'J' then EraseDisplay(t, p)
    else if c == 'K' then EraseLine(t, p)
    else if c == 'L' then t.(grid := InsertRows(t.grid, t.cols, t.y, Clamp(p, t.lines)))
    else if c == 'M' then t.(grid := DeleteRows(t.grid, t.cols, t.y, Clamp(p, t.lines)))
    else if c == 'P' then t.(grid := t.grid[t.y := DeleteCells(t.grid[t.y], t.x, Clamp(p, t.cols))])
    else if c == '@' then t.(grid := t.grid[t.y := InsertCells(t.grid[t.y], t.x, Clamp(p, t.cols))])
    else if c == 'm' then t.(attr := Attributes(t.attr, t.par, t.npar + 1))
    else if c == 'r' then Scroll(t, p, q)
    else if c == 's' then t.(savedX := t.x, savedY := t.y)
    else if c == 'u' then GotoXY(t, t.savedX, t.savedY)
    else t
  }

  // ----- one byte

  function Zeros(): (p: seq<int>)
    ensures |p| == NPAR && forall i :: 0 <= i < NPAR ==> p[i] == 0
  {
    seq(NPAR, _ => 0)
  }

  function Normal(t: Term, c: char, erase: char): Term
    requires TermOk(t)
  {
    var b := c as int;
    if 31 < b < 127 then Print(t, b)
    else if b == 27 then t.(state := 1)
    else if 10 <= b <= 12 then LineFeed(t)
    else if b == 13 then t.(x := 0)
    else if c == erase && b < 128 then Rubout(t)
    else if b == 8 then if t.x > 0 then t.(x := t.x - 1) else t
    else if b == 9 then Tab(t)
    else t
  }

  /** The byte after ESC.  The source compares the column, not the byte, with '7' and '8'. */
  function Escaped(t: Term, c: char): Term
    requires TermOk(t)
  {
    var u := t.(state := 0);
    if c == '[' then t.(state := 2)
    else if c == 'E' then GotoXY(u, 0, u.y + 1)
    else if c == 'M' then ReverseIndex(u)
    else if c == 'D' then LineFeed(u)
    else if c == 'Z' then u
    else if u.x == '7' as int then u.(savedX := u.x, savedY := u.y)
    else if u.x == '8' as int then GotoXY(u, u.savedX, u.savedY)
    else u
  }

  function Reset(t: Term): Term {
    t.(state := 0, npar := 0, par := Zeros())
  }

  function Parameter(t: Term, c: char): Term
    requires TermOk(t)
  {
    if c == ';' && t.npar < NPAR - 1 then t.(npar := t.npar + 1)
    else if '0' <= c <= '9' then t.(par := t.par[t.npar := (10 * t.par[t.npar] + (c as int - '0' as int)) % W32])
    else Reset(Control(t, c))
  }

  function Step(t: Term, c: char, erase: char): Term
    requires TermOk(t)
  {
    if t.state == 0 then Normal(t, c, erase)
    else if t.state == 1 then Escaped(t, c)
    else if t.state == 2 then
      var u := t.(state := 3, npar := 0, par := Zeros());
      if c == '?' then u else Parameter(u, c)
    else Parameter(t, c)
  }

  /** Every byte leaves the cursor, the region and the grid in range. */
  lemma StepOk(t: Term, c: char, erase: char)
    requires TermOk(t)
    ensures TermOk(Step(t, c, erase))
    ensures Step(t, c, erase).cols == t.cols && Step(t, c, erase).lines == t.lines
  {
    hide LineFeed, ReverseIndex, Print, Rubout, Tab, GotoXY, Control;
    if t.state >= 2 {
      var u := if t.state == 2 then t.(state := 3, npar := 0, par := Zeros()) else t;
      ControlOk(u, c);
    }
  }

  lemma ControlOk(t: Term, c: char)
    requires TermOk(t)
    ensures TermOk(Control(t, c)) && Control(t, c).cols == t.cols && Control(t, c).lines == t.lines
  {
    hide GotoXY, EraseDisplay, EraseLine, InsertRows, DeleteRows, InsertCells, DeleteCells, Scroll, Attributes;
  }

  function Steps(t: Term, s: seq<char>, erase: char): Term
    requires TermOk(t)
    ensures TermOk(Steps(t, s, erase))
    decreases |s|
  {
    if s == [] then t
    else
      StepOk(Steps(t, s[..|s| - 1], erase), s[|s| - 1], erase);
      Step(Steps(t, s[..|s| - 1], erase), s[|s| - 1], erase)
  }

  /** Writing in pieces is writing at once: all that matters is kept between calls. */
  lemma {:induction false} StepsCompose(t: Term, a: seq<char>, b: seq<char>, erase: char)
    requires TermOk(t)
    ensures Steps(Steps(t, a, erase), b, erase) == Steps(t, a + b, erase)
    decreases |b|
  {
    if b == [] {
      assert a + b == a;
    } else {
      var n := |b| - 1;
      assert (a + b)[..|a + b| - 1] == a + b[..n];
      StepsCompose(t, a, b[..n], erase);
    }
  }

  // ----- ESC 7 and ESC 8

  /** What ESC 7 (save the cursor) and ESC 8 (restore it) are documented to do. */
  function EscapedAsMeant(t: Term, c: char): Term
    requires TermOk(t)
  {
    var u := t.(state := 0);
    if c in {'[', 'E', 'M', 'D', 'Z'} then Escaped(t, c)
    else if c == '7' then u.(savedX := u.x, savedY := u.y)
    else if c == '8' then GotoXY(u, u.savedX, u.savedY)
    else u
  }

  /** The source does what is documented exactly when the column says the same as the byte, or
      when the saved position is the present one anyway. */
  lemma SaveRestoreByColumn(t: Term, c: char)
    requires TermOk(t) && c !in {'[', 'E', 'M', 'D', 'Z'}
    ensures Escaped(t, c) == EscapedAsMeant(t, c) <==>
      (t.savedX == t.x && t.savedY == t.y) || ((t.x == 55 <==> c == '7') && (t.x == 56 <==> c == '8'))
  {
    var u := t.(state := 0);
    assert GotoXY(u, u.savedX, u.savedY) == u.(x := u.savedX, y := u.savedY);
  }

  /** ESC 7 at the left margin does not save the position. */
  lemma SaveIgnored(t: Term)
    requires TermOk(t) && t.x == 0 && t.y == 1 && t.savedX == 0 && t.savedY == 0
    ensures Escaped(t, '7').savedY == 0 && EscapedAsMeant(t, '7').savedY == 1
  {
  }
}
