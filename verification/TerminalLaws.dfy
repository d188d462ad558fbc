/**
 What the plain terminal does with whole byte sequences: decimal parameters, cursor motion,
 erasing, opening and closing rows and cells, attributes.  The laws are about the screen after
 the bytes and do not name the functions that Terminal is made of.
 */
module TerminalLaws {
  import opened Terminal

  const ESC: char := '\U{001B}'

  predicate Decimal(s: string) {
    forall i :: 0 <= i < |s| ==> '0' <= s[i] <= '9'
  }

  /** The number a string of digits stands for, 0 when there are none. */
  function Value(s: string): (v: int)
    requires Decimal(s)
    ensures 0 <= v
  {
    if s == "" then 0 else 10 * Value(s[..|s| - 1]) + s[|s| - 1] as int - '0' as int
  }

  /** Parameters separated by semicolons; an empty one counts as 0. */
  function Joined(ps: seq<string>): string {
    if ps == [] then "" else if |ps| == 1 then ps[0] else Joined(ps[..|ps| - 1]) + [';'] + ps[|ps| - 1]
  }

  predicate Parameters(ps: seq<string>) {
    1 <= |ps| <= NPAR && forall i :: 0 <= i < |ps| ==> Decimal(ps[i]) && Value(ps[i]) < W32
  }

  /** The control sequence ESC [ p ; q ; ... c */
  function Csi(ps: seq<string>, c: char): string {
    [ESC, '['] + Joined(ps) + [c]
  }

  predicate Final(c: char) {
    !('0' <= c <= '9') && c != ';' && c != '?'
  }

  /** t between two sequences. */
  function Idle(t: Term): Term {
    t.(npar := 0, par := Zeros())
  }

  function Padded(ps: seq<string>): (p: seq<int>)
    requires Parameters(ps)
    ensures |p| == NPAR && forall i :: 0 <= i < NPAR ==> p[i] == if i < |ps| then Value(ps[i]) else 0
  {
    seq(NPAR, i requires 0 <= i < NPAR => if i < |ps| then Value(ps[i]) else 0)
  }

  // ----- how parameters are read

  lemma StepsMore(t: Term, a: seq<char>, c: char, erase: char)
    requires TermOk(t)
    ensures Steps(t, a + [c], erase) == Step(Steps(t, a, erase), c, erase)
  {
    assert (a + [c])[..|a + [c]| - 1] == a;
  }

  lemma {:induction false} ReadsNumber(t: Term, s: string, erase: char)
    requires TermOk(t) && t.state == 3 && t.par[t.npar] == 0 && Decimal(s) && Value(s) < W32
    ensures Steps(t, s, erase) == t.(par := t.par[t.npar := Value(s)])
    decreases |s|
  {
    hide Control, Normal, Escaped, Zeros;
    if s == "" {
      assert t.par[t.npar := 0] == t.par;
    } else {
      ReadsNumber(t, s[..|s| - 1], erase);
    }
  }

  lemma {:induction false} ReadsList(t: Term, ps: seq<string>, erase: char)
    requires TermOk(t) && t.state == 3 && t.npar == 0 && t.par == Zeros() && Parameters(ps)
    ensures Steps(t, Joined(ps), erase) == t.(npar := |ps| - 1, par := Padded(ps))
    decreases |ps|
  {
    if |ps| == 1 {
      ReadsNumber(t, ps[0], erase);
      assert t.par[0 := Value(ps[0])] == Padded(ps);
    } else {
      var n := |ps| - 1;
      var front, last := Joined(ps[..n]), ps[n];
      ReadsList(t, ps[..n], erase);
      StepsMore(t, front, ';', erase);
      StepsCompose(t, front + [';'], last, erase);
      var u := t.(npar := n, par := Padded(ps[..n]));
      assert Steps(t, front + [';'], erase) == u;
      ReadsNumber(u, last, erase);
      assert u.par[n := Value(last)] == Padded(ps);
    }
  }

  /** The byte after ESC [ already counts as part of the parameters. */
  lemma {:induction false} StartsReading(t: Term, s: seq<char>, erase: char)
    requires TermOk(t) && t.state == 2 && s != [] && s[0] != '?'
    ensures Steps(t, s, erase) == Steps(t.(state := 3, npar := 0, par := Zeros()), s, erase)
    decreases |s|
  {
    var n := |s| - 1;
    if n == 0 {
      assert s[..n] == [];
    } else {
      StartsReading(t, s[..n], erase);
    }
  }

  lemma JoinedFirst(ps: seq<string>, c: char)
    requires Parameters(ps) && Final(c)
    ensures (Joined(ps) + [c])[0] != '?'
    decreases |ps|
  {
    if |ps| > 1 {
      JoinedFirst(ps[..|ps| - 1], c);
      var front := Joined(ps[..|ps| - 1]);
      if front != "" { assert (front + [c])[0] == front[0]; }
    }
  }

  /** A control sequence does what its last byte does with the parameters that were written. */
  lemma Sequence(t: Term, ps: seq<string>, c: char, erase: char)
    requires TermOk(t) && t.state == 0 && Parameters(ps) && Final(c)
    ensures var u := t.(state := 3, npar := |ps| - 1, par := Padded(ps));
      TermOk(u) && Steps(t, Csi(ps, c), erase) == Reset(Control(u, c))
  {
    hide Step, Steps, Control, Value, Joined, Zeros, Parameters;
    var two, three := t.(state := 2), t.(state := 3, npar := 0, par := Zeros());
    var body := Joined(ps) + [c];
    assert Csi(ps, c) == [ESC, '['] + body;
    Introduces(t, erase);
    StepsCompose(t, [ESC, '['], body, erase);
    JoinedFirst(ps, c);
    StartsReading(two, body, erase);
    ReadsList(three, ps, erase);
    StepsMore(three, Joined(ps), c, erase);
    Ends(t.(state := 3, npar := |ps| - 1, par := Padded(ps)), c, erase);
  }

  lemma Introduces(t: Term, erase: char)
    requires TermOk(t) && t.state == 0
    ensures Steps(t, [ESC, '['], erase) == t.(state := 2)
  {
    hide Print, LineFeed, Rubout, Tab, ReverseIndex, GotoXY, Control;
    StepsMore(t, [], ESC, erase);
    StepsMore(t, [ESC], '[', erase);
    assert [] + [ESC] == [ESC] && [ESC] + ['['] == [ESC, '['];
  }

  lemma Ends(u: Term, c: char, erase: char)
    requires TermOk(u) && u.state == 3 && Final(c)
    ensures Step(u, c, erase) == Reset(Control(u, c))
  {
    hide Control;
  }

  // ----- where the cursor goes

  /** Parameter number i, 0 when it is missing. */
  function Param(ps: seq<string>, i: int): (p: int)
    requires Parameters(ps) && 0 <= i
    ensures 0 <= p < W32
  {
    if i < |ps| then Value(ps[i]) else 0
  }

  /** A count that is 0 or missing is 1. */
  function Count(ps: seq<string>): (n: int)
    requires Parameters(ps)
    ensures 1 <= n <= W32
  {
    if Param(ps, 0) == 0 then 1 else Param(ps, 0)
  }

  /** A row or column, counted from 1, as an index. */
  function Index(p: int): int {
    if p == 0 then 0 else p - 1
  }

  /** A cursor sequence does nothing but go to a position, if it is on the screen. */
  lemma Goes(t: Term, ps: seq<string>, c: char, x: int, y: int, erase: char)
    requires TermOk(t) && t.state == 0 && Parameters(ps) && Final(c) && IsCursor(c)
    requires var u := t.(state := 3, npar := |ps| - 1, par := Padded(ps)); x == TargetX(u, c) && y == TargetY(u, c)
    ensures Steps(t, Csi(ps, c), erase) == if 0 <= x <= t.cols && 0 <= y < t.lines then Idle(t).(x := x, y := y) else Idle(t)
  {
    hide Steps, Csi, Joined, Value, EraseDisplay, EraseLine, InsertRows, DeleteRows, InsertCells, DeleteCells, Scroll, Attributes, TargetX, TargetY;
    Sequence(t, ps, c, erase);
  }

  /** ESC [ row ; column H, also with f: to that row and column, if they are on the screen. */
  lemma MovesTo(t: Term, ps: seq<string>, c: char, erase: char)
    requires TermOk(t) && t.state == 0 && Parameters(ps) && c in {'H', 'f'}
    ensures var row, column := Index(Param(ps, 0)), Index(Param(ps, 1));
      Steps(t, Csi(ps, c), erase) == if row < t.lines && column <= t.cols then Idle(t).(x := column, y := row) else Idle(t)
  {
    hide Steps, Csi, Joined, Value;
    Goes(t, ps, c, Index(Param(ps, 1)), Index(Param(ps, 0)), erase);
  }

  /** Differences of 32-bit unsigned numbers that would be negative are far off the screen. */
  lemma OffScreen(z: int, n: int)
    requires 0 <= z < 256 && 1 <= n <= W32 - 256
    ensures (z + n) % W32 == z + n
    ensures (z - n) % W32 == if n <= z then z - n else z - n + W32
  {
  }

  /** ESC [ n A and B: up and down by n, if that stays on the screen. */
  lemma MovesUpDown(t: Term, ps: seq<string>, c: char, erase: char)
    requires TermOk(t) && t.state == 0 && Parameters(ps) && c in {'A', 'B', 'e'} && Count(ps) <= W32 - 256
    ensures var n, u := Count(ps), Steps(t, Csi(ps, c), erase);
      && (c == 'A' ==> u == if n <= t.y then Idle(t).(y := t.y - n) else Idle(t))
      && (c != 'A' ==> u == if t.y + n < t.lines then Idle(t).(y := t.y + n) else Idle(t))
  {
    hide Steps, Csi, Joined, Value;
    var n := Count(ps);
    OffScreen(t.y, n);
    Goes(t, ps, c, t.x, if c != 'A' then t.y + n else if n <= t.y then t.y - n else t.y - n + W32, erase);
  }

  /** ESC [ n C and D: right and left by n, if that stays on the screen. */
  lemma MovesLeftRight(t: Term, ps: seq<string>, c: char, erase: char)
    requires TermOk(t) && t.state == 0 && Parameters(ps) && c in {'C', 'a', 'D'} && Count(ps) <= W32 - 256
    ensures var n, u := Count(ps), Steps(t, Csi(ps, c), erase);
      && (c != 'D' ==> u == if t.x + n <= t.cols then Idle(t).(x := t.x + n) else Idle(t))
      && (c == 'D' ==> u == if n <= t.x then Idle(t).(x := t.x - n) else Idle(t))
  {
    hide Steps, Csi, Joined, Value;
    var n := Count(ps);
    OffScreen(t.x, n);
    Goes(t, ps, c, if c != 'D' then t.x + n else if n <= t.x then t.x - n else t.x - n + W32, t.y, erase);
  }

  /** ESC [ n E and F: to the start of the n-th line below or above, if there is one. */
  lemma MovesToLine(t: Term, ps: seq<string>, c: char, erase: char)
    requires TermOk(t) && t.state == 0 && Parameters(ps) && c in {'E', 'F'} && Count(ps) <= W32 - 256
    ensures var n, u := Count(ps), Steps(t, Csi(ps, c), erase);
      && (c == 'E' ==> u == if t.y + n < t.lines then Idle(t).(x := 0, y := t.y + n) else Idle(t))
      && (c == 'F' ==> u == if n <= t.y then Idle(t).(x := 0, y := t.y - n) else Idle(t))
  {
    hide Steps, Csi, Joined, Value;
    var n := Count(ps);
    OffScreen(t.y, n);
    Goes(t, ps, c, 0, if c == 'E' then t.y + n else if n <= t.y then t.y - n else t.y - n + W32, erase);
  }

  /** ESC [ n G sets the column alone, ESC [ n d the row alone. */
  lemma MovesInLine(t: Term, ps: seq<string>, c: char, erase: char)
    requires TermOk(t) && t.state == 0 && Parameters(ps) && c in {'G', '`', 'd'}
    ensures var p, u := Index(Param(ps, 0)), Steps(t, Csi(ps, c), erase);
      && (c != 'd' ==> u == if p <= t.cols then Idle(t).(x := p) else Idle(t))
      && (c == 'd' ==> u == if p < t.lines then Idle(t).(y := p) else Idle(t))
  {
    hide Steps, Csi, Joined, Value;
    var p := Index(Param(ps, 0));
    Goes(t, ps, c, if c == 'd' then t.x else p, if c == 'd' then p else t.y, erase);
  }

  /** ESC [ s and ESC [ u: the cursor comes back to where it was saved, wherever it went meanwhile. */
  lemma SavesCursor(t: Term, ps: seq<string>, qs: seq<string>, x: int, y: int, erase: char)
    requires TermOk(t) && t.state == 0 && Parameters(ps) && Parameters(qs) && 0 <= x <= t.cols && 0 <= y < t.lines
    ensures Steps(t, Csi(ps, 's'), erase) == Idle(t).(savedX := t.x, savedY := t.y)
    ensures Steps(Idle(t).(savedX := t.x, savedY := t.y, x := x, y := y), Csi(qs, 'u'), erase) == Idle(t).(savedX := t.x, savedY := t.y)
  {
    hide Steps, Csi, Joined, Value, EraseDisplay, EraseLine, InsertRows, DeleteRows, InsertCells, DeleteCells, Scroll, Attributes;
    Sequence(t, ps, 's', erase);
    Sequence(Idle(t).(savedX := t.x, savedY := t.y, x := x, y := y), qs, 'u', erase);
  }

  /** ESC [ first ; last r: the region from line first to line last, if there is such a region. */
  lemma SetsRegion(t: Term, ps: seq<string>, erase: char)
    requires TermOk(t) && t.state == 0 && Parameters(ps)
    ensures var first, last := Index(Param(ps, 0)), if Param(ps, 1) == 0 then t.lines else Param(ps, 1);
      Steps(t, Csi(ps, 'r'), erase) == if first < last <= t.lines then Idle(t).(top := first, bottom := last) else Idle(t)
  {
    hide Steps, Csi, Joined, Value, EraseDisplay, EraseLine, InsertRows, DeleteRows, InsertCells, DeleteCells, Attributes, GotoXY, TargetX, TargetY;
    Sequence(t, ps, 'r', erase);
  }

  // ----- what becomes of the cells

  /** u is t but for the grid. */
  predicate GridOnly(t: Term, u: Term) {
    u == Idle(t).(grid := u.grid) && GridOk(u.grid, t.lines, t.cols)
  }

  /** ESC [ J blanks from the cursor on, ESC [ 1 J all before the cursor, ESC [ 2 J everything. */
  lemma ErasesDisplay(t: Term, ps: seq<string>, erase: char)
    requires TermOk(t) && t.state == 0 && Parameters(ps)
    ensures var p, u := Param(ps, 0), Steps(t, Csi(ps, 'J'), erase);
      && GridOnly(t, u)
      && forall r, c :: 0 <= r < t.lines && 0 <= c < t.cols ==>
           var before := r < t.y || (r == t.y && c < t.x);
           u.grid[r][c] == if (p == 0 && !before) || (p == 1 && before) || p == 2 then BLANK else t.grid[r][c]
  {
    hide Steps, Csi, Joined, Value, EraseLine, InsertRows, DeleteRows, InsertCells, DeleteCells, Scroll, Attributes, GotoXY, TargetX, TargetY;
    Sequence(t, ps, 'J', erase);
  }

  /** ESC [ K, ESC [ 1 K and ESC [ 2 K do the same within the line. */
  lemma ErasesLine(t: Term, ps: seq<string>, erase: char)
    requires TermOk(t) && t.state == 0 && Parameters(ps)
    ensures var p, u := Param(ps, 0), Steps(t, Csi(ps, 'K'), erase);
      && GridOnly(t, u)
      && forall r, c :: 0 <= r < t.lines && 0 <= c < t.cols ==>
           u.grid[r][c] == if r == t.y && ((p == 0 && c >= t.x) || (p == 1 && c < t.x) || p == 2) then BLANK else t.grid[r][c]
  {
    hide Steps, Csi, Joined, Value, EraseDisplay, InsertRows, DeleteRows, InsertCells, DeleteCells, Scroll, Attributes, GotoXY, TargetX, TargetY;
    Sequence(t, ps, 'K', erase);
  }

  /** ESC [ n L: n blank lines at the cursor's line, the lines below go down and off the screen. */
  lemma OpensLines(t: Term, ps: seq<string>, erase: char)
    requires TermOk(t) && t.state == 0 && Parameters(ps)
    ensures var u, k := Steps(t, Csi(ps, 'L'), erase), Min(Count(ps), t.lines - t.y);
      && GridOnly(t, u)
      && forall r, c :: 0 <= r < t.lines && 0 <= c < t.cols ==>
           u.grid[r][c] == if r < t.y then t.grid[r][c] else if r < t.y + k then BLANK else t.grid[r - k][c]
  {
    hide Steps, Csi, Joined, Value, EraseDisplay, EraseLine, DeleteRows, InsertCells, DeleteCells, Scroll, Attributes, GotoXY, TargetX, TargetY;
    Sequence(t, ps, 'L', erase);
  }

  /** ESC [ n M: n lines are taken out at the cursor's line, the lines below come up. */
  lemma ClosesLines(t: Term, ps: seq<string>, erase: char)
    requires TermOk(t) && t.state == 0 && Parameters(ps)
    ensures var u, k := Steps(t, Csi(ps, 'M'), erase), Min(Count(ps), t.lines - t.y);
      && GridOnly(t, u)
      && forall r, c :: 0 <= r < t.lines && 0 <= c < t.cols ==>
           u.grid[r][c] == if r < t.y then t.grid[r][c] else if r + k < t.lines then t.grid[r + k][c] else BLANK
  {
    hide Steps, Csi, Joined, Value, EraseDisplay, EraseLine, InsertRows, InsertCells, DeleteCells, Scroll, Attributes, GotoXY, TargetX, TargetY;
    Sequence(t, ps, 'M', erase);
  }

  /** ESC [ n @: n blank cells at the cursor, the rest of the line goes right. */
  lemma OpensCells(t: Term, ps: seq<string>, erase: char)
    requires TermOk(t) && t.state == 0 && Parameters(ps)
    ensures var u, k := Steps(t, Csi(ps, '@'), erase), Min(Count(ps), t.cols - t.x);
      && GridOnly(t, u)
      && forall r, c :: 0 <= r < t.lines && 0 <= c < t.cols ==>
           u.grid[r][c] == if r != t.y || c < t.x then t.grid[r][c] else if c < t.x + k then BLANK else t.grid[r][c - k]
  {
    hide Steps, Csi, Joined, Value, EraseDisplay, EraseLine, InsertRows, DeleteRows, DeleteCells, Scroll, Attributes, GotoXY, TargetX, TargetY;
    Sequence(t, ps, '@', erase);
  }

  /** ESC [ n P: n cells are taken out at the cursor, the rest of the line comes left. */
  lemma ClosesCells(t: Term, ps: seq<string>, erase: char)
    requires TermOk(t) && t.state == 0 && Parameters(ps)
    ensures var u, k := Steps(t, Csi(ps, 'P'), erase), Min(Count(ps), t.cols - t.x);
      && GridOnly(t, u)
      && forall r, c :: 0 <= r < t.lines && 0 <= c < t.cols ==>
           u.grid[r][c] == if r != t.y || c < t.x then t.grid[r][c] else if c + k < t.cols then t.grid[r][c + k] else BLANK
  {
    hide Steps, Csi, Joined, Value, EraseDisplay, EraseLine, InsertRows, DeleteRows, InsertCells, Scroll, Attributes, GotoXY, TargetX, TargetY;
    Sequence(t, ps, 'P', erase);
  }

  // ----- attributes

  /** 0 normal, 1 bold, 4 underlined, 7 reverse, 27 not reverse; the rest says nothing. */
  predicate Known(p: int) {
    p == 0 || p == 1 || p == 4 || p == 7 || p == 27
  }

  lemma {:induction false} LastKnown(attr: int, par: seq<int>, n: int, k: int)
    requires 0 <= k < n <= |par| && 0 <= attr < 256 && Known(par[k]) && forall j :: k < j < n ==> !Known(par[j])
    ensures Attributes(attr, par, n) == if par[k] == 7 then 0x70 else if par[k] == 1 || par[k] == 4 then 0x0f else 0x07
  {
    if k < n - 1 { LastKnown(attr, par, n - 1, k); }
  }

  lemma {:induction false} NoneKnown(attr: int, par: seq<int>, n: int)
    requires 0 <= n <= |par| && 0 <= attr < 256 && forall j :: 0 <= j < n ==> !Known(par[j])
    ensures Attributes(attr, par, n) == attr
  {
    if n > 0 { NoneKnown(attr, par, n - 1); }
  }

  /** ESC [ ... m: the last known parameter decides what the next character looks like. */
  lemma SetsAttribute(t: Term, ps: seq<string>, k: int, erase: char)
    requires TermOk(t) && t.state == 0 && Parameters(ps)
    requires -1 <= k < |ps| && (k >= 0 ==> Known(Value(ps[k]))) && forall j :: k < j < |ps| ==> !Known(Value(ps[j]))
    ensures Steps(t, Csi(ps, 'm'), erase) ==
      Idle(t).(attr := if k == -1 then t.attr else if Value(ps[k]) == 7 then 0x70 else if Value(ps[k]) in {1, 4} then 0x0f else 0x07)
  {
    hide Steps, Csi, Joined, Value, EraseDisplay, EraseLine, InsertRows, DeleteRows, InsertCells, DeleteCells, Scroll, Attributes, GotoXY, TargetX, TargetY;
    Sequence(t, ps, 'm', erase);
    if k == -1 { NoneKnown(t.attr, Padded(ps), |ps|); } else { LastKnown(t.attr, Padded(ps), |ps|, k); }
  }

  // ----- single bytes

  /** A printable byte is shown at the cursor with the attribute in force. */
  lemma ShowsByte(t: Term, c: char, erase: char)
    requires TermOk(t) && t.state == 0 && ' ' <= c <= '~' && t.x < t.cols
    ensures var u := Steps(t, [c], erase);
      && u == t.(x := t.x + 1, grid := u.grid) && GridOk(u.grid, t.lines, t.cols)
      && forall r, q :: 0 <= r < t.lines && 0 <= q < t.cols ==>
           u.grid[r][q] == if r == t.y && q == t.x then t.attr * 256 + c as int else t.grid[r][q]
  {
    StepsMore(t, [], c, erase);
    assert [] + [c] == [c];
  }

  /** Behind the last column it is shown at the start of the next line instead. */
  lemma WrapsByte(t: Term, c: char, erase: char)
    requires TermOk(t) && t.state == 0 && ' ' <= c <= '~' && t.x == t.cols
    ensures TermOk(t.(x := 0))
    ensures Steps(t, [c], erase) == Steps(t.(x := 0), ['\n', c], erase)
  {
    StepsMore(t, [], c, erase);
    StepsMore(t.(x := 0), ['\n'], c, erase);
    StepsMore(t.(x := 0), [], '\n', erase);
    assert [] + [c] == [c] && [] + ['\n'] == ['\n'] && ['\n'] + [c] == ['\n', c];
  }

  /** Down one line, or the region scrolls up at its last line. */
  lemma FeedsLine(t: Term, erase: char)
    requires TermOk(t) && t.state == 0
    ensures var u := Steps(t, ['\n'], erase);
      if t.y + 1 < t.bottom then u == t.(y := t.y + 1)
      else
        && u == t.(grid := u.grid) && GridOk(u.grid, t.lines, t.cols)
        && forall r, c :: 0 <= r < t.lines && 0 <= c < t.cols ==>
             u.grid[r][c] == if r < t.top || t.bottom <= r then t.grid[r][c] else if r + 1 < t.bottom then t.grid[r + 1][c] else BLANK
  {
    StepsMore(t, [], '\n', erase);
    assert [] + ['\n'] == ['\n'];
  }

  /** ESC M: up one line, or the region scrolls down at its first line. */
  lemma FeedsBack(t: Term, erase: char)
    requires TermOk(t) && t.state == 0
    ensures var u := Steps(t, [ESC, 'M'], erase);
      if t.y > t.top then u == t.(y := t.y - 1)
      else
        && u == t.(grid := u.grid) && GridOk(u.grid, t.lines, t.cols)
        && forall r, c :: 0 <= r < t.lines && 0 <= c < t.cols ==>
             u.grid[r][c] == if r < t.top || t.bottom <= r then t.grid[r][c] else if r > t.top then t.grid[r - 1][c] else BLANK
  {
    StepsMore(t, [], ESC, erase);
    StepsMore(t, [ESC], 'M', erase);
    assert [] + [ESC] == [ESC] && [ESC] + ['M'] == [ESC, 'M'];
  }

  /** ESC D is a line feed, ESC E goes to the start of the next line, if there is one. */
  lemma GoesDown(t: Term, erase: char)
    requires TermOk(t) && t.state == 0
    ensures Steps(t, [ESC, 'D'], erase) == Steps(t, ['\n'], erase)
    ensures Steps(t, [ESC, 'E'], erase) == if t.y + 1 < t.lines then t.(x := 0, y := t.y + 1) else t
  {
    StepsMore(t, [], ESC, erase);
    StepsMore(t, [ESC], 'D', erase);
    StepsMore(t, [ESC], 'E', erase);
    StepsMore(t, [], '\n', erase);
    assert [] + [ESC] == [ESC] && [ESC] + ['D'] == [ESC, 'D'] && [ESC] + ['E'] == [ESC, 'E'] && [] + ['\n'] == ['\n'];
  }

  /** Carriage return, backspace and tabulator. */
  lemma MovesInRow(t: Term, erase: char)
    requires TermOk(t) && t.state == 0 && 31 < erase as int < 128
    ensures Steps(t, ['\r'], erase) == t.(x := 0)
    ensures Steps(t, ['\U{0008}'], erase) == if t.x > 0 then t.(x := t.x - 1) else t
    ensures var u := Steps(t, ['\t'], erase);
      t.x + 8 - t.x % 8 <= t.cols ==> u == t.(x := u.x) && u.x % 8 == 0 && t.x < u.x <= t.x + 8
  {
    StepsMore(t, [], '\r', erase);
    StepsMore(t, [], '\U{0008}', erase);
    StepsMore(t, [], '\t', erase);
    assert [] + ['\r'] == ['\r'] && [] + ['\U{0008}'] == ['\U{0008}'] && [] + ['\t'] == ['\t'];
  }

  /** The erase character takes back the character before the cursor. */
  lemma RubsOut(t: Term, erase: char)
    requires TermOk(t) && t.state == 0 && erase as int == 127
    ensures var u := Steps(t, [erase], erase);
      if t.x == 0 then u == t
      else
        && u == t.(x := t.x - 1, grid := u.grid) && GridOk(u.grid, t.lines, t.cols)
        && forall r, c :: 0 <= r < t.lines && 0 <= c < t.cols ==>
             u.grid[r][c] == if r == t.y && c == t.x - 1 then BLANK else t.grid[r][c]
  {
    StepsMore(t, [], erase, erase);
    assert [] + [erase] == [erase];
  }

  /** What was typed and rubbed out is gone: the cursor is back and the cell is blank. */
  lemma TypedAndRubbedOut(t: Term, c: char, erase: char)
    requires TermOk(t) && t.state == 0 && ' ' <= c <= '~' && t.x < t.cols && erase as int == 127
    ensures var u := Steps(t, [c, erase], erase);
      && u == t.(grid := u.grid) && GridOk(u.grid, t.lines, t.cols)
      && forall r, q :: 0 <= r < t.lines && 0 <= q < t.cols ==> u.grid[r][q] == if r == t.y && q == t.x then BLANK else t.grid[r][q]
  {
    hide Steps;
    ShowsByte(t, c, erase);
    RubsOut(Steps(t, [c], erase), erase);
    StepsCompose(t, [c], [erase], erase);
    assert [c] + [erase] == [c, erase];
  }
}
