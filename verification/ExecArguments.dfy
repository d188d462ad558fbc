/**
 How execve hands over arguments and environment: copy_strings fills the top of the argument
 pages backwards, change_ldt puts those pages at the end of the data segment, and create_tables
 builds the pointer tables under them (fs/exec.c).
 */
module ExecArguments {

  const PAGE_SIZE: int := 4096
  const MAX_ARG_PAGES: int := 32
  const SPACE: int := 131072                 // MAX_ARG_PAGES * PAGE_SIZE
  const DATA_LIMIT: int := 0x4000000

  type Str = seq<int>                        // without its final zero

  ghost predicate StringsOk(strings: seq<Str>) {
    forall i, k :: 0 <= i < |strings| && 0 <= k < |strings[i]| ==> 0 < strings[i][k] < 256
  }

  /** The strings one after the other, each with its zero. */
  function Encoded(strings: seq<Str>): seq<int> {
    if strings == [] then [] else strings[0] + [0] + Encoded(strings[1..])
  }

  lemma {:induction false} EncodedLast(strings: seq<Str>, n: int)
    requires 0 < n <= |strings|
    ensures Encoded(strings[n - 1..]) == strings[n - 1] + [0] + Encoded(strings[n..])
  {
    assert strings[n - 1..][1..] == strings[n..];
  }

  // ----- the argument pages

  /** page[i] is [] while it has not been allocated. */
  ghost predicate PagesOk(page: seq<seq<int>>)
    ensures PagesOk(page) ==> |page| == MAX_ARG_PAGES
  {
    |page| == MAX_ARG_PAGES && forall i :: 0 <= i < MAX_ARG_PAGES ==> page[i] == [] || |page[i]| == PAGE_SIZE
  }

  predicate Byte(page: seq<seq<int>>, a: int, b: int)
    requires |page| == MAX_ARG_PAGES
  {
    0 <= a < SPACE && a % PAGE_SIZE < |page[a / PAGE_SIZE]| && page[a / PAGE_SIZE][a % PAGE_SIZE] == b
  }

  /** The bytes from p on are data. */
  ghost predicate Holds(page: seq<seq<int>>, p: int, data: seq<int>)
    requires |page| == MAX_ARG_PAGES
  {
    forall k :: 0 <= k < |data| ==> Byte(page, p + k, data[k])
  }

  /** How many pages the last n bytes below SPACE - 4 lie in. */
  function PagesFor(n: int): int {
    if n <= 0 then 0 else MAX_ARG_PAGES - (SPACE - 4 - n) / PAGE_SIZE
  }

  lemma PagesForMonotone(n: int, m: int)
    requires n <= m <= SPACE - 4
    ensures PagesFor(n) <= PagesFor(m)
  {
  }

  /** Exactly the pages that bytes have been put in are allocated. */
  ghost predicate Allocated(page: seq<seq<int>>, p: int)
    requires |page| == MAX_ARG_PAGES
  {
    forall i :: 0 <= i < MAX_ARG_PAGES ==> (page[i] != [] <==> MAX_ARG_PAGES - PagesFor(SPACE - 4 - p) <= i)
  }

  class ArgSpace {
    var page: seq<seq<int>>
    var free: nat                            // pages get_free_page can still give

    constructor (free: nat)
      ensures this.free == free && page == seq(MAX_ARG_PAGES, _ => [])
    {
      page := seq(MAX_ARG_PAGES, _ => []);
      this.free := free;
    }

    /** The innermost step of copy_strings: one byte goes below p.  offset and pag cache the place
        of p in its page; get_free_page is called when a page is entered for the first time. */
    method StoreByte(p: int, offset0: int, pag0: int, c: int, ghost data: seq<int>) returns (ok: bool, offset: int, pag: int)
      requires PagesOk(page) && 0 < p <= SPACE - 4 && |data| == SPACE - 4 - p && Holds(page, p, data) && Allocated(page, p)
      requires Cursor(page, p, offset0, pag0)
      modifies this
      ensures PagesOk(page)
      ensures ok ==> Holds(page, p - 1, [c] + data) && Allocated(page, p - 1) && Cursor(page, p - 1, offset, pag)
      ensures ok ==> free == old(free) - (PagesFor(SPACE - 4 - (p - 1)) - PagesFor(SPACE - 4 - p))
      ensures !ok ==> unchanged(this) && free == 0 && PagesFor(SPACE - 4 - (p - 1)) == PagesFor(SPACE - 4 - p) + 1
    {
      ghost var before := page;
      var q := p - 1;
      offset, pag, ok := offset0 - 1, pag0, true;
      if offset < 0 {
        offset := q % PAGE_SIZE;
        pag := q / PAGE_SIZE;
        if page[pag] == [] {
          NewPage(page, p);
          if free == 0 { return false, offset, pag; }
          free := free - 1;
          page := page[pag := seq(PAGE_SIZE, _ => 0)];
        }
      }
      CursorMoves(before, p, q, offset, pag);
      page := page[pag := page[pag][offset := c]];
      HoldsMore(before, page, p, c, data);
      AllocatedMore(before, page, p);
    }

    /** one string with its zero, from its last byte down */
    method CopyString(tmp: seq<int>, p0: int, offset0: int, pag0: int, ghost above: seq<int>) returns (ok: bool, p: int, offset: int, pag: int)
      requires PagesOk(page) && |tmp| <= p0 <= SPACE - 4 && |above| == SPACE - 4 - p0 && Holds(page, p0, above) && Allocated(page, p0)
      requires Cursor(page, p0, offset0, pag0)
      modifies this
      ensures PagesOk(page) && p0 - |tmp| <= p <= p0 && Allocated(page, p) && (ok <==> p == p0 - |tmp|)
      ensures ok ==> Holds(page, p, tmp + above) && Cursor(page, p, offset, pag)
      ensures free == old(free) - (PagesFor(SPACE - 4 - p) - PagesFor(SPACE - 4 - p0))
      ensures !ok ==> free == 0 && PagesFor(SPACE - 4 - (p - 1)) == PagesFor(SPACE - 4 - p) + 1
    {
      hide Holds, Allocated, Cursor, PagesFor, PagesOk;
      var len := |tmp|;
      p, offset, pag := p0, offset0, pag0;
      assert tmp[len..] + above == above;
      while len > 0
        invariant 0 <= len <= |tmp| && p == p0 - (|tmp| - len) && PagesOk(page)
        invariant Holds(page, p, tmp[len..] + above) && Allocated(page, p) && Cursor(page, p, offset, pag)
        invariant free == old(free) - (PagesFor(SPACE - 4 - p) - PagesFor(SPACE - 4 - p0))
      {
        len := len - 1;
        ok, offset, pag := StoreByte(p, offset, pag, tmp[len], tmp[len + 1..] + above);
        if !ok { return; }
        p := p - 1;
        assert [tmp[len]] + (tmp[len + 1..] + above) == tmp[len..] + above;
      }
      assert tmp[0..] == tmp;
      ok := true;
    }

    /** copy_strings: below what is there already come the strings, last one last.  The answer 0
        means that the pages ran out or that the space is full to the last byte. */
    method CopyStrings(argc: int, argv: seq<Str>, p0: int, ghost data: seq<int>) returns (p: int)
      requires argc == |argv| && PagesOk(page) && 0 <= p0 <= SPACE - 4
      requires p0 > 0 ==> |data| == SPACE - 4 - p0 && |Encoded(argv)| <= p0 && Holds(page, p0, data) && Allocated(page, p0)
      modifies this
      ensures PagesOk(page) && (p0 == 0 ==> p == 0 && unchanged(this)) && 0 <= p
      ensures p != 0 ==> p == p0 - |Encoded(argv)| && Holds(page, p, Encoded(argv) + data) && Allocated(page, p)
      ensures p != 0 ==> free == old(free) - (PagesFor(SPACE - 4 - p) - PagesFor(SPACE - 4 - p0))
      ensures p == 0 && p0 > 0 ==> p0 == |Encoded(argv)| || old(free) < PagesFor(SPACE - 4 - p0 + |Encoded(argv)|) - PagesFor(SPACE - 4 - p0)
      ensures p == 0 && p0 > 0 ==> exists q :: 0 <= q <= p0 && Allocated(page, q) && free == old(free) - (PagesFor(SPACE - 4 - q) - PagesFor(SPACE - 4 - p0))
    {
      hide Holds, Allocated, Cursor, PagesFor, PagesOk, Encoded;
      p := p0;
      if p == 0 { return 0; }
      var i, offset, pag := argc, 0, 0;
      ghost var done := data;
      CursorStart(page, p);
      EncodedNone(argv);
      while i > 0
        invariant 0 <= i <= argc && PagesOk(page) && 0 <= p <= p0 && p == p0 - |Encoded(argv[i..])|
        invariant done == Encoded(argv[i..]) + data && Holds(page, p, done) && Allocated(page, p) && Cursor(page, p, offset, pag)
        invariant free == old(free) - (PagesFor(SPACE - 4 - p) - PagesFor(SPACE - 4 - p0))
      {
        i := i - 1;
        EncodedLast(argv, i + 1);
        EncodedSuffix(argv, i);
        ghost var above, used := done, PagesFor(SPACE - 4 - p);
        var ok;
        ok, p, offset, pag := CopyString(argv[i] + [0], p, offset, pag, done);
        done := argv[i] + [0] + above;
        if !ok {
          PagesForMonotone(SPACE - 4 - (p - 1), SPACE - 4 - p0 + |Encoded(argv)|);
          assert Allocated(page, p);
          return 0;
        }
        assert done == Encoded(argv[i..]) + data;
      }
      assert argv[0..] == argv;
      assert Allocated(page, p);
    }

    /** the loop at exec_error1 */
    method FreePages(ghost q: int)
      requires PagesOk(page) && Allocated(page, q) && 0 <= q <= SPACE - 4
      modifies `free
      ensures free == old(free) + PagesFor(SPACE - 4 - q)
    {
      ghost var lowest := MAX_ARG_PAGES - PagesFor(SPACE - 4 - q);
      var i := 0;
      while i < MAX_ARG_PAGES
        invariant 0 <= i <= MAX_ARG_PAGES && free == old(free) + if i <= lowest then 0 else i - lowest
      {
        if page[i] != [] { free := free + 1; }
        i := i + 1;
      }
    }
  }

  /** The cached place of p: no place yet, or the offset of p in its page. */
  ghost predicate Cursor(page: seq<seq<int>>, p: int, offset: int, pag: int)
    requires |page| == MAX_ARG_PAGES
  {
    offset == 0 || (offset == p % PAGE_SIZE && pag == p / PAGE_SIZE && 0 <= pag < MAX_ARG_PAGES && page[pag] != [])
  }

  lemma CursorStart(page: seq<seq<int>>, p: int)
    requires |page| == MAX_ARG_PAGES
    ensures Cursor(page, p, 0, 0)
  {
  }

  lemma EncodedNone(argv: seq<Str>)
    ensures Encoded(argv[|argv|..]) == []
  {
  }

  lemma {:induction false} EncodedSuffix(argv: seq<Str>, i: int)
    requires 0 <= i <= |argv|
    ensures |Encoded(argv[i..])| <= |Encoded(argv)|
    decreases i
  {
    if i == 0 { assert argv[0..] == argv; } else { EncodedLast(argv, i); EncodedSuffix(argv, i - 1); }
  }

  lemma NewPage(page: seq<seq<int>>, p: int)
    requires |page| == MAX_ARG_PAGES && 0 < p <= SPACE - 4 && Allocated(page, p) && page[(p - 1) / PAGE_SIZE] == []
    ensures PagesFor(SPACE - 4 - (p - 1)) == PagesFor(SPACE - 4 - p) + 1
  {
  }

  lemma CursorMoves(page: seq<seq<int>>, p: int, q: int, offset: int, pag: int)
    requires 0 < p <= SPACE - 4 && q == p - 1
    requires (offset == q % PAGE_SIZE && pag == q / PAGE_SIZE) || (offset >= 0 && offset + 1 == p % PAGE_SIZE && pag == p / PAGE_SIZE)
    ensures 0 <= offset < PAGE_SIZE && 0 <= pag < MAX_ARG_PAGES && offset == q % PAGE_SIZE && pag == q / PAGE_SIZE
  {
  }

  /** page after one byte was put below p, in a new page perhaps */
  ghost predicate Stored(before: seq<seq<int>>, page: seq<seq<int>>, p: int, c: int) {
    && |page| == |before| == MAX_ARG_PAGES && 0 < p <= SPACE
    && Byte(page, p - 1, c)
    && (forall i :: 0 <= i < MAX_ARG_PAGES && i != (p - 1) / PAGE_SIZE ==> page[i] == before[i])
    && (before[(p - 1) / PAGE_SIZE] != [] ==> SameBut(before[(p - 1) / PAGE_SIZE], page[(p - 1) / PAGE_SIZE], (p - 1) % PAGE_SIZE))
  }

  ghost predicate SameBut(s: seq<int>, t: seq<int>, n: int) {
    |t| == |s| && forall k :: 0 <= k < |s| && k != n ==> t[k] == s[k]
  }

  lemma HoldsMore(before: seq<seq<int>>, page: seq<seq<int>>, p: int, c: int, data: seq<int>)
    requires Stored(before, page, p, c) && Holds(before, p, data)
    ensures Holds(page, p - 1, [c] + data)
  {
    forall k | 0 <= k < |data| + 1 ensures Byte(page, p - 1 + k, ([c] + data)[k]) {
      if k > 0 {
        assert Byte(before, p + (k - 1), data[k - 1]);
      }
    }
  }

  lemma AllocatedMore(before: seq<seq<int>>, page: seq<seq<int>>, p: int)
    requires |before| == |page| == MAX_ARG_PAGES && 0 < p <= SPACE - 4 && Allocated(before, p)
    requires page[(p - 1) / PAGE_SIZE] != [] && forall i :: 0 <= i < MAX_ARG_PAGES && i != (p - 1) / PAGE_SIZE ==> page[i] == before[i]
    ensures Allocated(page, p - 1)
    ensures before[(p - 1) / PAGE_SIZE] != [] ==> PagesFor(SPACE - 4 - (p - 1)) == PagesFor(SPACE - 4 - p)
  {
  }

  // ----- the new data segment

  const BASE: int := 0x3fe_0000              // DATA_LIMIT - SPACE
  const W32: int := 0x1_0000_0000

  /** A 32-bit number, least significant byte first. */
  ghost predicate LongAt(m: seq<int>, a: int, v: int) {
    0 <= a && a + 4 <= |m| && v == m[a] + 0x100 * m[a + 1] + 0x1_0000 * m[a + 2] + 0x100_0000 * m[a + 3]
  }

  /** The bytes of s and a zero. */
  ghost predicate StringAt(m: seq<int>, a: int, s: Str) {
    0 <= a && a + |s| < |m| && (forall k :: 0 <= k < |s| ==> m[a + k] == s[k]) && m[a + |s|] == 0
  }

  ghost predicate BytesAt(m: seq<int>, a: int, data: seq<int>)
    ensures BytesAt(m, a, data) ==> 0 <= a && a + |data| <= |m|
  {
    0 <= a && a + |data| <= |m| && forall k :: 0 <= k < |data| ==> m[a + k] == data[k]
  }

  /** A table of pointers to the strings in order, and NULL behind them. */
  ghost predicate TableAt(m: seq<int>, a: int, strings: seq<Str>, at: int) {
    && (forall i :: 0 <= i < |strings| ==> EntryAt(m, a, strings, at, i))
    && LongAt(m, a + 4 * |strings|, 0)
  }

  ghost predicate EntryAt(m: seq<int>, a: int, strings: seq<Str>, at: int, i: int)
    requires 0 <= i < |strings|
  {
    LongAt(m, a + 4 * i, at + |Encoded(strings[..i])|) && StringAt(m, at + |Encoded(strings[..i])|, strings[i])
  }

  lemma {:induction false} EncodedConcat(a: seq<Str>, b: seq<Str>)
    ensures Encoded(a + b) == Encoded(a) + Encoded(b)
  {
    if a == [] {
      assert a + b == b;
    } else {
      assert (a + b)[1..] == a[1..] + b;
      EncodedConcat(a[1..], b);
    }
  }

  lemma FourBytes(v: int)
    requires 0 <= v
    ensures v == v % 0x100 + 0x100 * (v / 0x100 % 0x100) + 0x1_0000 * (v / 0x1_0000 % 0x100) + 0x100_0000 * (v / 0x100_0000)
  {
    var a := v / 0x100;
    assert a / 0x100 == v / 0x1_0000;
    var b := v / 0x1_0000;
    assert b / 0x100 == v / 0x100_0000;
  }

  lemma EncodedOne(s: Str)
    ensures Encoded([s]) == s + [0]
  {
    assert [s][1..] == [];
    assert Encoded([s]) == s + [0] + Encoded([]);
  }

  lemma EncodedNext(s: seq<Str>, i: int)
    requires 0 <= i < |s|
    ensures Encoded(s[..i + 1]) == Encoded(s[..i]) + s[i] + [0]
    ensures Encoded(s) == Encoded(s[..i]) + s[i] + [0] + Encoded(s[i + 1..])
  {
    hide Encoded;
    SplitAt(s, i);
    EncodedParts(s[..i], s[i], s[i + 1..], s[..i + 1], s);
  }

  lemma SplitAt(s: seq<Str>, i: int)
    requires 0 <= i < |s|
    ensures s[..i + 1] == s[..i] + [s[i]] && s == s[..i + 1] + s[i + 1..]
  {
  }

  lemma EncodedParts(a: seq<Str>, x: Str, b: seq<Str>, front: seq<Str>, s: seq<Str>)
    requires front == a + [x] && s == front + b
    ensures Encoded(front) == Encoded(a) + x + [0] && Encoded(s) == Encoded(a) + x + [0] + Encoded(b)
  {
    hide Encoded;
    EncodedMore(a, x);
    EncodedConcat(front, b);
  }

  lemma EncodedMore(s: seq<Str>, x: Str)
    ensures Encoded(s + [x]) == Encoded(s) + x + [0]
  {
    hide Encoded;
    EncodedConcat(s, [x]);
    EncodedOne(x);
    Regroup(Encoded(s), x, [0]);
  }

  lemma Regroup(a: seq<int>, b: seq<int>, c: seq<int>)
    ensures a + (b + c) == a + b + c
  {
  }

  /** Reading a string stops behind its zero and nowhere before. */
  lemma StringInside(m: seq<int>, at: int, s: seq<Str>, i: int)
    requires BytesAt(m, at, Encoded(s)) && 0 <= i < |s|
    ensures StringAt(m, at + |Encoded(s[..i])|, s[i])
    ensures |Encoded(s[..i + 1])| == |Encoded(s[..i])| + |s[i]| + 1 <= |Encoded(s)|
  {
    EncodedNext(s, i);
    var n, e := |Encoded(s[..i])|, Encoded(s);
    forall k | 0 <= k < |s[i]| ensures m[at + n + k] == s[i][k] {
      assert e[n + k] == s[i][k];
      assert m[at + (n + k)] == e[n + k];
    }
    assert e[n + |s[i]|] == 0;
    assert m[at + (n + |s[i]|)] == e[n + |s[i]|];
  }

  ghost predicate SameOutside(m: seq<int>, n: seq<int>, lo: int, hi: int) {
    |n| == |m| && forall k :: 0 <= k < |m| && !(lo <= k < hi) ==> n[k] == m[k]
  }

  class Image {
    const mem: array<int>

    constructor ()
      ensures fresh(mem) && mem.Length == DATA_LIMIT
    {
      mem := new int[DATA_LIMIT];
    }

    /** change_ldt: the argument pages go to the end of the data segment. */
    method PutPages(page: seq<seq<int>>, ghost p: int, ghost data: seq<int>)
      requires mem.Length == DATA_LIMIT && PagesOk(page) && 0 <= p && p + |data| <= SPACE && Holds(page, p, data)
      modifies mem
      ensures BytesAt(mem[..], BASE + p, data)
    {
      hide Holds;
      var i, dataBase := MAX_ARG_PAGES, DATA_LIMIT;
      while i > 0
        invariant 0 <= i <= MAX_ARG_PAGES && dataBase == BASE + i * PAGE_SIZE
        invariant forall j :: i <= j < MAX_ARG_PAGES ==> Placed(mem[..], page[j], j)
      {
        i := i - 1;
        dataBase := dataBase - PAGE_SIZE;
        if page[i] != [] {
          ghost var before := mem[..];
          forall k | 0 <= k < PAGE_SIZE { mem[dataBase + k] := page[i][k]; }
          forall j | i < j < MAX_ARG_PAGES ensures Placed(mem[..], page[j], j) { assert Placed(before, page[j], j); }
        }
      }
      PlacedBytes(mem[..], page, p, data);
    }

    method PutLong(v: int, a: int)
      requires 0 <= a && a + 4 <= mem.Length && 0 <= v < W32
      modifies mem
      ensures LongAt(mem[..], a, v) && SameOutside(old(mem[..]), mem[..], a, a + 4)
    {
      FourBytes(v);
      mem[a] := v % 0x100;
      mem[a + 1] := v / 0x100 % 0x100;
      mem[a + 2] := v / 0x1_0000 % 0x100;
      mem[a + 3] := v / 0x100_0000;
    }

    /** "while (get_fs_byte(p++))" */
    method Skip(p: int, ghost s: Str) returns (q: int)
      requires StringAt(mem[..], p, s) && forall k :: 0 <= k < |s| ==> s[k] != 0
      ensures q == p + |s| + 1
    {
      forall k | p <= k < p + |s| ensures mem[k] != 0 { assert mem[..][p + (k - p)] == s[k - p]; }
      q := p;
      while mem[q] != 0
        invariant p <= q <= p + |s|
        decreases p + |s| - q
      {
        q := q + 1;
      }
      q := q + 1;
    }

    /** one of the two loops of create_tables, with the NULL it puts behind the pointers */
    method FillTable(p: int, table: int, n: int, ghost strings: seq<Str>) returns (q: int)
      requires n == |strings| && StringsOk(strings) && BytesAt(mem[..], p, Encoded(strings))
      requires 0 <= table && table + 4 * (n + 1) <= p && mem.Length < W32
      modifies mem
      ensures q == p + |Encoded(strings)| && TableAt(mem[..], table, strings, p)
      ensures SameOutside(old(mem[..]), mem[..], table, table + 4 * (n + 1))
    {
      hide BytesAt, EntryAt, LongAt, SameOutside, StringsOk, Encoded;
      assert strings[..0] == [];
      EncodedEmpty();
      NothingChanged(mem[..], table, table + 4 * (n + 1));
      var left, slot := n, table;
      q := p;
      ghost var i := 0;
      while left > 0
        invariant 0 <= i <= n && left == n - i && slot == table + 4 * i && q == p + |Encoded(strings[..i])|
        invariant BytesAt(mem[..], p, Encoded(strings))
        invariant forall j :: 0 <= j < i ==> EntryAt(mem[..], table, strings, p, j)
        invariant SameOutside(old(mem[..]), mem[..], table, table + 4 * (n + 1))
      {
        left := left - 1;
        ghost var before := mem[..];
        StringInside(mem[..], p, strings, i);
        PutLong(q, slot);
        BytesKept(before, mem[..], p, Encoded(strings), slot, slot + 4);
        StringInside(mem[..], p, strings, i);
        EntryMade(mem[..], table, strings, p, i);
        EntriesKept(before, mem[..], table, strings, p, i, slot, slot + 4);
        OutsideTwice(old(mem[..]), before, mem[..], table, table + 4 * (n + 1), slot, slot + 4);
        slot := slot + 4;
        NoZeros(strings, i);
        q := Skip(q, strings[i]);
        i := i + 1;
      }
      assert strings[..n] == strings;
      ghost var before := mem[..];
      PutLong(0, slot);
      BytesKept(before, mem[..], p, Encoded(strings), slot, slot + 4);
      EntriesKept(before, mem[..], table, strings, p, n, slot, slot + 4);
      OutsideTwice(old(mem[..]), before, mem[..], table, table + 4 * (n + 1), slot, slot + 4);
    }

    /** create_tables: under the strings come, downwards, the environment table, the argument
        table and the three numbers main() is called with. */
    method CreateTables(p: int, argc: int, envc: int, ghost argv: seq<Str>, ghost envp: seq<Str>) returns (sp: int)
      requires argc == |argv| && envc == |envp| && StringsOk(argv) && StringsOk(envp) && mem.Length == DATA_LIMIT
      requires BytesAt(mem[..], p, Encoded(argv + envp)) && 4 * (argc + envc + 6) <= p
      modifies mem
      ensures StackOk(mem[..], sp, argv, envp) && EndOfTables(sp, argv, envp) <= p < EndOfTables(sp, argv, envp) + 4
    {
      hide BytesAt, LongAt, TableAt, SameOutside, PointsTo, StringsOk, Encoded;
      EncodedConcat(argv, envp);
      SplitBytes(mem[..], p, Encoded(argv), Encoded(envp));
      sp := p - p % 4;
      sp := sp - 4 * (envc + 1);
      var envTable := sp;
      sp := sp - 4 * (argc + 1);
      var argTable := sp;
      sp := PutHeader(argTable, envTable, argc, p, argv, envp);
      ghost var m0 := mem[..];
      var q := FillTable(p, argTable, argc, argv);
      BytesKept(m0, mem[..], q, Encoded(envp), argTable, envTable);
      HeaderKept(m0, mem[..], sp, argTable, envTable, argc, argTable, envTable);
      ghost var m1 := mem[..];
      q := FillTable(q, envTable, envc, envp);
      HeaderKept(m1, mem[..], sp, argTable, envTable, argc, envTable, envTable + 4 * (envc + 1));
      TableKept(m1, mem[..], argTable, argv, p, envTable, envTable + 4 * (envc + 1));
      TablePoints(mem[..], argTable, argv, p, EndOfTables(sp, argv, envp));
      TablePoints(mem[..], envTable, envp, p + |Encoded(argv)|, EndOfTables(sp, argv, envp));
    }

    method PutHeader(argTable: int, envTable: int, argc: int, ghost p: int, ghost argv: seq<Str>, ghost envp: seq<Str>) returns (sp: int)
      requires 12 <= argTable <= envTable <= p <= mem.Length <= DATA_LIMIT && 0 <= argc <= mem.Length && argTable % 4 == 0
      requires BytesAt(mem[..], p, Encoded(argv)) && BytesAt(mem[..], p + |Encoded(argv)|, Encoded(envp))
      modifies mem
      ensures sp == argTable - 12 && Header(mem[..], sp, argTable, envTable, argc)
      ensures BytesAt(mem[..], p, Encoded(argv)) && BytesAt(mem[..], p + |Encoded(argv)|, Encoded(envp))
    {
      hide BytesAt, LongAt, SameOutside, Encoded;
      ghost var m0 := mem[..];
      sp := argTable - 4;
      PutLong(envTable, sp);
      ghost var m1 := mem[..];
      sp := sp - 4;
      PutLong(argTable, sp);
      ghost var m2 := mem[..];
      sp := sp - 4;
      PutLong(argc, sp);
      LongKept(m1, m2, sp + 8, envTable, sp + 4, sp + 8);
      LongKept(m2, mem[..], sp + 8, envTable, sp, sp + 4);
      LongKept(m2, mem[..], sp + 4, argTable, sp, sp + 4);
      TwiceOutside(m0, m1, m2, mem[..], sp);
      BytesKept(m0, mem[..], p, Encoded(argv), sp, sp + 12);
      BytesKept(m0, mem[..], p + |Encoded(argv)|, Encoded(envp), sp, sp + 12);
    }
  }

  lemma EncodedEmpty()
    ensures Encoded([]) == []
  {
  }

  lemma NothingChanged(m: seq<int>, lo: int, hi: int)
    ensures SameOutside(m, m, lo, hi)
  {
  }

  lemma OutsideTwice(m0: seq<int>, m1: seq<int>, m2: seq<int>, lo: int, hi: int, lo2: int, hi2: int)
    requires SameOutside(m0, m1, lo, hi) && SameOutside(m1, m2, lo2, hi2) && lo <= lo2 && hi2 <= hi
    ensures SameOutside(m0, m2, lo, hi)
  {
  }

  lemma NoZeros(strings: seq<Str>, i: int)
    requires StringsOk(strings) && 0 <= i < |strings|
    ensures forall k :: 0 <= k < |strings[i]| ==> strings[i][k] != 0
  {
  }

  lemma EntryMade(m: seq<int>, a: int, strings: seq<Str>, at: int, i: int)
    requires 0 <= i < |strings| && LongAt(m, a + 4 * i, at + |Encoded(strings[..i])|) && StringAt(m, at + |Encoded(strings[..i])|, strings[i])
    ensures EntryAt(m, a, strings, at, i)
  {
  }

  lemma EntriesKept(m: seq<int>, n: seq<int>, a: int, strings: seq<Str>, at: int, count: int, lo: int, hi: int)
    requires 0 <= count <= |strings| && a + 4 * count <= lo <= hi <= at && SameOutside(m, n, lo, hi)
    requires forall j :: 0 <= j < count ==> EntryAt(m, a, strings, at, j)
    ensures forall j :: 0 <= j < count ==> EntryAt(n, a, strings, at, j)
  {
    forall j | 0 <= j < count ensures EntryAt(n, a, strings, at, j) { assert EntryAt(m, a, strings, at, j); }
  }

  ghost predicate Header(m: seq<int>, sp: int, argTable: int, envTable: int, argc: int) {
    LongAt(m, sp, argc) && LongAt(m, sp + 4, argTable) && LongAt(m, sp + 8, envTable)
  }

  lemma HeaderKept(m: seq<int>, n: seq<int>, sp: int, argTable: int, envTable: int, argc: int, lo: int, hi: int)
    requires Header(m, sp, argTable, envTable, argc) && SameOutside(m, n, lo, hi) && sp + 12 <= lo
    ensures Header(n, sp, argTable, envTable, argc)
  {
  }

  lemma TwiceOutside(m0: seq<int>, m1: seq<int>, m2: seq<int>, m3: seq<int>, sp: int)
    requires SameOutside(m0, m1, sp + 8, sp + 12) && SameOutside(m1, m2, sp + 4, sp + 8) && SameOutside(m2, m3, sp, sp + 4)
    ensures SameOutside(m0, m3, sp, sp + 12)
  {
  }

  lemma BytesKept(m: seq<int>, n: seq<int>, p: int, data: seq<int>, lo: int, hi: int)
    requires BytesAt(m, p, data) && SameOutside(m, n, lo, hi) && hi <= p
    ensures BytesAt(n, p, data)
  {
  }

  /** What main(argc, argv, envp) finds at its stack pointer: the numbers, and following the
      pointers of the tables the original strings in order, all of them above the tables. */
  ghost predicate StackOk(m: seq<int>, sp: int, argv: seq<Str>, envp: seq<Str>) {
    && sp % 4 == 0 && Header(m, sp, sp + 12, EndOf(sp + 12, argv), |argv|)
    && PointsTo(m, sp + 12, argv, EndOfTables(sp, argv, envp))
    && PointsTo(m, EndOf(sp + 12, argv), envp, EndOfTables(sp, argv, envp))
  }

  ghost predicate PointsTo(m: seq<int>, table: int, strings: seq<Str>, end: int) {
    && (forall i :: 0 <= i < |strings| ==> PointerTo(m, table + 4 * i, strings[i], end))
    && LongAt(m, table + 4 * |strings|, 0)
  }

  ghost predicate PointerTo(m: seq<int>, slot: int, s: Str, end: int) {
    exists a :: LongAt(m, slot, a) && end <= a && StringAt(m, a, s)
  }

  function EndOf(table: int, strings: seq<Str>): int {
    table + 4 * (|strings| + 1)
  }

  function EndOfTables(sp: int, argv: seq<Str>, envp: seq<Str>): int {
    EndOf(EndOf(sp + 12, argv), envp)
  }

  lemma LongKept(m: seq<int>, n: seq<int>, a: int, v: int, lo: int, hi: int)
    requires LongAt(m, a, v) && SameOutside(m, n, lo, hi) && (a + 4 <= lo || hi <= a)
    ensures LongAt(n, a, v)
  {
  }

  lemma TableKept(m: seq<int>, n: seq<int>, a: int, strings: seq<Str>, at: int, lo: int, hi: int)
    requires TableAt(m, a, strings, at) && SameOutside(m, n, lo, hi) && a + 4 * (|strings| + 1) <= lo <= hi <= at
    ensures TableAt(n, a, strings, at)
  {
    forall i | 0 <= i < |strings| ensures EntryAt(n, a, strings, at, i) {
      assert EntryAt(m, a, strings, at, i);
    }
  }

  lemma TablePoints(m: seq<int>, a: int, strings: seq<Str>, at: int, end: int)
    requires TableAt(m, a, strings, at) && end <= at
    ensures PointsTo(m, a, strings, end)
  {
    forall i | 0 <= i < |strings| ensures PointerTo(m, a + 4 * i, strings[i], end) {
      assert EntryAt(m, a, strings, at, i);
      var b := at + |Encoded(strings[..i])|;
      assert LongAt(m, a + 4 * i, b) && end <= b && StringAt(m, b, strings[i]);
    }
  }

  lemma SplitBytes(m: seq<int>, p: int, a: seq<int>, b: seq<int>)
    requires BytesAt(m, p, a + b)
    ensures BytesAt(m, p, a) && BytesAt(m, p + |a|, b)
  {
    forall k | 0 <= k < |b| ensures m[p + |a| + k] == b[k] { assert m[p + (|a| + k)] == (a + b)[|a| + k]; }
    forall k | 0 <= k < |a| ensures m[p + k] == a[k] { assert m[p + k] == (a + b)[k]; }
  }

  ghost predicate Placed(m: seq<int>, page: seq<int>, i: int) {
    BASE + (i + 1) * PAGE_SIZE <= |m| && 0 <= i && |page| <= PAGE_SIZE &&
    forall k :: 0 <= k < |page| ==> m[BASE + i * PAGE_SIZE + k] == page[k]
  }

  lemma PlacedBytes(m: seq<int>, page: seq<seq<int>>, p: int, data: seq<int>)
    requires |m| == DATA_LIMIT && PagesOk(page) && 0 <= p && p + |data| <= SPACE && Holds(page, p, data)
    requires forall j :: 0 <= j < MAX_ARG_PAGES ==> Placed(m, page[j], j)
    ensures BytesAt(m, BASE + p, data)
  {
    forall k | 0 <= k < |data| ensures m[BASE + p + k] == data[k] {
      assert Byte(page, p + k, data[k]);
      var a := p + k;
      assert Placed(m, page[a / PAGE_SIZE], a / PAGE_SIZE);
      assert m[BASE + a / PAGE_SIZE * PAGE_SIZE + a % PAGE_SIZE] == page[a / PAGE_SIZE][a % PAGE_SIZE];
    }
  }

  lemma {:induction false} CountBound(strings: seq<Str>)
    ensures |strings| <= |Encoded(strings)|
  {
    if strings != [] { CountBound(strings[1..]); }
  }

  /** The argument part of do_execve, for lists that fit (the length test of copy_strings compares
      an unsigned number with 0 and never fails).  It succeeds exactly when a byte is left over
      and the pages suffice; the new program then finds its arguments and environment, and a
      failure gives all pages back. */
  method HandOver(argv: seq<Str>, envp: seq<Str>, pages: nat) returns (ok: bool, sp: int, image: Image, space: ArgSpace)
    requires StringsOk(argv) && StringsOk(envp) && |Encoded(argv)| + |Encoded(envp)| <= SPACE - 4
    ensures ok <==> |Encoded(argv)| + |Encoded(envp)| < SPACE - 4 && PagesFor(|Encoded(argv)| + |Encoded(envp)|) <= pages
    ensures ok ==> StackOk(image.mem[..], sp, argv, envp) && space.free == pages - PagesFor(|Encoded(argv)| + |Encoded(envp)|)
    ensures !ok ==> space.free == pages
  {
    hide Holds, Allocated, PagesFor, BytesAt, StackOk, Encoded;
    space := new ArgSpace(pages);
    image := new Image();
    NothingYet(space.page);
    var p := space.CopyStrings(|envp|, envp, SPACE - 4, []);
    PagesForMonotone(|Encoded(envp)|, |Encoded(argv)| + |Encoded(envp)|);
    ghost var q := 0;
    if p == 0 {
      q :| 0 <= q <= SPACE - 4 && Allocated(space.page, q) && space.free == pages - PagesFor(SPACE - 4 - q);
    }
    ghost var p1 := p;
    assert Encoded(envp) + [] == Encoded(envp);
    p := space.CopyStrings(|argv|, argv, p, Encoded(envp));
    if p == 0 {
      if p1 > 0 {
        q :| 0 <= q <= p1 && Allocated(space.page, q) && space.free == pages - PagesFor(SPACE - 4 - p1) - (PagesFor(SPACE - 4 - q) - PagesFor(SPACE - 4 - p1));
      }
      space.FreePages(q);
      return false, 0, image, space;
    }
    EncodedConcat(argv, envp);
    CountBound(argv);
    CountBound(envp);
    image.PutPages(space.page, p, Encoded(argv + envp));
    sp := image.CreateTables(p + BASE, |argv|, |envp|, argv, envp);
    ok := true;
  }

  lemma NothingYet(page: seq<seq<int>>)
    requires page == seq(MAX_ARG_PAGES, _ => [])
    ensures PagesOk(page) && Holds(page, SPACE - 4, []) && Allocated(page, SPACE - 4) && PagesFor(0) == 0
  {
  }
}
