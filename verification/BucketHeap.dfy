/**
 The kernel heap of lib/malloc.c as a value: nine directories of buckets.  A bucket is one page
 cut into blocks of its directory's size; free lists the addresses of its free blocks in the
 order in which the page itself threads them.
 */
module BucketHeap {

  const PAGE: int := 4096
  const DIRS: int := 9

  function Size(i: int): int
    requires 0 <= i < DIRS
    ensures 16 <= Size(i) <= PAGE && PAGE % Size(i) == 0 && Size(i) % 16 == 0
  {
    [16, 32, 64, 128, 256, 512, 1024, 2048, 4096][i]
  }

  function Blocks(i: int): (n: int)
    requires 0 <= i < DIRS
    ensures 1 <= n && n * Size(i) == PAGE
  {
    [256, 128, 64, 32, 16, 8, 4, 2, 1][i]
  }

  datatype Bucket = Bucket(page: int, free: seq<int>)

  type Dir = seq<seq<Bucket>>

  /** Address of block k of a page cut into blocks of the given size. */
  function BlockAt(page: int, size: int, k: int): int {
    page + k * size
  }

  ghost predicate IsBlock(i: int, page: int, a: int)
    requires 0 <= i < DIRS
  {
    exists k :: 0 <= k < Blocks(i) && a == BlockAt(page, Size(i), k)
  }

  predicate Distinct(s: seq<int>) {
    forall j, k :: 0 <= j < |s| && 0 <= k < |s| && s[j] == s[k] ==> j == k
  }

  predicate IsPage(page: int, words: int) {
    0 < page && page % PAGE == 0 && page + PAGE <= 4 * words
  }

  /** Every free block is listed once. */
  ghost predicate BucketOk(i: int, b: Bucket)
    requires 0 <= i < DIRS
  {
    Distinct(b.free) && forall k :: 0 <= k < |b.free| ==> IsBlock(i, b.page, b.free[k])
  }

  predicate In(dir: Dir, i: int, j: int) {
    0 <= i < |dir| && 0 <= j < |dir[i]|
  }

  ghost predicate PagesOk(dir: Dir, pool: seq<int>, words: int) {
    && (forall i, j :: In(dir, i, j) ==> IsPage(dir[i][j].page, words) && dir[i][j].page !in pool)
    && (forall i, j, k, l :: In(dir, i, j) && In(dir, k, l) && dir[i][j].page == dir[k][l].page ==> i == k && j == l)
    && Distinct(pool) && (forall p :: p in pool ==> IsPage(p, words))
  }

  ghost predicate Sound(dir: Dir, pool: seq<int>, words: int)
    ensures Sound(dir, pool, words) ==> |dir| == DIRS
  {
    && |dir| == DIRS && PagesOk(dir, pool, words)
    && (forall i, j :: In(dir, i, j) ==> BucketOk(i, dir[i][j]))
  }

  /** Every page has a block in use; the bucket at (m, n) may be the exception. */
  ghost predicate InUseBut(dir: Dir, m: int, n: int)
    requires |dir| == DIRS
  {
    forall i, j :: In(dir, i, j) && !(i == m && j == n) ==> |dir[i][j].free| < Blocks(i)
  }

  ghost predicate InUse(dir: Dir)
    requires |dir| == DIRS
  {
    forall i, j :: In(dir, i, j) ==> |dir[i][j].free| < Blocks(i)
  }

  /** Address a is a block of bucket j of directory i that is in use. */
  ghost predicate LiveIn(dir: Dir, i: int, j: int, a: int)
    requires |dir| == DIRS
    ensures LiveIn(dir, i, j, a) ==> In(dir, i, j)
  {
    In(dir, i, j) && IsBlock(i, dir[i][j].page, a) && a !in dir[i][j].free
  }

  /** Address a is a block in use, of the size of directory i. */
  ghost predicate Live(dir: Dir, i: int, a: int)
    requires |dir| == DIRS
  {
    exists j :: LiveIn(dir, i, j, a)
  }

  /** Word w of memory lies in a block that is in use. */
  ghost predicate LiveWord(dir: Dir, w: int)
    requires |dir| == DIRS
  {
    exists i, j, a :: LiveIn(dir, i, j, a) && a <= 4 * w < a + Size(i)
  }

  // ----- arithmetic of blocks

  lemma BlockBounds(i: int, page: int, k: int)
    requires 0 <= i < DIRS && 0 <= k < Blocks(i)
    ensures page <= BlockAt(page, Size(i), k) && BlockAt(page, Size(i), k) + Size(i) <= page + PAGE
  {
    hide Size, Blocks;
    var s := Size(i);
    if k > 0 { BlocksStep(s, 0, k); }
    BlocksStep(s, k, Blocks(i));
  }

  lemma InPage(i: int, page: int, a: int)
    requires 0 <= i < DIRS && IsBlock(i, page, a)
    ensures page <= a && a + Size(i) <= page + PAGE
  {
    var k :| 0 <= k < Blocks(i) && a == BlockAt(page, Size(i), k);
    BlockBounds(i, page, k);
  }

  lemma Aligned(i: int, page: int, a: int)
    requires 0 <= i < DIRS && IsBlock(i, page, a) && page % PAGE == 0
    ensures a % 16 == 0 && a - a % PAGE == page
  {
    hide Size, Blocks;
    var k :| 0 <= k < Blocks(i) && a == BlockAt(page, Size(i), k);
    BlockBounds(i, page, k);
    SixteenTimes(Size(i), k);
    AlignedSum(page, k * Size(i));
  }

  lemma AlignedSum(page: int, off: int)
    requires page % PAGE == 0 && off % 16 == 0 && 0 <= off < PAGE
    ensures (page + off) % 16 == 0 && (page + off) - (page + off) % PAGE == page
  {
    var q, r := page / 4096, off / 16;
    assert page + off == 4096 * q + off;
    assert page + off == 16 * (256 * q + r);
  }

  lemma SixteenTimes(s: int, k: int)
    requires s % 16 == 0
    ensures (k * s) % 16 == 0
  {
    assert k * s == 16 * (k * (s / 16));
  }

  /** Different blocks of one page do not overlap. */
  lemma BlocksApart(i: int, page: int, a: int, b: int)
    requires 0 <= i < DIRS && IsBlock(i, page, a) && IsBlock(i, page, b) && a != b
    ensures a + Size(i) <= b || b + Size(i) <= a
  {
    hide Size, Blocks;
    var s := Size(i);
    var k :| 0 <= k < Blocks(i) && a == BlockAt(page, s, k);
    var l :| 0 <= l < Blocks(i) && b == BlockAt(page, s, l);
    if k < l { BlocksStep(s, k, l); } else { BlocksStep(s, l, k); }
  }

  // ----- what soundness means for the blocks

  /** Two blocks, each in use or listed free, never overlap. */
  lemma BlocksDisjoint(dir: Dir, pool: seq<int>, words: int, i: int, j: int, a: int, k: int, l: int, b: int)
    requires Sound(dir, pool, words) && In(dir, i, j) && In(dir, k, l)
    requires IsBlock(i, dir[i][j].page, a) && IsBlock(k, dir[k][l].page, b) && a != b
    ensures a + Size(i) <= b || b + Size(k) <= a
  {
    hide Size, Blocks, IsBlock, BucketOk, Sound;
    PagesApart(dir, pool, words, i, j, k, l);
    InPage(i, dir[i][j].page, a);
    InPage(k, dir[k][l].page, b);
    if i == k && j == l { BlocksApart(i, dir[i][j].page, a, b); }
  }

  lemma PagesApart(dir: Dir, pool: seq<int>, words: int, i: int, j: int, k: int, l: int)
    requires Sound(dir, pool, words) && In(dir, i, j) && In(dir, k, l)
    ensures dir[i][j].page % PAGE == 0 && dir[k][l].page % PAGE == 0
    ensures (i == k && j == l) || dir[i][j].page + PAGE <= dir[k][l].page || dir[k][l].page + PAGE <= dir[i][j].page
  {
    hide BucketOk;
    assert IsPage(dir[i][j].page, words) && IsPage(dir[k][l].page, words);
  }

  /** An address is a block of one bucket only. */
  lemma OneBucket(dir: Dir, pool: seq<int>, words: int, i: int, j: int, k: int, l: int, a: int)
    requires Sound(dir, pool, words) && In(dir, i, j) && In(dir, k, l)
    requires IsBlock(i, dir[i][j].page, a) && IsBlock(k, dir[k][l].page, a)
    ensures i == k && j == l
  {
    hide Size, Blocks, IsBlock, BucketOk, Sound;
    PagesApart(dir, pool, words, i, j, k, l);
    Aligned(i, dir[i][j].page, a);
    Aligned(k, dir[k][l].page, a);
  }

  /** A free chain's cells are not in any block in use: writing in a block in use is harmless. */
  lemma CellsNotLive(dir: Dir, pool: seq<int>, words: int, w: int, i: int, j: int, k: int)
    requires Sound(dir, pool, words) && LiveWord(dir, w) && In(dir, i, j) && 0 <= k < |dir[i][j].free|
    ensures dir[i][j].free[k] / 4 != w
  {
    hide Size, Blocks, IsBlock, LiveIn, Sound;
    var b := dir[i][j].free[k];
    var m, l, a :| LiveIn(dir, m, l, a) && a <= 4 * w < a + Size(m);
    CellApart(dir, pool, words, i, j, b, m, l, a);
    WordApart(a, Size(m), b, Size(i), w);
  }

  lemma WordApart(a: int, s: int, b: int, t: int, w: int)
    requires a <= 4 * w < a + s && 16 <= t && b % 16 == 0 && (b + t <= a || a + s <= b)
    ensures b / 4 != w
  {
  }

  lemma CellApart(dir: Dir, pool: seq<int>, words: int, i: int, j: int, b: int, m: int, l: int, a: int)
    requires Sound(dir, pool, words) && In(dir, i, j) && b in dir[i][j].free && LiveIn(dir, m, l, a)
    ensures 0 <= i < DIRS && 0 <= m < DIRS && IsBlock(i, dir[i][j].page, b) && b % 16 == 0 && (b + Size(i) <= a || a + Size(m) <= b)
  {
    hide Size, Blocks, IsBlock, PagesOk;
    assert BucketOk(i, dir[i][j]);
    PagesApart(dir, pool, words, i, j, m, l);
    Aligned(i, dir[i][j].page, b);
    if a == b { OneBucket(dir, pool, words, i, j, m, l, a); }
    BlocksDisjoint(dir, pool, words, i, j, b, m, l, a);
  }

  // ----- counting

  ghost function AllBlocks(i: int, page: int, n: int): (s: seq<int>)
    requires 0 <= i < DIRS && 0 <= n <= Blocks(i)
    ensures |s| == n
  {
    seq(n, k => BlockAt(page, Size(i), k))
  }

  ghost function BlockSet(i: int, page: int, n: int): set<int>
    requires 0 <= i < DIRS && 0 <= n <= Blocks(i)
  {
    set k | 0 <= k < n :: BlockAt(page, Size(i), k)
  }

  lemma {:induction false} BlockSetSize(i: int, page: int, n: int)
    requires 0 <= i < DIRS && 0 <= n <= Blocks(i)
    ensures |BlockSet(i, page, n)| == n
  {
    if n > 0 {
      BlockSetSize(i, page, n - 1);
      var a := BlockAt(page, Size(i), n - 1);
      forall k | 0 <= k < n - 1 ensures BlockAt(page, Size(i), k) != a { BlocksStep(Size(i), k, n - 1); }
      assert BlockSet(i, page, n) == BlockSet(i, page, n - 1) + {a};
    } else {
      assert BlockSet(i, page, 0) == {};
    }
  }

  lemma BlocksStep(s: int, k: int, l: int)
    requires 0 < s && k < l
    ensures k * s + s <= l * s
  {
    assert l * s == k * s + (l - k) * s;
    Grows(s, l - k);
  }

  lemma {:induction false} Grows(s: int, n: int)
    requires 0 < s && 0 < n
    ensures s <= n * s
  {
    if n > 1 {
      Grows(s, n - 1);
      assert n * s == (n - 1) * s + s;
    }
  }

  lemma {:induction false} DistinctSize(s: seq<int>)
    requires Distinct(s)
    ensures |set a | a in s| == |s|
  {
    if s != [] {
      var n := |s| - 1;
      DistinctSize(s[..n]);
      assert (set a | a in s) == (set a | a in s[..n]) + {s[n]};
    }
  }

  lemma SubsetSize(s: set<int>, t: set<int>)
    requires s <= t
    ensures |s| <= |t| && (|s| == |t| ==> s == t)
  {
    assert t == s + (t - s);
  }

  /** The free blocks of a page are as many as its blocks exactly when none is in use. */
  lemma AllFree(i: int, b: Bucket)
    requires 0 <= i < DIRS && Distinct(b.free) && forall k :: 0 <= k < |b.free| ==> IsBlock(i, b.page, b.free[k])
    ensures |b.free| <= Blocks(i)
    ensures |b.free| == Blocks(i) <==> forall a :: IsBlock(i, b.page, a) ==> a in b.free
  {
    var n := Blocks(i);
    var all, cells := BlockSet(i, b.page, n), set a | a in b.free;
    BlockSetSize(i, b.page, n);
    DistinctSize(b.free);
    assert forall a :: a in all <==> IsBlock(i, b.page, a);
    SubsetSize(cells, all);
    if |b.free| == n {
      forall a | IsBlock(i, b.page, a) ensures a in b.free { assert a in all && a in cells; }
    } else if forall a :: IsBlock(i, b.page, a) ==> a in b.free {
      assert all <= cells;
      SubsetSize(all, cells);
    }
  }

  // ----- allocation: taking the first free block of a bucket, or of a new page

  function Take(dir: Dir, i: int, j: int): Dir
    requires In(dir, i, j) && dir[i][j].free != []
  {
    dir[i := dir[i][j := Bucket(dir[i][j].page, dir[i][j].free[1..])]]
  }

  lemma TakeKeeps(dir: Dir, pool: seq<int>, words: int, i: int, j: int)
    requires Sound(dir, pool, words) && In(dir, i, j) && dir[i][j].free != []
    ensures Sound(Take(dir, i, j), pool, words)
    ensures forall k :: !Live(dir, k, dir[i][j].free[0])
    ensures forall k, a :: Live(Take(dir, i, j), k, a) <==> Live(dir, k, a) || (k == i && a == dir[i][j].free[0])
    ensures LiveIn(Take(dir, i, j), i, j, dir[i][j].free[0])
    ensures InUseBut(dir, i, j) ==> InUse(Take(dir, i, j))
  {
    hide IsBlock, Size, Blocks;
    var e := Take(dir, i, j);
    AllFree(i, dir[i][j]);
    assert BucketOk(i, dir[i][j]);
    assert BucketOk(i, e[i][j]);
    assert forall k, l :: In(e, k, l) ==> In(dir, k, l) && e[k][l].page == dir[k][l].page;
    NotLive(dir, pool, words, i, j, dir[i][j].free[0]);
    TakeLive(dir, i, j);
  }

  lemma TakeLive(dir: Dir, i: int, j: int)
    requires |dir| == DIRS && In(dir, i, j) && dir[i][j].free != [] && BucketOk(i, dir[i][j])
    ensures forall k, a :: Live(Take(dir, i, j), k, a) <==> Live(dir, k, a) || (k == i && a == dir[i][j].free[0])
    ensures LiveIn(Take(dir, i, j), i, j, dir[i][j].free[0])
  {
    hide IsBlock, Size, Blocks;
    var e: Dir, b := Take(dir, i, j), dir[i][j].free[0];
    assert forall a :: a in dir[i][j].free <==> a == b || a in e[i][j].free;
    assert LiveIn(e, i, j, b);
    forall k, a ensures Live(e, k, a) <==> Live(dir, k, a) || (k == i && a == b) {
      if Live(e, k, a) && !(k == i && a == b) {
        var l :| LiveIn(e, k, l, a);
        assert LiveIn(dir, k, l, a);
      }
      if Live(dir, k, a) {
        var l :| LiveIn(dir, k, l, a);
        assert LiveIn(e, k, l, a);
      }
    }
  }

  lemma NotLive(dir: Dir, pool: seq<int>, words: int, i: int, j: int, b: int)
    requires Sound(dir, pool, words) && In(dir, i, j) && b in dir[i][j].free
    ensures forall k :: !Live(dir, k, b)
  {
    hide IsBlock, Size, Blocks;
    assert BucketOk(i, dir[i][j]);
    if k :| Live(dir, k, b) {
      var l :| LiveIn(dir, k, l, b);
      OneBucket(dir, pool, words, i, j, k, l, b);
      assert false;
    }
  }

  /** A new page in front of directory i, all its blocks free. */
  ghost function New(dir: Dir, i: int, page: int): Dir
    requires |dir| == DIRS && 0 <= i < DIRS
  {
    dir[i := [Bucket(page, AllBlocks(i, page, Blocks(i)))] + dir[i]]
  }

  lemma FreshBucket(i: int, page: int)
    requires 0 <= i < DIRS
    ensures var s := AllBlocks(i, page, Blocks(i)); s[0] == page && Distinct(s) && forall a :: a in s <==> IsBlock(i, page, a)
  {
    var s := AllBlocks(i, page, Blocks(i));
    forall k, l | 0 <= k < |s| && 0 <= l < |s| && s[k] == s[l] ensures k == l {
      if k < l { BlocksStep(Size(i), k, l); } else if l < k { BlocksStep(Size(i), l, k); }
    }
    forall a | IsBlock(i, page, a) ensures a in s {
      var k :| 0 <= k < Blocks(i) && a == BlockAt(page, Size(i), k);
      assert s[k] == a;
    }
  }

  lemma NewKeeps(dir: Dir, pool: seq<int>, words: int, i: int, page: int)
    requires Sound(dir, pool, words) && 0 <= i < DIRS && pool != [] && page == pool[0]
    ensures Sound(New(dir, i, page), pool[1..], words)
    ensures forall k, a :: Live(New(dir, i, page), k, a) <==> Live(dir, k, a)
    ensures InUse(dir) ==> InUseBut(New(dir, i, page), i, 0)
  {
    hide IsBlock, Size, Blocks;
    FreshBucket(i, page);
    var e := New(dir, i, page);
    assert BucketOk(i, e[i][0]);
    assert forall k, l :: In(e, k, l) ==> (k == i && l == 0) || (In(dir, k, Old(i, k, l)) && e[k][l] == dir[k][Old(i, k, l)]);
    forall k, a ensures Live(e, k, a) <==> Live(dir, k, a) {
      if Live(e, k, a) {
        var l :| LiveIn(e, k, l, a);
        assert LiveIn(dir, k, Old(i, k, l), a);
      }
      if Live(dir, k, a) {
        var l :| LiveIn(dir, k, l, a);
        assert LiveIn(e, k, if k == i then l + 1 else l, a);
      }
    }
  }

  /** Where the bucket now at (k, l) was before one was put in front of directory i. */
  function Old(i: int, k: int, l: int): int {
    if k == i then l - 1 else l
  }

  // ----- freeing

  function Return(dir: Dir, i: int, j: int, a: int): Dir
    requires |dir| == DIRS && In(dir, i, j)
  {
    if |dir[i][j].free| + 1 == Blocks(i) then dir[i := dir[i][..j] + dir[i][j + 1..]]
    else dir[i := dir[i][j := Bucket(dir[i][j].page, [a] + dir[i][j].free)]]
  }

  lemma ReturnKeeps(dir: Dir, pool: seq<int>, words: int, i: int, j: int, a: int)
    requires Sound(dir, pool, words) && InUse(dir) && LiveIn(dir, i, j, a)
    ensures InUse(Return(dir, i, j, a))
    ensures Sound(Return(dir, i, j, a), if |dir[i][j].free| + 1 == Blocks(i) then pool + [dir[i][j].page] else pool, words)
    ensures forall k, x :: Live(Return(dir, i, j, a), k, x) <==> Live(dir, k, x) && x != a
  {
    if |dir[i][j].free| + 1 == Blocks(i) { DropKeeps(dir, pool, words, i, j, a); } else { PushKeeps(dir, pool, words, i, j, a); }
  }

  lemma PushKeeps(dir: Dir, pool: seq<int>, words: int, i: int, j: int, a: int)
    requires Sound(dir, pool, words) && InUse(dir) && LiveIn(dir, i, j, a) && |dir[i][j].free| + 1 < Blocks(i)
    ensures Sound(Return(dir, i, j, a), pool, words) && InUse(Return(dir, i, j, a))
    ensures forall k, x :: Live(Return(dir, i, j, a), k, x) <==> Live(dir, k, x) && x != a
  {
    hide IsBlock, Size, Blocks;
    var e := Return(dir, i, j, a);
    assert BucketOk(i, dir[i][j]);
    assert BucketOk(i, e[i][j]);
    assert forall k, l :: In(e, k, l) ==> In(dir, k, l) && e[k][l].page == dir[k][l].page;
    assert forall x :: x in e[i][j].free <==> x == a || x in dir[i][j].free;
    forall k, x ensures Live(e, k, x) <==> Live(dir, k, x) && x != a {
      if Live(e, k, x) {
        var l :| LiveIn(e, k, l, x);
        assert LiveIn(dir, k, l, x);
        if x == a { OneBucket(dir, pool, words, i, j, k, l, a); assert false; }
      }
      if Live(dir, k, x) && x != a {
        var l :| LiveIn(dir, k, l, x);
        assert LiveIn(e, k, l, x);
      }
    }
  }

  lemma LastBlock(i: int, b: Bucket, a: int)
    requires 0 <= i < DIRS && BucketOk(i, b) && IsBlock(i, b.page, a) && a !in b.free
    ensures |b.free| + 1 == Blocks(i) <==> forall x :: IsBlock(i, b.page, x) ==> x == a || x in b.free
  {
    hide IsBlock, Blocks, Size;
    var c := Bucket(b.page, [a] + b.free);
    AllFree(i, c);
    assert forall x :: x in c.free <==> x == a || x in b.free;
  }

  lemma DropKeeps(dir: Dir, pool: seq<int>, words: int, i: int, j: int, a: int)
    requires Sound(dir, pool, words) && InUse(dir) && LiveIn(dir, i, j, a) && |dir[i][j].free| + 1 == Blocks(i)
    ensures Sound(Return(dir, i, j, a), pool + [dir[i][j].page], words) && InUse(Return(dir, i, j, a))
    ensures forall k, x :: Live(Return(dir, i, j, a), k, x) <==> Live(dir, k, x) && x != a
  {
    hide IsBlock, Size, Blocks;
    var e := Return(dir, i, j, a);
    assert forall k, l :: In(e, k, l) ==> In(dir, k, After(i, j, k, l)) && e[k][l] == dir[k][After(i, j, k, l)];
    forall k, x ensures Live(e, k, x) <==> Live(dir, k, x) && x != a { DropLive(dir, pool, words, i, j, a, e, k, x); }
  }

  lemma DropLive(dir: Dir, pool: seq<int>, words: int, i: int, j: int, a: int, e: Dir, k: int, x: int)
    requires Sound(dir, pool, words) && LiveIn(dir, i, j, a) && |dir[i][j].free| + 1 == Blocks(i) && e == Return(dir, i, j, a)
    ensures Live(e, k, x) <==> Live(dir, k, x) && x != a
  {
    hide IsBlock, Size, Blocks, PagesOk;
    LastBlock(i, dir[i][j], a);
    if Live(e, k, x) {
      var l :| LiveIn(e, k, l, x);
      assert LiveIn(dir, k, After(i, j, k, l), x);
      if x == a { OneBucket(dir, pool, words, i, j, k, After(i, j, k, l), a); }
    }
    if Live(dir, k, x) && x != a {
      var l :| LiveIn(dir, k, l, x);
      assert !(k == i && l == j);
      assert LiveIn(e, k, if k == i && l > j then l - 1 else l, x);
    }
  }

  /** Where the bucket now at (k, l) was before bucket j of directory i was unlinked. */
  function After(i: int, j: int, k: int, l: int): int {
    if k == i && l >= j then l + 1 else l
  }

  // ----- the chains inside the pages

  function First(free: seq<int>): int {
    if free == [] then 0 else free[0]
  }

  /** The word at each free block's address holds the address of the next, 0 at the end. */
  ghost predicate Threaded(m: seq<int>, free: seq<int>) {
    forall k :: 0 <= k < |free| ==> 0 <= free[k] / 4 < |m| && m[free[k] / 4] == First(free[k + 1..])
  }

  ghost predicate Threads(m: seq<int>, dir: Dir) {
    forall i, j :: In(dir, i, j) ==> Threaded(m, dir[i][j].free)
  }

  /** Storing into a block in use leaves every free chain as it is. */
  lemma WriteKeeps(dir: Dir, pool: seq<int>, m: seq<int>, w: int, v: int)
    requires Sound(dir, pool, |m|) && Threads(m, dir) && LiveWord(dir, w) && 0 <= w < |m|
    ensures Threads(m[w := v], dir)
  {
    hide Sound, LiveWord;
    forall i, j | In(dir, i, j) ensures Threaded(m[w := v], dir[i][j].free) {
      forall k | 0 <= k < |dir[i][j].free| ensures dir[i][j].free[k] / 4 != w {
        CellsNotLive(dir, pool, |m|, w, i, j, k);
      }
    }
  }

  lemma TakeThreads(m: seq<int>, dir: Dir, i: int, j: int)
    requires Threads(m, dir) && In(dir, i, j) && dir[i][j].free != []
    ensures Threads(m, Take(dir, i, j))
    ensures 0 <= dir[i][j].free[0] / 4 < |m| && m[dir[i][j].free[0] / 4] == First(dir[i][j].free[1..])
  {
    var e: Dir, free: seq<int> := Take(dir, i, j), dir[i][j].free;
    assert Threaded(m, free);
    forall k | 0 <= k < |free| - 1
      ensures 0 <= free[1..][k] / 4 < |m| && m[free[1..][k] / 4] == First(free[1..][k + 1..])
    {
      assert free[1..][k] == free[k + 1] && free[1..][k + 1..] == free[k + 2..];
    }
    assert Threaded(m, e[i][j].free);
  }

  lemma NewThreads(m: seq<int>, before: seq<int>, dir: Dir, pool: seq<int>, i: int, page: int)
    requires Sound(dir, pool, |m|) && Threads(before, dir) && |before| == |m| && 0 <= i < DIRS && page in pool
    requires forall w :: 0 <= w < |m| && !(page <= 4 * w < page + PAGE) ==> m[w] == before[w]
    requires Threaded(m, AllBlocks(i, page, Blocks(i)))
    ensures Threads(m, New(dir, i, page))
  {
    hide IsBlock, Size, Blocks;
    var e := New(dir, i, page);
    forall k, l | In(e, k, l) ensures Threaded(m, e[k][l].free) {
      if !(k == i && l == 0) {
        var b := dir[k][Old(i, k, l)];
        assert e[k][l] == b && In(dir, k, Old(i, k, l)) && Threaded(before, b.free);
        forall n | 0 <= n < |b.free| ensures m[b.free[n] / 4] == before[b.free[n] / 4] {
          assert BucketOk(k, b);
          OutsidePage(k, b.page, b.free[n], page);
        }
      }
    }
  }

  lemma OutsidePage(k: int, p: int, a: int, page: int)
    requires 0 <= k < DIRS && IsBlock(k, p, a) && p != page && p % PAGE == 0 && page % PAGE == 0
    ensures !(page <= 4 * (a / 4) < page + PAGE)
  {
    hide Size, Blocks, IsBlock;
    InPage(k, p, a);
    Aligned(k, p, a);
    WholeWord(a);
  }

  lemma WholeWord(a: int)
    requires a % 16 == 0
    ensures 4 * (a / 4) == a
  {
  }

  lemma ReturnThreads(m: seq<int>, dir: Dir, pool: seq<int>, i: int, j: int, a: int)
    requires Sound(dir, pool, |m|) && Threads(m, dir) && LiveIn(dir, i, j, a)
    ensures 0 <= a / 4 < |m| && LiveWord(dir, a / 4)
    ensures Threads(m[a / 4 := First(dir[i][j].free)], Return(dir, i, j, a))
  {
    hide IsBlock, Size, Blocks, PagesOk;
    LiveFirst(m, dir, pool, i, j, a);
    var n: seq<int>, e: Dir := m[a / 4 := First(dir[i][j].free)], Return(dir, i, j, a);
    WriteKeeps(dir, pool, m, a / 4, First(dir[i][j].free));
    var free := dir[i][j].free;
    assert Threaded(n, free);
    forall k | 0 <= k < |free| + 1
      ensures 0 <= ([a] + free)[k] / 4 < |n| && n[([a] + free)[k] / 4] == First(([a] + free)[k + 1..])
    {
      if k > 0 { assert ([a] + free)[k] == free[k - 1] && ([a] + free)[k + 1..] == free[k..]; } else { assert ([a] + free)[1..] == free; }
    }
    assert Threaded(n, [a] + free);
    assert forall k, l :: In(e, k, l) && |free| + 1 == Blocks(i) ==> In(dir, k, After(i, j, k, l)) && e[k][l] == dir[k][After(i, j, k, l)];
  }

  lemma LiveFirst(m: seq<int>, dir: Dir, pool: seq<int>, i: int, j: int, a: int)
    requires Sound(dir, pool, |m|) && LiveIn(dir, i, j, a)
    ensures 0 <= a / 4 < |m| && LiveWord(dir, a / 4)
  {
    hide IsBlock, Blocks, Size;
    InPage(i, dir[i][j].page, a);
    assert IsPage(dir[i][j].page, |m|);
    Aligned(i, dir[i][j].page, a);
    WholeWord(a);
  }
}
