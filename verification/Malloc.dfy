/**
 malloc and free_s of lib/malloc.c over the descriptor lists and the words of memory, against
 the value model of BucketHeap.  A descriptor is named by its number in the order in which
 init_bucket_desc made them; NULL is -1.
 */
module Malloc {
  import opened BucketHeap

  /** struct bucket_desc */
  datatype Desc = Desc(page: int, next: int, freeptr: int, refcnt: int, size: int)

  const NULL: int := -1
  const DESCS_PER_PAGE: int := 256

  function NextOf(s: seq<int>, k: int): int
    requires 0 <= k < |s|
  {
    if k + 1 < |s| then s[k + 1] else NULL
  }

  /** The list that starts at head visits the descriptors of s in order. */
  ghost predicate Linked(desc: seq<Desc>, head: int, s: seq<int>) {
    && head == (if |s| == 0 then NULL else s[0])
    && forall k :: 0 <= k < |s| ==> 0 <= s[k] < |desc| && desc[s[k]].next == NextOf(s, k)
  }

  /** Descriptor d of bucket b in directory i: its count and the free blocks make up the page. */
  ghost predicate Describes(d: Desc, i: int, b: Bucket)
    requires 0 <= i < DIRS
  {
    d.page == b.page && d.freeptr == First(b.free) && d.refcnt == Blocks(i) - |b.free| && d.size == Size(i)
  }

  predicate Entry(idx: seq<seq<int>>, i: int, j: int) {
    0 <= i < |idx| && 0 <= j < |idx[i]|
  }

  /** Every descriptor is on one list, once. */
  ghost predicate Separate(idx: seq<seq<int>>, spare: seq<int>) {
    && (forall i, j :: Entry(idx, i, j) ==> idx[i][j] !in spare)
    && (forall i, j, k, l :: Entry(idx, i, j) && Entry(idx, k, l) && idx[i][j] == idx[k][l] ==> i == k && j == l)
    && Distinct(spare)
  }

  ghost predicate ChainsOk(desc: seq<Desc>, chain: seq<int>, dir: Dir, idx: seq<seq<int>>) {
    && |chain| == |idx| == |dir| == DIRS
    && (forall i :: 0 <= i < DIRS ==> |idx[i]| == |dir[i]| && Linked(desc, chain[i], idx[i]))
    && (forall i, j :: Entry(idx, i, j) ==> 0 <= idx[i][j] < |desc| && Describes(desc[idx[i][j]], i, dir[i][j]))
  }

  ghost predicate Tables(desc: seq<Desc>, chain: seq<int>, freeDesc: int, dir: Dir, idx: seq<seq<int>>, spare: seq<int>) {
    ChainsOk(desc, chain, dir, idx) && Linked(desc, freeDesc, spare) && Separate(idx, spare)
  }

  // ----- what each change of the lists keeps

  /** e agrees with d on the descriptors of s. */
  lemma LinkedSame(d: seq<Desc>, e: seq<Desc>, head: int, s: seq<int>)
    requires Linked(d, head, s) && |d| <= |e| && forall k :: 0 <= k < |s| ==> e[s[k]].next == d[s[k]].next
    ensures Linked(e, head, s)
  {
  }

  lemma InitTables(desc: seq<Desc>, chain: seq<int>, freeDesc: int, dir: Dir, idx: seq<seq<int>>, spare: seq<int>,
      more: seq<Desc>, made: seq<int>)
    requires Tables(desc, chain, freeDesc, dir, idx, spare) && |more| == |made| > 0
    requires forall k :: 0 <= k < |made| ==> made[k] == |desc| + k && more[k].next == if k + 1 < |made| then |desc| + k + 1 else freeDesc
    ensures Tables(desc + more, chain, |desc|, dir, idx, made + spare)
  {
    var e, t, n := desc + more, made + spare, |made|;
    forall k | 0 <= k < |t| ensures 0 <= t[k] < |e| && e[t[k]].next == NextOf(t, k) {
      if k >= n {
        var j := k - n;
        assert t[k] == spare[j] && desc[spare[j]].next == NextOf(spare, j);
      } else {
        assert t[k] == |desc| + k && e[t[k]] == more[k];
      }
    }
    forall i | 0 <= i < DIRS ensures Linked(e, chain[i], idx[i]) { LinkedSame(desc, e, chain[i], idx[i]); }
    forall i, j | Entry(idx, i, j) ensures idx[i][j] !in t { assert Linked(desc, chain[i], idx[i]); }
    forall k, l | 0 <= k < |t| && 0 <= l < |t| && t[k] == t[l] ensures k == l {
      assert k < n ==> t[k] == |desc| + k;
      assert l < n ==> t[l] == |desc| + l;
      if k >= n { var j := k - n; assert t[k] == spare[j]; }
      if l >= n { var j := l - n; assert t[l] == spare[j]; }
    }
  }

  /** The first spare descriptor, for a new page, goes in front of directory i. */
  lemma NewTables(desc: seq<Desc>, chain: seq<int>, dir: Dir, idx: seq<seq<int>>, spare: seq<int>, i: int, page: int)
    requires 0 <= i < DIRS && |spare| > 0 && Tables(desc, chain, spare[0], dir, idx, spare)
    ensures 0 <= spare[0] < |desc| && desc[spare[0]].next == NextOf(spare, 0)
    ensures Tables(desc[spare[0] := Desc(page, chain[i], page, 0, Size(i))], chain[i := spare[0]],
                   NextOf(spare, 0), New(dir, i, page), idx[i := [spare[0]] + idx[i]], spare[1..])
  {
    hide Size, Blocks, BlockAt, Describes, Linked, Separate, New;
    LinkedTail(desc, spare);
    var d := spare[0];
    var e := desc[d := Desc(page, chain[i], page, 0, Size(i))];
    NewChains(desc, chain, dir, idx, spare, i, page);
    NewSeparate(idx, spare, i);
    RestLinked(desc, e, NextOf(spare, 0), spare[1..], d, idx, spare);
  }

  lemma LinkedTail(desc: seq<Desc>, s: seq<int>)
    requires |s| > 0 && Linked(desc, s[0], s)
    ensures 0 <= s[0] < |desc| && desc[s[0]].next == NextOf(s, 0) && Linked(desc, NextOf(s, 0), s[1..])
  {
    forall k | 0 <= k < |s| - 1 ensures 0 <= s[1..][k] < |desc| && desc[s[1..][k]].next == NextOf(s[1..], k) {
      var j := k + 1;
      assert s[1..][k] == s[j] && desc[s[j]].next == NextOf(s, j);
    }
  }

  lemma RestLinked(desc: seq<Desc>, e: seq<Desc>, head: int, s: seq<int>, d: int, idx: seq<seq<int>>, spare: seq<int>)
    requires Linked(desc, head, s) && |e| == |desc| && forall k :: 0 <= k < |desc| && k != d ==> e[k] == desc[k]
    requires Separate(idx, spare) && |spare| > 0 && d == spare[0] && s == spare[1..]
    ensures Linked(e, head, s)
  {
    forall k | 0 <= k < |s| ensures s[k] != d { assert s[k] == spare[k + 1]; }
    LinkedSame(desc, e, head, s);
  }

  lemma NewSeparate(idx: seq<seq<int>>, spare: seq<int>, i: int)
    requires Separate(idx, spare) && |spare| > 0 && 0 <= i < |idx|
    ensures Separate(idx[i := [spare[0]] + idx[i]], spare[1..])
  {
    var after := idx[i := [spare[0]] + idx[i]];
    forall k, l | Entry(after, k, l) ensures (k == i && l == 0 && after[k][l] == spare[0]) || (Entry(idx, k, Old(i, k, l)) && after[k][l] == idx[k][Old(i, k, l)]) {}
  }

  lemma NewChains(desc: seq<Desc>, chain: seq<int>, dir: Dir, idx: seq<seq<int>>, spare: seq<int>, i: int, page: int)
    requires 0 <= i < DIRS && |spare| > 0 && 0 <= spare[0] < |desc| && ChainsOk(desc, chain, dir, idx) && Separate(idx, spare)
    ensures ChainsOk(desc[spare[0] := Desc(page, chain[i], page, 0, Size(i))], chain[i := spare[0]], New(dir, i, page), idx[i := [spare[0]] + idx[i]])
  {
    hide Size, Blocks, BlockAt, Linked;
    var d := spare[0];
    var e := desc[d := Desc(page, chain[i], page, 0, Size(i))];
    var after := idx[i := [d] + idx[i]];
    FreshBucket(i, page);
    assert forall k, l :: Entry(idx, k, l) ==> idx[k][l] != d;
    forall k | 0 <= k < DIRS ensures Linked(e, chain[i := d][k], after[k]) {
      forall l | 0 <= l < |idx[k]| ensures idx[k][l] != d { assert Entry(idx, k, l); }
      AwayLinked(desc, e, chain[k], idx[k], d);
      if k == i { LinkedCons(e, d, chain[i], idx[i]); }
    }
    forall k, l | Entry(after, k, l) ensures 0 <= after[k][l] < |e| && Describes(e[after[k][l]], k, New(dir, i, page)[k][l]) {
      if !(k == i && l == 0) { assert Entry(idx, k, Old(i, k, l)); }
    }
  }

  lemma AwayLinked(desc: seq<Desc>, e: seq<Desc>, head: int, s: seq<int>, d: int)
    requires Linked(desc, head, s) && |e| == |desc| && forall k :: 0 <= k < |desc| && k != d ==> e[k] == desc[k]
    requires forall k :: 0 <= k < |s| ==> s[k] != d
    ensures Linked(e, head, s)
  {
    LinkedSame(desc, e, head, s);
  }

  lemma LinkedCons(desc: seq<Desc>, d: int, head: int, s: seq<int>)
    requires Linked(desc, head, s) && 0 <= d < |desc| && desc[d].next == head
    ensures Linked(desc, d, [d] + s)
  {
    var t := [d] + s;
    forall k | 0 <= k < |t| ensures 0 <= t[k] < |desc| && desc[t[k]].next == NextOf(t, k) {
      if k > 0 {
        var j := k - 1;
        assert t[k] == s[j] && desc[s[j]].next == NextOf(s, j);
      }
    }
  }

  /** Another free list for the same bucket. */
  lemma CellTables(desc: seq<Desc>, chain: seq<int>, freeDesc: int, dir: Dir, idx: seq<seq<int>>, spare: seq<int>,
      i: int, j: int, free: seq<int>)
    requires Tables(desc, chain, freeDesc, dir, idx, spare) && In(dir, i, j)
    ensures Entry(idx, i, j) && 0 <= idx[i][j] < |desc| && Describes(desc[idx[i][j]], i, dir[i][j])
    ensures var d := idx[i][j];
      Tables(desc[d := desc[d].(freeptr := First(free), refcnt := Blocks(i) - |free|)], chain, freeDesc,
             dir[i := dir[i][j := Bucket(dir[i][j].page, free)]], idx, spare)
  {
    hide Size, Blocks;
    var d := idx[i][j];
    assert Entry(idx, i, j);
    var e := desc[d := desc[d].(freeptr := First(free), refcnt := Blocks(i) - |free|)];
    forall k | 0 <= k < DIRS ensures Linked(e, chain[k], idx[k]) { LinkedSame(desc, e, chain[k], idx[k]); }
    LinkedSame(desc, e, freeDesc, spare);
  }

  /** e is desc with descriptor j of chain s unlinked: the one before it is linked past it. */
  ghost predicate Unlinked(desc: seq<Desc>, e: seq<Desc>, s: seq<int>, j: int) {
    && 0 <= j < |s| && |e| == |desc| && (forall k :: 0 <= k < |s| ==> 0 <= s[k] < |desc|)
    && (j > 0 ==> e[s[j - 1]] == desc[s[j - 1]].(next := desc[s[j]].next))
    && forall k :: 0 <= k < |desc| && k != s[j] && (j > 0 ==> k != s[j - 1]) ==> e[k] == desc[k]
  }

  /** Unlinking bucket j of directory i; its descriptor goes in front of the spare ones. */
  lemma DropTables(desc: seq<Desc>, chain: seq<int>, freeDesc: int, dir: Dir, idx: seq<seq<int>>, spare: seq<int>,
      i: int, j: int, e: seq<Desc>)
    requires Tables(desc, chain, freeDesc, dir, idx, spare) && In(dir, i, j) && Entry(idx, i, j)
    requires Unlinked(desc, e, idx[i], j) && e[idx[i][j]].next == freeDesc
    ensures Tables(e, if j > 0 then chain else chain[i := desc[idx[i][j]].next], idx[i][j],
                   dir[i := dir[i][..j] + dir[i][j + 1..]], idx[i := idx[i][..j] + idx[i][j + 1..]], [idx[i][j]] + spare)
  {
    hide Size, Blocks, Describes, Linked, Unlinked, Separate;
    DropChains(desc, chain, dir, idx, spare, i, j, e);
    DropSeparate(idx, spare, i, j);
    DropSpare(desc, idx, spare, i, j, e, freeDesc);
  }

  lemma DropSpare(desc: seq<Desc>, idx: seq<seq<int>>, spare: seq<int>, i: int, j: int, e: seq<Desc>, head: int)
    requires Separate(idx, spare) && Entry(idx, i, j) && Unlinked(desc, e, idx[i], j) && Linked(desc, head, spare) && e[idx[i][j]].next == head
    ensures Linked(e, idx[i][j], [idx[i][j]] + spare)
  {
    forall k | 0 <= k < |spare| ensures e[spare[k]].next == desc[spare[k]].next {
      if j > 0 { assert Entry(idx, i, j - 1); }
    }
    LinkedSame(desc, e, head, spare);
    LinkedCons(e, idx[i][j], head, spare);
  }

  lemma DropSeparate(idx: seq<seq<int>>, spare: seq<int>, i: int, j: int)
    requires Separate(idx, spare) && Entry(idx, i, j)
    ensures Separate(idx[i := idx[i][..j] + idx[i][j + 1..]], [idx[i][j]] + spare)
  {
    var after := idx[i := idx[i][..j] + idx[i][j + 1..]];
    forall k, l | Entry(after, k, l)
      ensures Entry(idx, k, After(i, j, k, l)) && after[k][l] == idx[k][After(i, j, k, l)] && !(k == i && After(i, j, k, l) == j) {}
  }

  lemma DropChains(desc: seq<Desc>, chain: seq<int>, dir: Dir, idx: seq<seq<int>>, spare: seq<int>, i: int, j: int, e: seq<Desc>)
    requires ChainsOk(desc, chain, dir, idx) && Separate(idx, spare) && Entry(idx, i, j) && Unlinked(desc, e, idx[i], j)
    ensures ChainsOk(e, if j > 0 then chain else chain[i := desc[idx[i][j]].next],
                     dir[i := dir[i][..j] + dir[i][j + 1..]], idx[i := idx[i][..j] + idx[i][j + 1..]])
  {
    hide Size, Blocks, Linked, Separate;
    var after := idx[i := idx[i][..j] + idx[i][j + 1..]];
    var first := if j > 0 then chain else chain[i := desc[idx[i][j]].next];
    DropLinked(desc, chain[i], idx[i], j, e, idx, spare, i);
    forall k | 0 <= k < DIRS && k != i ensures Linked(e, first[k], after[k]) {
      OtherChain(desc, chain[k], idx, spare, i, j, e, k);
    }
    forall k, l | Entry(after, k, l)
      ensures 0 <= after[k][l] < |e| && Describes(e[after[k][l]], k, dir[i := dir[i][..j] + dir[i][j + 1..]][k][l])
    {
      var q := After(i, j, k, l);
      assert Entry(idx, k, q) && after[k][l] == idx[k][q];
      Others(idx, spare, i, j, k, q);
    }
  }

  lemma Others(idx: seq<seq<int>>, spare: seq<int>, i: int, j: int, k: int, l: int)
    requires Separate(idx, spare) && Entry(idx, i, j) && Entry(idx, k, l)
    ensures idx[k][l] == idx[i][j] ==> k == i && l == j
    ensures j > 0 && idx[k][l] == idx[i][j - 1] ==> k == i && l == j - 1
  {
    if j > 0 { assert Entry(idx, i, j - 1); }
  }

  lemma OtherChain(desc: seq<Desc>, head: int, idx: seq<seq<int>>, spare: seq<int>, i: int, j: int, e: seq<Desc>, k: int)
    requires Separate(idx, spare) && Entry(idx, i, j) && Unlinked(desc, e, idx[i], j) && 0 <= k < |idx| && k != i && Linked(desc, head, idx[k])
    ensures Linked(e, head, idx[k])
  {
    forall l | 0 <= l < |idx[k]| ensures e[idx[k][l]] == desc[idx[k][l]] {
      assert Entry(idx, k, l);
      Others(idx, spare, i, j, k, l);
    }
    LinkedSame(desc, e, head, idx[k]);
  }

  lemma DropLinked(desc: seq<Desc>, head: int, s: seq<int>, j: int, e: seq<Desc>, idx: seq<seq<int>>, spare: seq<int>, i: int)
    requires Separate(idx, spare) && Entry(idx, i, j) && s == idx[i] && Linked(desc, head, s) && Unlinked(desc, e, s, j)
    ensures Linked(e, if j > 0 then head else desc[s[j]].next, s[..j] + s[j + 1..])
  {
    var t := s[..j] + s[j + 1..];
    assert desc[s[j]].next == NextOf(s, j);
    forall k | 0 <= k < |t| ensures 0 <= t[k] < |e| && e[t[k]].next == NextOf(t, k) {
      var q := if k >= j then k + 1 else k;
      assert t[k] == s[q] && desc[s[q]].next == NextOf(s, q) && Entry(idx, i, q);
      Others(idx, spare, i, j, i, q);
    }
  }

  class Heap {
    const mem: array<int>              // 32-bit words of memory
    var desc: seq<Desc>
    var chain: seq<int>                // bucket_dir[].chain
    var freeDesc: int                  // free_bucket_desc
    var pool: seq<int>                 // the free pages, in the order get_free_page gives them out
    ghost var dir: Dir
    ghost var idx: seq<seq<int>>
    ghost var spare: seq<int>

    /** Everything but "every page has a block in use". */
    ghost predicate Consistent()
      reads this, mem
      ensures Consistent() ==> |dir| == DIRS == |chain| == |idx|
    {
      Tables(desc, chain, freeDesc, dir, idx, spare) && Sound(dir, pool, mem.Length) && Threads(mem[..], dir)
    }

    ghost predicate Valid()
      reads this, mem
      ensures Valid() ==> |dir| == DIRS
    {
      Consistent() && InUse(dir)
    }

    /** An empty heap over the given free pages. */
    constructor (words: nat, pages: seq<int>)
      requires Distinct(pages) && forall p :: p in pages ==> IsPage(p, words)
      ensures Valid() && fresh(mem) && mem.Length == words && pool == pages && forall i, a :: !Live(dir, i, a)
    {
      mem := new int[words];
      desc := [];
      chain := seq(DIRS, _ => NULL);
      freeDesc := NULL;
      pool := pages;
      dir := seq(DIRS, _ => []);
      idx := seq(DIRS, _ => []);
      spare := [];
    }

    method GetFreePage() returns (page: int)
      requires pool != []
      modifies `pool
      ensures page == old(pool[0]) && pool == old(pool[1..])
    {
      page := pool[0];
      pool := pool[1..];
    }

    /** init_bucket_desc: a page of descriptors goes in front of the free ones. */
    method InitBucketDesc()
      requires Consistent() && pool != []
      modifies `desc, `freeDesc, `pool, `spare
      ensures Consistent() && pool == old(pool[1..]) && |desc| == |old(desc)| + DESCS_PER_PAGE && desc[..|old(desc)|] == old(desc)
      ensures |spare| == DESCS_PER_PAGE + |old(spare)| && spare[DESCS_PER_PAGE..] == old(spare)
    {
      hide Sound, Threads, Tables;
      PoolLess(dir, pool, mem.Length);
      var p := GetFreePage();
      var first := |desc|;
      var more: seq<Desc>;
      ghost var made: seq<int>;
      more, made := [], [];
      var i := DESCS_PER_PAGE;
      while i > 1
        invariant 1 <= i <= DESCS_PER_PAGE && |more| == |made| == DESCS_PER_PAGE - i
        invariant forall k :: 0 <= k < |more| ==> more[k].next == first + k + 1 && made[k] == first + k
      {
        more := more + [Desc(0, first + |more| + 1, 0, 0, 0)];
        made := made + [first + |made|];
        i := i - 1;
      }
      more := more + [Desc(0, freeDesc, 0, 0, 0)];
      made := made + [first + |made|];
      InitTables(desc, chain, freeDesc, dir, idx, spare, more, made);
      desc := desc + more;
      freeDesc := first;
      spare := made + spare;
    }

    /** The first descriptor of directory i with a free block, its place in the chain. */
    ghost predicate NoRoom(i: int)
      requires 0 <= i < |dir|
      reads `dir
    {
      forall j :: 0 <= j < |dir[i]| ==> dir[i][j].free == []
    }

    /** The pages malloc has to get: none while the chain has a free block. */
    ghost function PagesNeeded(i: int): int
      requires 0 <= i < |dir|
      reads `dir, `spare
    {
      if !NoRoom(i) then 0 else if spare != [] then 1 else 2
    }

    method FindFree(i: int) returns (d: int, ghost j: int)
      requires Consistent() && 0 <= i < DIRS
      ensures d == NULL <==> NoRoom(i)
      ensures d != NULL ==> In(dir, i, j) && Entry(idx, i, j) && d == idx[i][j] && dir[i][j].free != []
      ensures d != NULL ==> forall k :: 0 <= k < j ==> dir[i][k].free == []
    {
      hide Size, Blocks, Threads, Separate, Sound;
      assert Linked(desc, chain[i], idx[i]);
      d := chain[i];
      j := 0;
      while d != NULL
        invariant 0 <= j <= |idx[i]| && d == (if j < |idx[i]| then idx[i][j] else NULL)
        invariant forall k :: 0 <= k < j ==> dir[i][k].free == []
        decreases |idx[i]| - j
      {
        ChainEntry(desc, chain, dir, idx, pool, mem.Length, i, j);
        if desc[d].freeptr != 0 { return; }
        d := desc[d].next;
        j := j + 1;
      }
    }

    /** The chain of free blocks in a new page. */
    method ThreadPage(page: int, i: int)
      requires 0 <= i < DIRS && IsPage(page, mem.Length)
      modifies mem
      ensures Threaded(mem[..], AllBlocks(i, page, Blocks(i)))
      ensures forall w :: 0 <= w < mem.Length && !(page <= 4 * w < page + PAGE) ==> mem[w] == old(mem[w])
    {
      hide Size, Blocks;
      var cp := page;
      var n := PAGE / Size(i);
      CountBlocks(i);
      ghost var k := 0;
      ghost var all := AllBlocks(i, page, n);
      while n > 1
        invariant 1 <= n && k + n == Blocks(i) && cp == BlockAt(page, Size(i), k)
        invariant forall l :: 0 <= l < k ==> 0 <= all[l] / 4 < mem.Length && mem[all[l] / 4] == all[l + 1]
        invariant forall w :: 0 <= w < mem.Length && !(page <= 4 * w < page + PAGE) ==> mem[w] == old(mem[w])
      {
        CellAddress(i, page, k, mem.Length);
        forall l | 0 <= l < k ensures all[l] / 4 != cp / 4 { CellsDiffer(i, page, l, k); }
        mem[cp / 4] := cp + Size(i);
        cp := cp + Size(i);
        n := n - 1;
        k := k + 1;
      }
      CellAddress(i, page, k, mem.Length);
      forall l | 0 <= l < k ensures all[l] / 4 != cp / 4 { CellsDiffer(i, page, l, k); }
      mem[cp / 4] := 0;
      forall l | 0 <= l < |all| ensures 0 <= all[l] / 4 < |mem[..]| && mem[..][all[l] / 4] == First(all[l + 1..]) {
      }
    }

    /** malloc: a block of the smallest sufficient size that was not in use; the pages it takes
        are exactly those PagesNeeded says, and nothing in a block in use changes. */
    method Malloc(len: int) returns (r: int, ghost j: int)
      requires Valid() && 0 <= len <= PAGE && PagesNeeded(DirFor(len)) <= |pool|
      modifies this, mem
      ensures Valid() && pool == old(pool[PagesNeeded(DirFor(len))..])
      ensures (forall i :: !Live(old(dir), i, r)) && LiveIn(dir, DirFor(len), j, r)
      ensures forall i, a :: Live(dir, i, a) <==> Live(old(dir), i, a) || (i == DirFor(len) && a == r)
      ensures forall w :: 0 <= w < mem.Length && LiveWord(old(dir), w) ==> mem[w] == old(mem[w])
    {
      hide Sound, Threads, Tables, LiveIn, Live, LiveWord, Size, Blocks, BlockAt, InUse, InUseBut;
      var i := 0;
      while Size(i) < len
        invariant unchanged(this) && unchanged(mem)
        invariant 0 <= i < DIRS && forall k :: 0 <= k < i ==> Size(k) < len
        decreases DIRS - i
      {
        LastSize(i);
        i := i + 1;
      }
      DirForIs(len, i);
      var d;
      d, j := FindFree(i);
      AllInUse(dir, i, j);
      if d == NULL {
        d := NewBucket(i);
        j := 0;
      }
      TakeKeeps(dir, pool, mem.Length, i, j);
      TakeThreads(mem[..], dir, i, j);
      CellTables(desc, chain, freeDesc, dir, idx, spare, i, j, dir[i][j].free[1..]);
      ghost var free := dir[i][j].free;
      ghost var taken := desc[d := desc[d].(freeptr := First(free[1..]), refcnt := Blocks(i) - |free[1..]|)];
      r := desc[d].freeptr;
      desc := desc[d := desc[d].(freeptr := mem[r / 4])];
      desc := desc[d := desc[d].(refcnt := desc[d].refcnt + 1)];
      assert desc == taken;
      dir := Take(dir, i, j);
    }

    method NeedDesc()
      requires Consistent() && (spare == [] ==> pool != [])
      modifies `desc, `freeDesc, `pool, `spare
      ensures Consistent() && spare != [] && pool == if old(spare) == [] then old(pool[1..]) else old(pool)
    {
      hide Sound, Threads, ChainsOk, Separate;
      if freeDesc == NULL {
        InitBucketDesc();
      }
    }

    /** malloc's "didn't find a bucket with free space": a new page goes in front of the chain. */
    method NewBucket(i: int) returns (d: int)
      requires Valid() && 0 <= i < DIRS && NoRoom(i) && PagesNeeded(i) <= |pool|
      modifies this, mem
      ensures Consistent() && pool == old(pool[PagesNeeded(i)..])
      ensures Entry(idx, i, 0) && d == idx[i][0] && In(dir, i, 0) && dir[i][0].free != [] && InUseBut(dir, i, 0)
      ensures forall k, a :: Live(dir, k, a) <==> Live(old(dir), k, a)
      ensures forall w :: 0 <= w < mem.Length && LiveWord(old(dir), w) ==> mem[w] == old(mem[w])
    {
      hide Sound, Threads, Live, LiveWord, InUse, InUseBut, Size, Blocks, BlockAt, ChainsOk, Separate;
      NeedDesc();
      NewTables(desc, chain, dir, idx, spare, i, pool[0]);
      NewKeeps(dir, pool, mem.Length, i, pool[0]);
      d := freeDesc;
      freeDesc := desc[d].next;
      FreshPage(dir, pool, mem.Length);
      ghost var before, was := mem[..], pool;
      var page := GetFreePage();
      ThreadPage(page, i);
      NewThreads(mem[..], before, dir, was, i, page);
      OutsideLive(dir, was, mem.Length, page);
      desc := desc[d := Desc(page, chain[i], page, 0, Size(i))];
      chain := chain[i := d];
      dir := New(dir, i, page);
      idx := idx[i := [d] + idx[i]];
      spare := spare[1..];
      FreshBucket(i, page);
    }

    /** The chains free_s walks, in directories whose size is not below the given one. */
    method FindPage(page: int, size: int, ghost m: int, ghost n: int) returns (i: int, d: int, prev: int, ghost j: int)
      requires Consistent() && In(dir, m, n) && dir[m][n].page == page && size <= Size(m)
      ensures i == m && j == n && Entry(idx, i, j) && d == idx[i][j] && prev == if j > 0 then idx[i][j - 1] else NULL
    {
      hide Size, Blocks, Threads, Separate, Sound, Linked;
      i := 0;
      while i < DIRS
        invariant 0 <= i <= m
        decreases DIRS - i
      {
        prev := NULL;
        if Size(i) >= size {
          d := chain[i];
          j := 0;
          ChainStart(desc, chain, dir, idx, i);
          while d != NULL
            invariant 0 <= j <= |idx[i]| && d == (if j < |idx[i]| then idx[i][j] else NULL)
            invariant prev == if j > 0 then idx[i][j - 1] else NULL
            invariant i == m ==> j <= n
            decreases |idx[i]| - j
          {
            ChainEntry(desc, chain, dir, idx, pool, mem.Length, i, j);
            if desc[d].page == page {
              OnePage(dir, pool, mem.Length, i, j, m, n);
              return;
            }
            prev := d;
            d := desc[d].next;
            j := j + 1;
          }
        }
        i := i + 1;
      }
    }

    /** free_s of a block in use, with its size or 0: it is no longer in use, its page goes back
        to the free ones exactly when it was the last of its page, and nothing in a block that
        stays in use changes. */
    method FreeS(obj: int, size: int, ghost m: int, ghost n: int)
      requires Valid() && LiveIn(dir, m, n, obj) && size <= Size(m)
      modifies this, mem
      ensures Valid() && forall k, a :: Live(dir, k, a) <==> Live(old(dir), k, a) && a != obj
      ensures pool == if old(LastOnPage(dir, obj)) then old(pool) + [obj - obj % PAGE] else old(pool)
      ensures forall w :: 0 <= w < mem.Length && LiveWord(dir, w) ==> mem[w] == old(mem[w])
    {
      hide Sound, Threads, Live, LiveWord, InUse, Size, Blocks, BlockAt, LastOnPage, Tables, IsBlock;
      BlockPage(dir, pool, mem.Length, m, n, obj);
      var page := obj - obj % PAGE;
      var i, d, prev;
      ghost var j;
      i, d, prev, j := FindPage(page, size, m, n);
      ReturnKeeps(dir, pool, mem.Length, i, j, obj);
      ReturnThreads(mem[..], dir, pool, i, j, obj);
      CellTables(desc, chain, freeDesc, dir, idx, spare, i, j, [obj] + dir[i][j].free);
      ReturnWords(dir, pool, mem.Length, i, j, obj);
      LastIsLast(dir, pool, mem.Length, i, j, obj);
      ghost var free := [obj] + dir[i][j].free;
      ghost var pushed := desc[d := desc[d].(freeptr := First(free), refcnt := Blocks(i) - |free|)];
      mem[obj / 4] := desc[d].freeptr;
      desc := desc[d := desc[d].(freeptr := obj)];
      desc := desc[d := desc[d].(refcnt := desc[d].refcnt - 1)];
      assert desc == pushed;
      ghost var after := dir[i := dir[i][j := Bucket(dir[i][j].page, free)]];
      if desc[d].refcnt == 0 {
        ChainPlace(desc, chain, freeDesc, after, idx, spare, i, j);
        assert if prev != NULL then desc[prev].next == d else chain[i] == d;
        UnlinkedOk(desc, chain, freeDesc, after, idx, spare, i, j);
        ghost var unlinked := UnlinkedDesc(desc, idx[i], j, freeDesc);
        DropTables(desc, chain, freeDesc, after, idx, spare, i, j, unlinked);
        if prev != NULL {
          desc := desc[prev := desc[prev].(next := desc[d].next)];
        } else {
          chain := chain[i := desc[d].next];
        }
        pool := pool + [desc[d].page];
        desc := desc[d := desc[d].(next := freeDesc)];
        assert desc == unlinked;
        assert after[i := after[i][..j] + after[i][j + 1..]] == Return(dir, i, j, obj);
        freeDesc := d;
        idx := idx[i := idx[i][..j] + idx[i][j + 1..]];
        spare := [d] + spare;
      }
      dir := Return(dir, i, j, obj);
    }

    /** A caller stores in a block it holds. */
    method UserStore(w: int, v: int)
      requires Valid() && LiveWord(dir, w) && 0 <= w < mem.Length
      modifies mem
      ensures Valid() && mem[..] == old(mem[..])[w := v]
    {
      hide Sound, Threads, LiveWord, Tables, InUse;
      WriteKeeps(dir, pool, mem[..], w, v);
      mem[w] := v;
      assert mem[..] == old(mem[..])[w := v];
    }

    /** A run of mallocs, stores by the holders and frees: each block held is in use and at least
        as long as asked for, no two held blocks are the same, and every word still holds what
        its holder last stored there, whatever the others did.  The run ends early only where
        malloc would run out of pages. */
    method Run(ops: seq<Op>) returns (done: nat, addrs: seq<int>)
      requires Valid() && LegalRun(ops)
      modifies this, mem
      ensures Valid() && done <= |ops| && (done < |ops| ==> ops[done].Alloc? && |pool| < PagesNeeded(DirFor(ops[done].len)))
      ensures Holds(dir, mem[..], ops[..done], addrs)
    {
      hide Sound, Threads, Tables, Live, LiveWord, LiveIn, InUse, Size, Blocks, Holds, Stored, Handles;
      done, addrs := 0, [];
      HoldsNone(dir, mem[..]);
      while done < |ops|
        invariant Valid() && done <= |ops| && Holds(dir, mem[..], ops[..done], addrs)
      {
        assert ops[..done + 1] == ops[..done] + [ops[done]];
        assert Legal(Handles(ops[..done]), ops[done]);
        ghost var d, m, was := dir, mem[..], pool;
        match ops[done] {
          case Alloc(len) =>
            var enough := Enough(len);
            if !enough { return; }
            var r;
            ghost var j;
            r, j := Malloc(len);
            HoldsAlloc(d, m, was, ops[..done], addrs, len, r, dir, mem[..], j);
            addrs := addrs + [r];
          case Store(h, off, v) =>
            HeldWord(d, m, pool, ops[..done], addrs, h, off);
            UserStore(addrs[h] / 4 + off, v);
            HoldsStore(d, m, pool, ops[..done], addrs, h, off, v);
          case Free(h, size) =>
            ghost var i, j;
            i, j := HeldBlock(d, m, ops[..done], addrs, h, size);
            FreeS(addrs[h], size, i, j);
            HoldsFree(d, m, ops[..done], addrs, h, size, dir, mem[..], pool);
        }
        done := done + 1;
      }
    }

    /** Whether malloc(len) would find the pages it needs. */
    method Enough(len: int) returns (ok: bool)
      requires Valid() && 0 <= len <= PAGE
      ensures ok <==> PagesNeeded(DirFor(len)) <= |pool|
    {
      hide Sound, Threads, InUse, Size, Blocks, ChainsOk, Separate;
      var d;
      ghost var j;
      d, j := FindFree(DirFor(len));
      ok := d != NULL || |pool| >= (if freeDesc == NULL then 2 else 1);
    }
  }

  // ----- the callers' view: what each holder asked for and last stored

  datatype Op = Alloc(len: int) | Store(h: int, off: int, v: int) | Free(h: int, size: int)

  /** The h-th malloc's length, and whether its block is still held. */
  datatype Handle = Handle(len: int, held: bool)

  function Handles(ops: seq<Op>): seq<Handle> {
    if ops == [] then [] else NextHandles(Handles(ops[..|ops| - 1]), ops[|ops| - 1])
  }

  function NextHandles(hs: seq<Handle>, op: Op): seq<Handle> {
    match op
    case Alloc(len) => hs + [Handle(len, true)]
    case Store(_, _, _) => hs
    case Free(h, _) => if 0 <= h < |hs| then hs[h := Handle(hs[h].len, false)] else hs
  }

  function Stored(ops: seq<Op>): map<(int, int), int> {
    if ops == [] then map[]
    else
      var m := Stored(ops[..|ops| - 1]);
      match ops[|ops| - 1]
      case Store(h, off, v) => m[(h, off) := v]
      case _ => m
  }

  predicate Legal(hs: seq<Handle>, op: Op) {
    match op
    case Alloc(len) => 0 <= len <= PAGE
    case Store(h, off, _) => 0 <= h < |hs| && hs[h].held && 0 <= off && 4 * off + 4 <= hs[h].len
    case Free(h, size) => 0 <= h < |hs| && hs[h].held && size <= hs[h].len
  }

  ghost predicate LegalRun(ops: seq<Op>) {
    forall i :: 0 <= i < |ops| ==> Legal(Handles(ops[..i]), ops[i])
  }

  ghost predicate BlockFor(dir: Dir, a: int, len: int)
    requires |dir| == DIRS
  {
    exists i :: 0 <= i < DIRS && Live(dir, i, a) && len <= Size(i)
  }

  ghost predicate HoldsIn(dir: Dir, m: seq<int>, hs: seq<Handle>, stored: map<(int, int), int>, addrs: seq<int>)
    requires |dir| == DIRS
  {
    && |addrs| == |hs|
    && (forall h :: 0 <= h < |hs| && hs[h].held ==> BlockFor(dir, addrs[h], hs[h].len))
    && (forall h, k :: 0 <= h < |hs| && 0 <= k < |hs| && hs[h].held && hs[k].held && addrs[h] == addrs[k] ==> h == k)
    && (forall h, off :: (h, off) in stored ==> 0 <= h < |hs|)
    && (forall h, off :: (h, off) in stored && hs[h].held ==> 0 <= off && 4 * off + 4 <= hs[h].len)
    && (forall h, off :: (h, off) in stored && hs[h].held ==> Holding(m, addrs[h], off, stored[(h, off)]))
  }

  predicate Holding(m: seq<int>, a: int, off: int, v: int) {
    0 <= a / 4 + off < |m| && m[a / 4 + off] == v
  }

  ghost predicate Holds(dir: Dir, m: seq<int>, ops: seq<Op>, addrs: seq<int>)
    requires |dir| == DIRS
  {
    HoldsIn(dir, m, Handles(ops), Stored(ops), addrs)
  }

  lemma HoldsNone(dir: Dir, m: seq<int>)
    requires |dir| == DIRS
    ensures Holds(dir, m, [], [])
  {
  }

  lemma HandlesLast(ops: seq<Op>, op: Op)
    ensures Handles(ops + [op]) == NextHandles(Handles(ops), op)
    ensures Stored(ops + [op]) == if op.Store? then Stored(ops)[(op.h, op.off) := op.v] else Stored(ops)
  {
    assert (ops + [op])[..|ops|] == ops;
  }

  lemma HeldBlock(dir: Dir, m: seq<int>, ops: seq<Op>, addrs: seq<int>, h: int, size: int) returns (i: int, j: int)
    requires |dir| == DIRS && Holds(dir, m, ops, addrs) && Legal(Handles(ops), Free(h, size))
    ensures |addrs| == |Handles(ops)| && LiveIn(dir, i, j, addrs[h]) && size <= Size(i)
  {
    hide Handles, Stored, Size, LiveIn;
    assert BlockFor(dir, addrs[h], Handles(ops)[h].len);
    i :| 0 <= i < DIRS && Live(dir, i, addrs[h]) && Handles(ops)[h].len <= Size(i);
    j :| LiveIn(dir, i, j, addrs[h]);
  }

  /** Word off of a block in use that is long enough. */
  lemma BlockWord(dir: Dir, pool: seq<int>, words: int, a: int, len: int, off: int)
    requires Sound(dir, pool, words) && BlockFor(dir, a, len) && 0 <= off && 4 * off + 4 <= len
    ensures LiveWord(dir, a / 4 + off) && 0 <= a / 4 + off < words
  {
    hide Size, Blocks, IsBlock, IsPage, Sound;
    var i :| 0 <= i < DIRS && Live(dir, i, a) && len <= Size(i);
    var j :| LiveIn(dir, i, j, a);
    PageEnds(dir, pool, words, i, j);
    Aligned(i, dir[i][j].page, a);
    InPage(i, dir[i][j].page, a);
    WholeWord(a);
    assert 4 * (a / 4 + off) == a + 4 * off;
  }

  lemma PageEnds(dir: Dir, pool: seq<int>, words: int, i: int, j: int)
    requires Sound(dir, pool, words) && In(dir, i, j)
    ensures 0 < dir[i][j].page && dir[i][j].page % PAGE == 0 && dir[i][j].page + PAGE <= 4 * words
  {
    assert IsPage(dir[i][j].page, words);
  }

  lemma HeldWord(dir: Dir, m: seq<int>, pool: seq<int>, ops: seq<Op>, addrs: seq<int>, h: int, off: int)
    requires Sound(dir, pool, |m|) && Holds(dir, m, ops, addrs) && Legal(Handles(ops), Store(h, off, 0))
    ensures |addrs| == |Handles(ops)| && LiveWord(dir, addrs[h] / 4 + off) && 0 <= addrs[h] / 4 + off < |m|
  {
    hide Handles, Stored, Sound, LiveWord, BlockFor;
    BlockWord(dir, pool, |m|, addrs[h], Handles(ops)[h].len, off);
  }

  lemma WordsDiffer(dir: Dir, pool: seq<int>, words: int, a: int, len: int, off: int, b: int, size: int, at: int)
    requires Sound(dir, pool, words) && BlockFor(dir, a, len) && BlockFor(dir, b, size)
    requires 0 <= off && 4 * off + 4 <= len && 0 <= at && 4 * at + 4 <= size && (a != b || off != at)
    ensures a / 4 + off != b / 4 + at
  {
    hide Size, Blocks, IsBlock, Sound;
    var i :| 0 <= i < DIRS && Live(dir, i, a) && len <= Size(i);
    var j :| LiveIn(dir, i, j, a);
    var k :| 0 <= k < DIRS && Live(dir, k, b) && size <= Size(k);
    var l :| LiveIn(dir, k, l, b);
    PagesApart(dir, pool, words, i, j, k, l);
    Aligned(i, dir[i][j].page, a);
    Aligned(k, dir[k][l].page, b);
    if a != b { BlocksDisjoint(dir, pool, words, i, j, a, k, l, b); }
  }

  lemma HoldsAlloc(dir: Dir, m: seq<int>, pool: seq<int>, ops: seq<Op>, addrs: seq<int>, len: int, r: int, e: Dir, n: seq<int>, j: int)
    requires Sound(dir, pool, |m|) && Holds(dir, m, ops, addrs) && 0 <= len <= PAGE && |n| == |m| && |e| == DIRS
    requires (forall i :: !Live(dir, i, r)) && LiveIn(e, DirFor(len), j, r)
    requires forall i, a :: Live(e, i, a) <==> Live(dir, i, a) || (i == DirFor(len) && a == r)
    requires forall w :: 0 <= w < |m| && LiveWord(dir, w) ==> n[w] == m[w]
    ensures Holds(e, n, ops + [Alloc(len)], addrs + [r])
  {
    hide Handles, Stored, Sound, LiveWord, LiveIn, Size;
    HandlesLast(ops, Alloc(len));
    var hs, stored, after := Handles(ops), Stored(ops), addrs + [r];
    assert Live(e, DirFor(len), r);
    forall h | 0 <= h < |hs| && hs[h].held ensures BlockFor(e, addrs[h], hs[h].len) && addrs[h] != r {
      assert BlockFor(dir, addrs[h], hs[h].len);
      var i :| 0 <= i < DIRS && Live(dir, i, addrs[h]) && hs[h].len <= Size(i);
      assert Live(e, i, addrs[h]);
    }
    forall h, off | (h, off) in stored && hs[h].held ensures Holding(n, after[h], off, stored[(h, off)]) {
      assert Holding(m, addrs[h], off, stored[(h, off)]);
      BlockWord(dir, pool, |m|, addrs[h], hs[h].len, off);
    }
  }

  lemma HoldsStore(dir: Dir, m: seq<int>, pool: seq<int>, ops: seq<Op>, addrs: seq<int>, h: int, off: int, v: int)
    requires Sound(dir, pool, |m|) && Holds(dir, m, ops, addrs) && Legal(Handles(ops), Store(h, off, v))
    ensures |addrs| == |Handles(ops)| && 0 <= addrs[h] / 4 + off < |m|
    ensures Holds(dir, m[addrs[h] / 4 + off := v], ops + [Store(h, off, v)], addrs)
  {
    hide Handles, Stored, Sound, LiveWord, LiveIn, Size, BlockFor;
    HandlesLast(ops, Store(h, off, v));
    var hs, stored, w := Handles(ops), Stored(ops), addrs[h] / 4 + off;
    HeldWord(dir, m, pool, ops, addrs, h, off);
    forall k, at | (k, at) in stored[(h, off) := v] && hs[k].held
      ensures Holding(m[w := v], addrs[k], at, stored[(h, off) := v][(k, at)])
    {
      if (k, at) != (h, off) {
        assert Holding(m, addrs[k], at, stored[(k, at)]);
        WordsDiffer(dir, pool, |m|, addrs[h], hs[h].len, off, addrs[k], hs[k].len, at);
      }
    }
  }

  lemma HoldsFree(dir: Dir, m: seq<int>, ops: seq<Op>, addrs: seq<int>, h: int, size: int, e: Dir, n: seq<int>, pool: seq<int>)
    requires |dir| == DIRS && Holds(dir, m, ops, addrs) && Legal(Handles(ops), Free(h, size)) && |n| == |m| && Sound(e, pool, |n|)
    requires |addrs| == |Handles(ops)| && forall i, a :: Live(e, i, a) <==> Live(dir, i, a) && a != addrs[h]
    requires forall w :: 0 <= w < |m| && LiveWord(e, w) ==> n[w] == m[w]
    ensures Holds(e, n, ops + [Free(h, size)], addrs)
  {
    hide Handles, Stored, Sound, LiveWord, LiveIn, Size, Live;
    HandlesLast(ops, Free(h, size));
    var hs, stored := Handles(ops), Stored(ops);
    forall k | 0 <= k < |hs| && hs[k].held && k != h ensures BlockFor(e, addrs[k], hs[k].len) {
      assert BlockFor(dir, addrs[k], hs[k].len);
      var i :| 0 <= i < DIRS && Live(dir, i, addrs[k]) && hs[k].len <= Size(i);
      assert Live(e, i, addrs[k]);
    }
    forall k, off | (k, off) in stored && hs[k].held && k != h ensures Holding(n, addrs[k], off, stored[(k, off)]) {
      assert Holding(m, addrs[k], off, stored[(k, off)]);
      BlockWord(e, pool, |n|, addrs[k], hs[k].len, off);
    }
  }

  /** No other block of the page of a is in use. */
  ghost predicate LastOnPage(dir: Dir, a: int)
    requires |dir| == DIRS
  {
    forall k, b :: Live(dir, k, b) && b - b % PAGE == a - a % PAGE ==> b == a
  }

  /** The directory malloc chooses. */
  function DirFor(len: int): (i: int)
    requires len <= PAGE
    ensures 0 <= i < DIRS && len <= Size(i) && forall k :: 0 <= k < i ==> Size(k) < len
  {
    if len <= 16 then 0 else if len <= 32 then 1 else if len <= 64 then 2 else if len <= 128 then 3
    else if len <= 256 then 4 else if len <= 512 then 5 else if len <= 1024 then 6 else if len <= 2048 then 7 else 8
  }

  lemma DirForIs(len: int, i: int)
    requires len <= PAGE && 0 <= i < DIRS && len <= Size(i) && forall k :: 0 <= k < i ==> Size(k) < len
    ensures i == DirFor(len)
  {
  }

  lemma AllInUse(dir: Dir, i: int, j: int)
    requires |dir| == DIRS && InUse(dir)
    ensures InUseBut(dir, i, j)
  {
  }

  lemma LastSize(i: int)
    requires 0 <= i < DIRS && Size(i) < PAGE
    ensures i + 1 < DIRS
  {
  }

  lemma FreshPage(dir: Dir, pool: seq<int>, words: int)
    requires Sound(dir, pool, words) && pool != []
    ensures IsPage(pool[0], words)
  {
  }

  /** A free page holds no block in use. */
  lemma OutsideLive(dir: Dir, pool: seq<int>, words: int, page: int)
    requires Sound(dir, pool, words) && page in pool
    ensures forall w :: LiveWord(dir, w) ==> !(page <= 4 * w < page + PAGE)
  {
    forall w | LiveWord(dir, w) ensures !(page <= 4 * w < page + PAGE) { OutsideLiveWord(dir, pool, words, page, w); }
  }

  lemma OutsideLiveWord(dir: Dir, pool: seq<int>, words: int, page: int, w: int)
    requires Sound(dir, pool, words) && page in pool && LiveWord(dir, w)
    ensures 0 <= w < words && !(page <= 4 * w < page + PAGE)
  {
    hide Size, Blocks, IsBlock, Sound;
    var i, j, a :| LiveIn(dir, i, j, a) && a <= 4 * w < a + Size(i);
    InPage(i, dir[i][j].page, a);
    PageEnds(dir, pool, words, i, j);
    OtherPage(dir, pool, words, i, j, page);
  }

  lemma OtherPage(dir: Dir, pool: seq<int>, words: int, i: int, j: int, page: int)
    requires Sound(dir, pool, words) && In(dir, i, j) && page in pool
    ensures dir[i][j].page + PAGE <= page || page + PAGE <= dir[i][j].page
  {
    assert IsPage(dir[i][j].page, words) && IsPage(page, words) && dir[i][j].page != page;
  }

  lemma PoolLess(dir: Dir, pool: seq<int>, words: int)
    requires Sound(dir, pool, words) && pool != []
    ensures Sound(dir, pool[1..], words)
  {
  }

  /** A descriptor on a chain has a free block exactly when its freeptr is not NULL. */
  lemma ChainEntry(desc: seq<Desc>, chain: seq<int>, dir: Dir, idx: seq<seq<int>>, pool: seq<int>, words: int, i: int, j: int)
    requires ChainsOk(desc, chain, dir, idx) && Sound(dir, pool, words) && Entry(idx, i, j)
    ensures In(dir, i, j) && 0 <= idx[i][j] < |desc| && desc[idx[i][j]].next == NextOf(idx[i], j)
    ensures desc[idx[i][j]].freeptr == 0 <==> dir[i][j].free == []
  {
    hide Size, Blocks, IsBlock;
    assert Linked(desc, chain[i], idx[i]) && desc[idx[i][j]].next == NextOf(idx[i], j);
    assert Describes(desc[idx[i][j]], i, dir[i][j]);
    var b := dir[i][j];
    if b.free != [] {
      assert BucketOk(i, b) && IsBlock(i, b.page, b.free[0]);
      InPage(i, b.page, b.free[0]);
    }
  }

  lemma ChainStart(desc: seq<Desc>, chain: seq<int>, dir: Dir, idx: seq<seq<int>>, i: int)
    requires ChainsOk(desc, chain, dir, idx) && 0 <= i < DIRS
    ensures chain[i] == if |idx[i]| == 0 then NULL else idx[i][0]
    ensures forall j :: 0 <= j < |idx[i]| ==> idx[i][j] != NULL
  {
    assert Linked(desc, chain[i], idx[i]);
  }

  lemma ChainPlace(desc: seq<Desc>, chain: seq<int>, freeDesc: int, dir: Dir, idx: seq<seq<int>>, spare: seq<int>, i: int, j: int)
    requires Tables(desc, chain, freeDesc, dir, idx, spare) && Entry(idx, i, j)
    ensures chain[i] == idx[i][0]
    ensures j > 0 ==> 0 <= idx[i][j - 1] < |desc| && desc[idx[i][j - 1]].next == idx[i][j]
  {
    assert Linked(desc, chain[i], idx[i]);
    if j > 0 { assert desc[idx[i][j - 1]].next == NextOf(idx[i], j - 1); }
  }

  lemma OnePage(dir: Dir, pool: seq<int>, words: int, i: int, j: int, k: int, l: int)
    requires Sound(dir, pool, words) && In(dir, i, j) && In(dir, k, l) && dir[i][j].page == dir[k][l].page
    ensures i == k && j == l
  {
  }

  lemma BlockPage(dir: Dir, pool: seq<int>, words: int, i: int, j: int, a: int)
    requires Sound(dir, pool, words) && LiveIn(dir, i, j, a)
    ensures dir[i][j].page == a - a % PAGE
  {
    assert IsPage(dir[i][j].page, words);
    Aligned(i, dir[i][j].page, a);
  }

  lemma LastIsLast(dir: Dir, pool: seq<int>, words: int, i: int, j: int, a: int)
    requires Sound(dir, pool, words) && LiveIn(dir, i, j, a)
    ensures LastOnPage(dir, a) <==> |dir[i][j].free| + 1 == Blocks(i)
  {
    hide Size, Blocks, IsBlock, PagesOk;
    LastBlock(i, dir[i][j], a);
    BlockPage(dir, pool, words, i, j, a);
    if LastOnPage(dir, a) {
      forall b | IsBlock(i, dir[i][j].page, b) ensures b == a || b in dir[i][j].free {
        if b !in dir[i][j].free {
          assert LiveIn(dir, i, j, b) && Live(dir, i, b);
          BlockPage(dir, pool, words, i, j, b);
        }
      }
    }
    if |dir[i][j].free| + 1 == Blocks(i) {
      forall k, b | Live(dir, k, b) && b - b % PAGE == a - a % PAGE ensures b == a {
        var l :| LiveIn(dir, k, l, b);
        BlockPage(dir, pool, words, k, l, b);
        OnePage(dir, pool, words, i, j, k, l);
      }
    }
  }

  /** The first word of the block being freed is in no block that stays in use. */
  lemma ReturnWords(dir: Dir, pool: seq<int>, words: int, i: int, j: int, a: int)
    requires Sound(dir, pool, words) && InUse(dir) && LiveIn(dir, i, j, a)
    ensures forall w :: LiveWord(Return(dir, i, j, a), w) ==> w != a / 4
  {
    hide Size, Blocks, IsBlock, LiveWord, Sound, InUse;
    ReturnKeeps(dir, pool, words, i, j, a);
    BlockPage(dir, pool, words, i, j, a);
    var e := Return(dir, i, j, a);
    forall w | LiveWord(e, w) ensures w != a / 4 {
      if |dir[i][j].free| + 1 == Blocks(i) {
        OutsideLiveWord(e, pool + [dir[i][j].page], words, dir[i][j].page, w);
        WordInPage(a);
      } else {
        assert e[i][j].free[0] == a;
        CellsNotLive(e, pool, words, w, i, j, 0);
      }
    }
  }

  lemma WordInPage(a: int)
    ensures a - a % PAGE <= 4 * (a / 4) < a - a % PAGE + PAGE
  {
  }

  /** The descriptors after free_s has unlinked number j of chain s. */
  ghost function UnlinkedDesc(desc: seq<Desc>, s: seq<int>, j: int, freeDesc: int): seq<Desc>
    requires 0 <= j < |s| && 0 <= s[j] < |desc| && (j > 0 ==> 0 <= s[j - 1] < |desc|)
  {
    var e := if j > 0 then desc[s[j - 1] := desc[s[j - 1]].(next := desc[s[j]].next)] else desc;
    e[s[j] := e[s[j]].(next := freeDesc)]
  }

  lemma UnlinkedOk(desc: seq<Desc>, chain: seq<int>, freeDesc: int, dir: Dir, idx: seq<seq<int>>, spare: seq<int>, i: int, j: int)
    requires Tables(desc, chain, freeDesc, dir, idx, spare) && Entry(idx, i, j)
    ensures 0 <= idx[i][j] < |desc| && (j > 0 ==> 0 <= idx[i][j - 1] < |desc| && idx[i][j - 1] != idx[i][j])
    ensures var e := UnlinkedDesc(desc, idx[i], j, freeDesc); Unlinked(desc, e, idx[i], j) && e[idx[i][j]].next == freeDesc
  {
    assert forall k :: 0 <= k < |idx[i]| ==> Entry(idx, i, k);
  }

  lemma CountBlocks(i: int)
    requires 0 <= i < DIRS
    ensures PAGE / Size(i) == Blocks(i)
  {
  }

  lemma CellAddress(i: int, page: int, k: int, words: int)
    requires 0 <= i < DIRS && IsPage(page, words) && 0 <= k < Blocks(i)
    ensures var a := BlockAt(page, Size(i), k); 0 <= a / 4 < words && page <= 4 * (a / 4) < page + PAGE
    ensures BlockAt(page, Size(i), k) + Size(i) == BlockAt(page, Size(i), k + 1)
  {
    hide Size, Blocks, BlockAt;
    BlockBounds(i, page, k);
    assert IsBlock(i, page, BlockAt(page, Size(i), k));
    Aligned(i, page, BlockAt(page, Size(i), k));
    BlockAfter(page, Size(i), k);
  }

  lemma BlockAfter(page: int, size: int, k: int)
    ensures BlockAt(page, size, k) + size == BlockAt(page, size, k + 1)
  {
  }

  lemma CellsDiffer(i: int, page: int, l: int, k: int)
    requires 0 <= i < DIRS && page % PAGE == 0 && 0 <= l < k < Blocks(i)
    ensures BlockAt(page, Size(i), l) / 4 != BlockAt(page, Size(i), k) / 4
  {
    hide Size, Blocks;
    BlocksStep(Size(i), l, k);
  }
}
