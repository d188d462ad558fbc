/**
 The pointer structure of fs/buffer.c: buffer heads on doubly linked hash chains and on one
 circular free list.  The ghost fields `chains` and `ring` say what the pointers spell out.
 */
module BufferLists {

  const NR_HASH: int := 307

  class BufferHead {
    var data: seq<int>
    var block: nat               // b_blocknr
    var dev: nat                 // b_dev, 0 when the buffer is free
    var uptodate: bool
    var dirt: bool
    var count: nat
    var lock: bool
    var prev: BufferHead?
    var next: BufferHead?
    var prevFree: BufferHead?
    var nextFree: BufferHead?

    constructor ()
      ensures dev == 0 && !uptodate && !dirt && count == 0 && !lock && prev == null && next == null
    {
      data, block, dev, uptodate, dirt, count, lock := [], 0, 0, false, false, 0, false;
      prev, next, prevFree, nextFree := null, null, null, null;
    }
  }

  function Xor(a: nat, b: nat): nat {
    if a == 0 && b == 0 then 0
    else (if a % 2 != b % 2 then 1 else 0) + 2 * Xor(a / 2, b / 2)
  }

  /** _hashfn */
  function Hash(dev: nat, block: nat): (h: int)
    ensures 0 <= h < NR_HASH
  {
    Xor(dev, block) % NR_HASH
  }

  ghost predicate Distinct<T>(s: seq<T>) {
    forall i, j :: 0 <= i < j < |s| ==> s[i] != s[j]
  }

  lemma SameMap<K, V>(m: map<K, V>, n: map<K, V>)
    requires forall k :: k in m ==> k in n
    requires forall k :: k in n ==> k in m && m[k] == n[k]
    ensures m == n
  {
    assert m.Keys == n.Keys;
  }

  /** A sequence without its element k. */
  lemma Without<T>(c: seq<T>, k: int)
    requires 0 <= k < |c| && Distinct(c)
    ensures var d := c[..k] + c[k + 1..];
      Distinct(d) && |d| == |c| - 1 && forall i {:trigger d[i]} :: 0 <= i < |d| ==> d[i] == if i < k then c[i] else c[i + 1]
  {
  }

  lemma Others<T>(c: seq<T>, k: int)
    requires 0 <= k < |c| && Distinct(c)
    ensures var d := c[..k] + c[k + 1..]; c[k] !in d && forall b :: b in c && b != c[k] ==> b in d
  {
    Without(c, k);
    assert c == c[..k] + [c[k]] + c[k + 1..];
  }

  class BufferLists {
    const heads: seq<BufferHead>
    const hashTable: array<BufferHead?>
    var freeList: BufferHead?
    ghost var chains: seq<seq<BufferHead>>
    ghost var ring: seq<BufferHead>

    /** The free list is one ring through `ring`, starting at free_list. */
    ghost predicate RingOk()
      reads this`ring, this`freeList, heads`prevFree, heads`nextFree
    {
      && Distinct(ring)
      && (forall k {:trigger ring[k]} :: 0 <= k < |ring| ==> ring[k] in heads)
      && (ring != [] ==> freeList == ring[0])
      && (forall k {:trigger ring[k].nextFree} :: 0 <= k < |ring| ==> ring[k].nextFree == if k + 1 < |ring| then ring[k + 1] else ring[0])
      && (forall k {:trigger ring[k].prevFree} :: 0 <= k < |ring| ==> ring[k].prevFree == if k > 0 then ring[k - 1] else ring[|ring| - 1])
    }

    /** c is a null-terminated doubly linked list. */
    static ghost predicate Linked(c: seq<BufferHead>)
      reads c`prev, c`next
    {
      && Distinct(c)
      && (forall k {:trigger c[k].next} :: 0 <= k < |c| ==> c[k].next == if k + 1 < |c| then c[k + 1] else null)
      && (forall k {:trigger c[k].prev} :: 0 <= k < |c| ==> c[k].prev == if k > 0 then c[k - 1] else null)
    }

    /** Chain h is a doubly linked list of buffers whose hash is h. */
    ghost predicate ChainOk(h: int)
      requires 0 <= h < |chains| && hashTable.Length == NR_HASH == |chains|
      reads this`chains, hashTable, heads`prev, heads`next, heads`dev, heads`block
    {
      var c := chains[h];
      && hashTable[h] == (if c == [] then null else c[0])
      && (forall k {:trigger c[k]} :: 0 <= k < |c| ==> c[k] in heads && c[k].dev != 0 && Hash(c[k].dev, c[k].block) == h)
      && Linked(c)
    }

    ghost predicate ChainsOk()
      reads this`chains, hashTable, heads`prev, heads`next, heads`dev, heads`block
    {
      && hashTable.Length == NR_HASH == |chains|
      && (forall h :: 0 <= h < NR_HASH ==> ChainOk(h))
    }

    /** Every buffer with a device is on the chain of its hash, every other one has null links. */
    ghost predicate Hashed(b: BufferHead)
      requires |chains| == NR_HASH
      reads this`chains, b`prev, b`next, b`dev, b`block
    {
      if b.dev != 0 then b in chains[Hash(b.dev, b.block)] else b.prev == null && b.next == null
    }

    /** Taking element k out of a linked chain. */
    method Unlink(bh: BufferHead, ghost c: seq<BufferHead>, ghost k: int)
      requires Linked(c) && 0 <= k < |c| && c[k] == bh
      modifies c`prev, c`next
      ensures Linked(c[..k] + c[k + 1..])
      ensures bh.next == old(bh.next) && bh.prev == old(bh.prev)
    {
      if bh.next != null {
        assert bh.next == c[k + 1];
        bh.next.prev := bh.prev;
      }
      if bh.prev != null {
        assert bh.prev == c[k - 1];
        bh.prev.next := bh.next;
      }
      ghost var d := c[..k] + c[k + 1..];
      Without(c, k);
      forall i | 0 <= i < |d| ensures d[i].next == (if i + 1 < |d| then d[i + 1] else null) {
        assert d[i].next == if i + 1 == k then old(c[k].next) else old(d[i].next);
      }
      forall i | 0 <= i < |d| ensures d[i].prev == (if i > 0 then d[i - 1] else null) {
        assert d[i].prev == if i == k then old(c[k].prev) else old(d[i].prev);
      }
    }

    /** The loop of buffer_init: blank heads, linked in the order of their addresses. */
    static method InitHeads(start: seq<BufferHead>)
      requires start != [] && Distinct(start)
      modifies start
      ensures forall k {:trigger start[k]} :: 0 <= k < |start| ==> Blank(start[k])
      ensures forall k {:trigger start[k].nextFree} :: 0 <= k < |start| ==> start[k].nextFree == if k + 1 < |start| then start[k + 1] else start[0]
      ensures forall k {:trigger start[k].prevFree} :: 0 <= k < |start| ==> start[k].prevFree == if k > 0 then start[k - 1] else start[|start| - 1]
    {
      var i := 0;
      while i < |start|
        invariant 0 <= i <= |start|
        invariant forall k {:trigger start[k].nextFree} :: 0 <= k < i ==> start[k].nextFree == if k + 1 < |start| then start[k + 1] else start[0]
        invariant forall k {:trigger start[k].prevFree} :: 0 <= k < i ==> start[k].prevFree == if k > 0 then start[k - 1] else start[|start| - 1]
        invariant forall k {:trigger start[k]} :: 0 <= k < i ==> Blank(start[k])
      {
        InitHead(start[i], if i > 0 then start[i - 1] else start[|start| - 1], if i + 1 < |start| then start[i + 1] else start[0]);
        i := i + 1;
      }
    }

    static method InitHead(h: BufferHead, prevFree: BufferHead, nextFree: BufferHead)
      modifies h
      ensures Blank(h) && h.prevFree == prevFree && h.nextFree == nextFree
    {
      h.dev, h.dirt, h.count, h.lock, h.uptodate := 0, false, 0, false, false;
      h.next, h.prev := null, null;
      h.prevFree := prevFree;
      h.nextFree := nextFree;
    }

    static ghost predicate Blank(b: BufferHead)
      reads b
    {
      b.dev == 0 && !b.uptodate && !b.dirt && b.count == 0 && !b.lock && b.prev == null && b.next == null
    }

    /** buffer_init on the buffer heads that the memory holds: all free, in one ring. */
    constructor (start: seq<BufferHead>)
      requires start != [] && Distinct(start)
      modifies start
      ensures Valid() && fresh(hashTable) && heads == start && ring == start && Index() == map[]
      ensures forall b :: b in heads ==> Blank(b)
    {
      heads := start;
      hashTable := new BufferHead?[NR_HASH](_ => null);
      freeList := start[0];
      chains := seq(NR_HASH, _ => []);
      ring := start;
      InitHeads(start);
      new;
      AllBlank();
    }

    lemma AllBlank()
      requires hashTable.Length == NR_HASH && chains == seq(NR_HASH, _ => []) && ring == heads != [] && Distinct(heads) && freeList == heads[0]
      requires forall h :: 0 <= h < NR_HASH ==> hashTable[h] == null
      requires forall k {:trigger heads[k]} :: 0 <= k < |heads| ==> Blank(heads[k])
      requires forall k {:trigger heads[k].nextFree} :: 0 <= k < |heads| ==> heads[k].nextFree == if k + 1 < |heads| then heads[k + 1] else heads[0]
      requires forall k {:trigger heads[k].prevFree} :: 0 <= k < |heads| ==> heads[k].prevFree == if k > 0 then heads[k - 1] else heads[|heads| - 1]
      ensures Valid() && Index() == map[]
      ensures forall b :: b in heads ==> Blank(b)
    {
      forall b | b in heads ensures Blank(b) {
        var k :| 0 <= k < |heads| && heads[k] == b;
      }
    }

    lemma Apart(g: int, h: int)
      requires ChainsOk() && 0 <= g < NR_HASH && 0 <= h < NR_HASH && g != h
      ensures forall b :: b in chains[g] ==> b !in chains[h]
    {
      assert ChainOk(g) && ChainOk(h);
    }

    /** remove_from_queues, first half: off the hash chain.  A buffer without a device is on no
        chain: its links are null, no chain starts with it, and nothing is stored. */
    method UnlinkHash(bh: BufferHead)
      requires ChainsOk() && bh in heads && Hashed(bh)
      modifies heads`prev, heads`next, hashTable, this`chains
      ensures ChainsOk()
      ensures forall h :: 0 <= h < NR_HASH ==> bh !in chains[h]
      ensures forall b, h :: 0 <= h < NR_HASH && b != bh ==> (b in chains[h] <==> b in old(chains)[h])
      ensures forall b :: b in heads && b.dev == 0 ==> b.prev == old(b.prev) && b.next == old(b.next)
    {
      if bh.dev != 0 {
        UnlinkChain(bh, Hash(bh.dev, bh.block));
      } else {
        forall h | 0 <= h < NR_HASH ensures bh !in chains[h] && hashTable[h] != bh { assert ChainOk(h); }
      }
    }

    method UnlinkChain(bh: BufferHead, h: int)
      requires ChainsOk() && bh in heads && bh.dev != 0 && h == Hash(bh.dev, bh.block) && bh in chains[h]
      modifies heads`prev, heads`next, hashTable, this`chains
      ensures ChainsOk()
      ensures forall g :: 0 <= g < NR_HASH ==> bh !in chains[g]
      ensures forall b, g :: 0 <= g < NR_HASH && b != bh ==> (b in chains[g] <==> b in old(chains)[g])
      ensures forall b :: b in heads && b.dev == 0 ==> b.prev == old(b.prev) && b.next == old(b.next)
    {
      ghost var c := chains[h];
      assert ChainOk(h);
      forall g | 0 <= g < NR_HASH && g != h ensures forall b :: b in c ==> b !in chains[g] {
        Apart(g, h);
      }
      ghost var k :| 0 <= k < |c| && c[k] == bh;
      Unlink(bh, c, k);
      if hashTable[h] == bh {
        hashTable[h] := bh.next;
      }
      forall g | 0 <= g < NR_HASH && g != h ensures ChainOk(g) && bh !in chains[g] {
        ChainKept(g);
      }
      DropMember(bh, h, c, k);
    }

    static twostate lemma LinkedKept(c: seq<BufferHead>)
      requires old(Linked(c)) && forall k :: 0 <= k < |c| ==> c[k].next == old(c[k].next) && c[k].prev == old(c[k].prev)
      ensures Linked(c)
    {
    }

    /** A chain whose buffers and head are untouched. */
    twostate lemma ChainKept(g: int)
      requires 0 <= g < |chains| && hashTable.Length == NR_HASH == |chains| && old(hashTable.Length == NR_HASH == |chains|) && old(ChainOk(g))
      requires chains[g] == old(chains[g]) && hashTable[g] == old(hashTable[g])
      requires forall b :: b in chains[g] ==> b.next == old(b.next) && b.prev == old(b.prev) && b.dev == old(b.dev) && b.block == old(b.block)
      ensures ChainOk(g)
    {
      hide Linked, Hash;
      var c := chains[g];
      forall k | 0 <= k < |c| ensures c[k].next == old(c[k].next) && c[k].prev == old(c[k].prev) && c[k].dev == old(c[k].dev) && c[k].block == old(c[k].block) {
        assert c[k] in c;
      }
      LinkedKept(c);
    }

    ghost method DropMember(bh: BufferHead, h: int, c: seq<BufferHead>, k: int)
      requires hashTable.Length == NR_HASH == |chains| && 0 <= h < NR_HASH && c == chains[h]
      requires forall g :: 0 <= g < NR_HASH && g != h ==> ChainOk(g) && bh !in chains[g]
      requires 0 <= k < |c| && c[k] == bh && Distinct(c) && Linked(c[..k] + c[k + 1..])
      requires forall i {:trigger c[i]} :: 0 <= i < |c| ==> c[i] in heads && c[i].dev != 0 && Hash(c[i].dev, c[i].block) == h
      requires hashTable[h] == if k > 0 then c[0] else if |c| > 1 then c[1] else null
      modifies this`chains
      ensures ChainsOk() && chains == old(chains)[h := c[..k] + c[k + 1..]]
      ensures forall g :: 0 <= g < NR_HASH ==> bh !in chains[g]
      ensures forall b, g :: 0 <= g < NR_HASH && b != bh ==> (b in chains[g] <==> b in old(chains)[g])
    {
      assert forall b :: b != bh ==> (b in c <==> b in c[..k] || b in c[k + 1..]) by { assert c == c[..k] + [bh] + c[k + 1..]; }
      ghost var d := c[..k] + c[k + 1..];
      chains := chains[h := d];
      assert forall i :: 0 <= i < |d| ==> d[i] == if i < k then c[i] else c[i + 1];
      assert ChainOk(h);
      forall g | 0 <= g < NR_HASH && g != h ensures ChainOk(g) {
        assert old(ChainOk(g));
      }
    }

    /** remove_from_queues, second half: off the free ring.  With a ring of one buffer the
        pointers keep pointing at it until it is linked in again. */
    method UnlinkFree(bh: BufferHead, ghost k: int)
      requires RingOk() && 0 <= k < |ring| && ring[k] == bh
      modifies heads`prevFree, heads`nextFree, this`freeList, this`ring
      ensures RingOk() && ring == old(ring)[..k] + old(ring)[k + 1..]
      ensures |old(ring)| == 1 ==> freeList == bh && bh.nextFree == bh && bh.prevFree == bh
    {
      assert bh.nextFree == (if k + 1 < |ring| then ring[k + 1] else ring[0]);
      assert bh.prevFree == (if k > 0 then ring[k - 1] else ring[|ring| - 1]);
      bh.prevFree.nextFree := bh.nextFree;
      bh.nextFree.prevFree := bh.prevFree;
      if freeList == bh {
        freeList := bh.nextFree;
      }
      Without(ring, k);
      ghost var r, n := ring[..k] + ring[k + 1..], |ring| - 1;
      forall i | 0 <= i < n ensures r[i].nextFree == (if i + 1 < n then r[i + 1] else r[0]) {
        assert r[i].nextFree == if i == (if k > 0 then k - 1 else n - 1) then old(bh.nextFree) else old(r[i].nextFree);
      }
      forall i | 0 <= i < n ensures r[i].prevFree == (if i > 0 then r[i - 1] else r[n - 1]) {
        assert r[i].prevFree == if i == (if k < n then k else 0) then old(bh.prevFree) else old(r[i].prevFree);
      }
      ring := r;
    }

    /** insert_into_queues, first half: at the end of the free ring. */
    method LinkFree(bh: BufferHead)
      requires RingOk() && bh !in ring && bh in heads && freeList != null
      requires ring == [] ==> freeList == bh && bh.nextFree == bh && bh.prevFree == bh
      modifies heads`prevFree, heads`nextFree, this`ring
      ensures RingOk() && ring == old(ring) + [bh]
    {
      ghost var r := ring + [bh];
      assert ring != [] ==> freeList == ring[0] && freeList.prevFree == ring[|ring| - 1];
      bh.nextFree := freeList;
      bh.prevFree := freeList.prevFree;
      freeList.prevFree.nextFree := bh;
      freeList.prevFree := bh;
      ring := r;
    }

    /** Putting a buffer in front of a linked chain. */
    method Push(bh: BufferHead, ghost c: seq<BufferHead>, first: BufferHead?)
      requires Linked(c) && bh !in c && first == if c == [] then null else c[0]
      modifies bh`prev, bh`next, c`prev
      ensures Linked([bh] + c)
    {
      ghost var d := [bh] + c;
      assert forall i :: 0 < i < |d| ==> d[i] == c[i - 1];
      bh.next := first;
      bh.prev := null;
      if bh.next != null {
        bh.next.prev := bh;
      }
    }

    /** insert_into_queues, second half: at the head of its hash chain, with the null guard
        that the comment at buffer.c:174-175 asks for. */
    method LinkHash(bh: BufferHead)
      requires ChainsOk() && bh in heads
      requires forall h :: 0 <= h < NR_HASH ==> bh !in chains[h]
      modifies heads`prev, heads`next, hashTable, this`chains
      ensures ChainsOk() && Hashed(bh)
      ensures forall b, h :: 0 <= h < NR_HASH && b != bh ==> (b in chains[h] <==> b in old(chains)[h])
      ensures forall b :: b in heads && b != bh && b.dev == 0 ==> b.prev == old(b.prev) && b.next == old(b.next)
    {
      bh.prev := null;
      bh.next := null;
      forall g | 0 <= g < NR_HASH ensures ChainOk(g) { assert old(ChainOk(g)); }
      if bh.dev == 0 {
        return;
      }
      LinkChain(bh, Hash(bh.dev, bh.block));
    }

    method LinkChain(bh: BufferHead, h: int)
      requires ChainsOk() && bh in heads && bh.dev != 0 && h == Hash(bh.dev, bh.block)
      requires forall g :: 0 <= g < NR_HASH ==> bh !in chains[g]
      modifies heads`prev, heads`next, hashTable, this`chains
      ensures ChainsOk() && bh in chains[h]
      ensures forall b, g :: 0 <= g < NR_HASH && b != bh ==> (b in chains[g] <==> b in old(chains)[g])
      ensures forall b :: b in heads && b != bh && b.dev == 0 ==> b.prev == old(b.prev) && b.next == old(b.next)
    {
      ghost var c := chains[h];
      assert ChainOk(h);
      forall g | 0 <= g < NR_HASH && g != h ensures forall b :: b in c ==> b !in chains[g] {
        Apart(g, h);
      }
      Push(bh, c, hashTable[h]);
      hashTable[h] := bh;
      forall g | 0 <= g < NR_HASH && g != h ensures ChainOk(g) {
        assert old(ChainOk(g));
      }
      AddMember(bh, h, c);
    }

    ghost method AddMember(bh: BufferHead, h: int, c: seq<BufferHead>)
      requires hashTable.Length == NR_HASH == |chains| && 0 <= h < NR_HASH && c == chains[h] && hashTable[h] == bh
      requires bh in heads && bh.dev != 0 && Hash(bh.dev, bh.block) == h && Linked([bh] + c)
      requires forall i {:trigger c[i]} :: 0 <= i < |c| ==> c[i] in heads && c[i].dev != 0 && Hash(c[i].dev, c[i].block) == h
      requires forall g :: 0 <= g < NR_HASH && g != h ==> ChainOk(g)
      modifies this`chains
      ensures ChainsOk() && bh in chains[h]
      ensures forall b, g :: 0 <= g < NR_HASH && b != bh ==> (b in chains[g] <==> b in old(chains)[g])
    {
      ghost var d := [bh] + c;
      chains := chains[h := d];
      assert forall i :: 0 < i < |d| ==> d[i] == c[i - 1];
      assert ChainOk(h);
      assert d[0] == bh;
      forall g | 0 <= g < NR_HASH && g != h ensures ChainOk(g) {
        assert old(ChainOk(g));
      }
    }

    ghost predicate AllHashed()
      requires |chains| == NR_HASH
      reads this`chains, heads`prev, heads`next, heads`dev, heads`block
    {
      forall b :: b in heads ==> Hashed(b)
    }

    /** No two buffers carry the same (dev, block) with dev non-zero. */
    ghost predicate Unique()
      reads heads`dev, heads`block
    {
      forall a, b :: a in heads && b in heads && a.dev != 0 && a.dev == b.dev && a.block == b.block ==> a == b
    }

    ghost predicate OnRing()
      reads this`ring
    {
      |ring| == |heads| > 0 && Distinct(heads) && forall b :: b in heads ==> b in ring
    }

    ghost predicate Valid()
      ensures Valid() ==> Unique()
      reads this, hashTable, heads`prev, heads`next, heads`prevFree, heads`nextFree, heads`dev, heads`block
    {
      ChainsOk() && RingOk() && AllHashed() && Unique() && OnRing()
    }

    /** The cache as a map from (dev, block). */
    ghost function Index(): map<(nat, nat), BufferHead>
      requires Unique()
      reads heads`dev, heads`block
    {
      map b | b in heads && b.dev != 0 :: (b.dev, b.block) := b
    }

    /** find_buffer succeeds exactly when the block is cached. */
    method FindBuffer(dev: nat, block: nat) returns (r: BufferHead?)
      requires Valid()
      ensures r == null <==> (dev, block) !in Index()
      ensures r != null ==> r == Index()[(dev, block)] && r in heads && r.dev == dev != 0 && r.block == block
    {
      var h := Hash(dev, block);
      ghost var c := chains[h];
      assert ChainOk(h);
      if (dev, block) in Index() {
        assert Hashed(Index()[(dev, block)]);
      }
      assert (dev, block) in Index() ==> Index()[(dev, block)] in c;
      ghost var k := 0;
      var tmp := hashTable[h];
      while tmp != null
        invariant 0 <= k <= |c| && tmp == if k < |c| then c[k] else null
        invariant forall j {:trigger c[j]} :: 0 <= j < k ==> !(c[j].dev == dev && c[j].block == block)
        decreases |c| - k
      {
        if tmp.dev == dev && tmp.block == block {
          assert (tmp.dev, tmp.block) in Index();
          return tmp;
        }
        assert c[k].next == if k + 1 < |c| then c[k + 1] else null;
        tmp := tmp.next;
        k := k + 1;
      }
      return null;
    }

    /** bh is on neither structure, every other buffer is on both. */
    ghost predicate Detached(bh: BufferHead)
      reads this, hashTable, heads`prev, heads`next, heads`prevFree, heads`nextFree, heads`dev, heads`block
    {
      && ChainsOk() && RingOk() && bh in heads && Distinct(heads) && |ring| + 1 == |heads| && bh !in ring
      && (forall h :: 0 <= h < NR_HASH ==> bh !in chains[h])
      && (forall b :: b in heads && b != bh ==> Hashed(b) && b in ring)
      && freeList != null
      && (ring == [] ==> freeList == bh && bh.nextFree == bh && bh.prevFree == bh)
    }

    method RemoveFromQueues(bh: BufferHead, ghost k: int)
      requires Valid() && bh in heads && 0 <= k < |ring| && ring[k] == bh
      modifies this, hashTable, heads`prev, heads`next, heads`prevFree, heads`nextFree
      ensures Detached(bh) && ring == old(ring)[..k] + old(ring)[k + 1..]
    {
      Others(ring, k);
      hide ChainsOk, RingOk;
      UnlinkHash(bh);
      UnlinkFree(bh, k);
      forall b | b in heads && b != bh ensures Hashed(b) && b in ring {
        assert old(Hashed(b)) && b in old(ring);
      }
    }

    method InsertIntoQueues(bh: BufferHead)
      requires Detached(bh)
      modifies this, hashTable, heads`prev, heads`next, heads`prevFree, heads`nextFree
      ensures ChainsOk() && RingOk() && AllHashed() && OnRing() && ring == old(ring) + [bh]
    {
      LinkFree(bh);
      LinkHash(bh);
      forall b | b in heads && b != bh ensures Hashed(b) && b in ring {
        assert old(Hashed(b)) && b in old(ring);
      }
      assert ring[|ring| - 1] == bh;
    }

    /** What getblk does with the buffer it has chosen: only that buffer moves, to the tail of
        the free ring and to the chain of its new hash. */
    method Rename(bh: BufferHead, dev: nat, block: nat)
      requires Valid() && bh in heads && (dev, block) !in Index()
      modifies this, hashTable, heads`prev, heads`next, heads`prevFree, heads`nextFree, bh`dev, bh`block
      ensures Valid() && bh.dev == dev && bh.block == block
      ensures exists k :: 0 <= k < |old(ring)| && old(ring)[k] == bh && ring == old(ring)[..k] + old(ring)[k + 1..] + [bh]
      ensures Index() == if dev != 0 then (old(Index()) - {(old(bh.dev), old(bh.block))})[(dev, block) := bh]
                         else old(Index()) - {(old(bh.dev), old(bh.block))}
    {
      hide ChainsOk, RingOk;
      ghost var k :| 0 <= k < |ring| && ring[k] == bh;
      RemoveFromQueues(bh, k);
      SetIdentity(bh, dev, block);
      InsertIntoQueues(bh);
      OneRenamed(old(Index()), bh, old(bh.dev), old(bh.block));
    }

    method SetIdentity(bh: BufferHead, dev: nat, block: nat)
      requires Detached(bh)
      modifies bh`dev, bh`block
      ensures Detached(bh) && bh.dev == dev && bh.block == block
    {
      bh.dev := dev;
      bh.block := block;
      forall h | 0 <= h < NR_HASH ensures ChainOk(h) { assert old(ChainOk(h)); }
      forall b | b in heads && b != bh ensures Hashed(b) { assert old(Hashed(b)); }
    }

    /** The index when only bh has a new identity. */
    lemma OneRenamed(was: map<(nat, nat), BufferHead>, bh: BufferHead, dev0: nat, block0: nat)
      requires bh in heads && (bh.dev, bh.block) !in was
      requires forall b :: b in heads && b != bh && b.dev != 0 ==> (b.dev, b.block) in was && was[(b.dev, b.block)] == b
      requires forall k :: k in was ==> was[k] in heads && k.0 != 0 && (was[k] == bh <==> k == (dev0, block0))
      requires forall k :: k in was && was[k] != bh ==> (was[k].dev, was[k].block) == k
      ensures Unique()
      ensures Index() == if bh.dev != 0 then (was - {(dev0, block0)})[(bh.dev, bh.block) := bh] else was - {(dev0, block0)}
    {
      var r := if bh.dev != 0 then (was - {(dev0, block0)})[(bh.dev, bh.block) := bh] else was - {(dev0, block0)};
      forall k | k in r ensures k in Index() && Index()[k] == r[k] {
        var b := r[k];
        assert b in heads && b.dev != 0 && (b.dev, b.block) == k;
      }
      forall k | k in Index() ensures k in r {
        var b := Index()[k];
        assert b in heads && b.dev != 0 && (b.dev, b.block) == k;
      }
      SameMap(Index(), r);
    }
  }
}
