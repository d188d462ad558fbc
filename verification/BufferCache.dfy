/**
 getblk, bread, brelse and sync_dev of fs/buffer.c as threads that run from one sleep point
 to the next, together with the locking of ll_rw_blk.c and a device that completes its
 requests.  Each call of getblk is a thread; threads are resumed in any order.
 */
module BufferCache {
  import opened BufferLists

  type Id = (nat, nat)           // (dev, block)
  type Block = seq<int>

  /** Where a thread sleeps.  WaitLock is the wait_on_buffer of lines 256 and 262; Sync stands
      before buffer number i in pass 1 or 2 of sync_dev(sdev). */
  datatype Pc =
    | WaitHash(dev: nat, block: nat, bh: BufferHead)
    | WaitAny(dev: nat, block: nat)
    | WaitLock(dev: nat, block: nat, bh: BufferHead)
    | Sync(dev: nat, block: nat, bh: BufferHead, sdev: nat, i: nat, pass: int)
    | Holding(dev: nat, block: nat, bh: BufferHead)
    | Reading(dev: nat, block: nat, bh: BufferHead)

  /** A locked buffer waits for a request slot or has its request queued. */
  datatype Cmd = AwaitRead | AwaitWrite | ReadQueued | WriteQueued

  ghost predicate Total(d: imap<Id, Block>) {
    forall dev: nat, block: nat :: (dev, block) in d
  }

  lemma TotalAt(d: imap<Id, Block>, dev: nat, block: nat)
    requires Total(d)
    ensures (dev, block) in d
  {
  }

  predicate Pins(pc: Pc, b: BufferHead) {
    (pc.WaitHash? || pc.Holding? || pc.Reading?) && pc.bh == b
  }

  /** The threads that hold a reference to b. */
  ghost function Pinners(threads: map<int, Pc>, b: BufferHead): set<int> {
    set t | t in threads && Pins(threads[t], b)
  }

  lemma PinnersWithout(threads: map<int, Pc>, t: int, b: BufferHead)
    requires t in threads
    ensures |Pinners(threads, b)| == |Pinners(threads - {t}, b)| + if Pins(threads[t], b) then 1 else 0
  {
    var r, s := Pinners(threads - {t}, b), Pinners(threads, b);
    if Pins(threads[t], b) {
      assert s == r + {t};
    } else {
      assert s == r;
    }
  }

  lemma PinnersWith(threads: map<int, Pc>, t: int, pc: Pc, b: BufferHead)
    requires t !in threads
    ensures |Pinners(threads[t := pc], b)| == |Pinners(threads, b)| + if Pins(pc, b) then 1 else 0
  {
    PinnersWithout(threads[t := pc], t, b);
    assert threads[t := pc] - {t} == threads;
  }

  lemma NoPinners(threads: map<int, Pc>, b: BufferHead)
    ensures |Pinners(threads, b)| == 0 <==> forall r :: r in threads ==> !Pins(threads[r], b)
  {
    var p := Pinners(threads, b);
    if |p| == 0 {
      assert p == {};
      forall r | r in threads ensures !Pins(threads[r], b) { assert r !in p; }
    }
    if forall r :: r in threads ==> !Pins(threads[r], b) {
      assert p == {};
    }
  }

  class BufferCache {
    const lists: BufferLists
    var threads: map<int, Pc>
    var pending: map<BufferHead, Cmd>
    var disk: imap<Id, Block>        // total

    /** What a sleeping thread may rely on. */
    ghost predicate PcOk(pc: Pc)
      reads lists.heads
    {
      && pc.dev != 0
      && (!pc.WaitAny? ==> pc.bh in lists.heads)
      && (pc.Holding? || pc.Reading? ==> pc.bh.dev == pc.dev && pc.bh.block == pc.block)
      && (pc.Sync? ==> pc.i <= |lists.heads| && pc.sdev != 0)
    }

    /** References, locks and the relation of a buffer to its block on disk. */
    ghost predicate BufferOk(b: BufferHead)
      reads this, b
    {
      && b.count == |Pinners(threads, b)|
      && (b.lock <==> b in pending)
      && (b.dirt ==> b.uptodate)
      && (b in pending ==> (b.uptodate <==> pending[b].AwaitWrite? || pending[b].WriteQueued?))
      && (b.dev == 0 ==> !b.uptodate && b !in pending)
      && (b.uptodate && !b.dirt && !(b in pending && pending[b].WriteQueued?) ==> (b.dev, b.block) in disk && b.data == disk[(b.dev, b.block)])
    }

    ghost predicate Valid()
      reads this, lists, lists.hashTable, lists.heads
    {
      && lists.Valid()
      && (forall t :: t in threads ==> PcOk(threads[t]))
      && (forall b :: b in lists.heads ==> BufferOk(b))
      && (forall b :: b in pending ==> b in lists.heads)
      && Total(disk)
    }

    /** What a reader of the block device sees: the up-to-date buffers over the disk. */
    ghost function Overlay(): imap<Id, Block>
      requires Valid()
      reads this, lists, lists.hashTable, lists.heads
    {
      imap k: Id | true :: Reads(k.0, k.1)
    }

    twostate predicate Retaken(b: BufferHead)
      reads b
    {
      b.dev != old(b.dev) || b.block != old(b.block) || b.uptodate != old(b.uptodate)
    }

    /** Only unreferenced, unlocked and clean buffers are given a new identity. */
    twostate predicate TakesIdle()
      reads lists.heads
    {
      forall b :: b in lists.heads && Retaken(b) ==> old(b.count) == 0 && !old(b.lock) && !old(b.dirt)
    }

    /** A buffer is given a new identity only when it is unlocked, clean and referenced by no
        thread other than t. */
    twostate predicate IdentityKept(t: int)
      reads this, lists.heads
    {
      forall b :: b in lists.heads && Retaken(b) ==>
        && !old(b.lock) && !old(b.dirt)
        && (forall s :: s in old(threads) && s != t ==> !Pins(old(threads)[s], b))
    }

    /** A step that moves no data and renames nothing. */
    twostate lemma QuietStep()
      requires old(Valid()) && lists.Valid() && disk == old(disk)
      requires forall b :: b in lists.heads ==> b.dev == old(b.dev) && b.block == old(b.block) && b.uptodate == old(b.uptodate) && b.data == old(b.data)
      requires Valid()
      ensures Overlay() == old(Overlay())
    {
      assert lists.Index() == old(lists.Index());
    }

    lemma ThreadFacts(t: int)
      requires Valid() && t in threads
      ensures PcOk(threads[t])
    {
    }

    lemma BufferFacts(b: BufferHead)
      requires Valid() && b in lists.heads
      ensures BufferOk(b) && lists.Valid()
    {
    }

    lemma PendingFacts(b: BufferHead)
      requires Valid() && b in pending
      ensures b in lists.heads && BufferOk(b) && lists.Valid() && Total(disk) && forall c :: c in pending ==> c in lists.heads
    {
    }

    constructor (start: seq<BufferHead>, contents: imap<Id, Block>)
      requires start != [] && Distinct(start) && Total(contents)
      modifies start
      ensures Valid() && fresh(lists) && fresh(lists.hashTable) && lists.heads == start
      ensures threads == map[] && disk == contents && Overlay() == contents
    {
      lists := new BufferLists(start);
      threads, pending, disk := map[], map[], contents;
      new;
      assert lists.Index() == map[];
    }

    /** Thread t goes to sleep (or keeps its buffer) at pc; a new reference is counted. */
    method SetThread(t: int, pc: Pc)
      requires Valid() && t !in threads && PcOk(pc)
      modifies this`threads, lists.heads`count
      ensures Valid() && threads == old(threads)[t := pc] && Snap() == old(Snap()).(threads := threads) && Overlay() == old(Overlay())
      ensures forall b :: b in lists.heads ==> b.count == old(b.count) + if Pins(pc, b) then 1 else 0
    {
      hide lists.Valid, Pinners;
      if pc.WaitHash? || pc.Holding? || pc.Reading? {
        pc.bh.count := pc.bh.count + 1;
      }
      forall b ensures |Pinners(threads[t := pc], b)| == |Pinners(threads, b)| + (if Pins(pc, b) then 1 else 0) {
        PinnersWith(threads, t, pc, b);
      }
      threads := threads[t := pc];
      ThreadSet(t);
      QuietStep();
      SnapSame();
    }

    twostate lemma ThreadSet(t: int)
      requires old(Valid()) && lists.Valid() && unchanged(lists) && t in threads && t !in old(threads)
      requires var pc := threads[t]; threads == old(threads)[t := pc] && PcOk(pc) && pending == old(pending) && disk == old(disk)
      requires forall b :: b in lists.heads ==>
        b.count == old(b.count) + (if Pins(threads[t], b) then 1 else 0) && |Pinners(threads, b)| == |Pinners(old(threads), b)| + (if Pins(threads[t], b) then 1 else 0)
      requires forall b :: b in lists.heads ==> b.dev == old(b.dev) && b.block == old(b.block) && b.uptodate == old(b.uptodate) && b.data == old(b.data)
      requires forall b :: b in lists.heads ==> b.lock == old(b.lock) && b.dirt == old(b.dirt)
      ensures Valid()
    {
      hide lists.Valid, Pinners;
      forall b | b in lists.heads ensures BufferOk(b) { assert old(BufferOk(b)); }
    }

    /** Thread t wakes up or ends; its reference, if any, is dropped. */
    method ClearThread(t: int)
      requires Valid() && t in threads
      modifies this`threads, lists.heads`count
      ensures Valid() && threads == old(threads) - {t} && Snap() == old(Snap()).(threads := threads) && Overlay() == old(Overlay())
      ensures forall b :: b in lists.heads ==> b.count == old(b.count) - if Pins(old(threads)[t], b) then 1 else 0
    {
      hide lists.Valid, Pinners;
      var pc := threads[t];
      forall b ensures |Pinners(threads, b)| == |Pinners(threads - {t}, b)| + (if Pins(pc, b) then 1 else 0) {
        PinnersWithout(threads, t, b);
      }
      if pc.WaitHash? || pc.Holding? || pc.Reading? {
        assert BufferOk(pc.bh);
        pc.bh.count := pc.bh.count - 1;         // cannot be zero: "Trying to free free buffer"
      }
      threads := threads - {t};
      QuietStep();
      SnapSame();
    }

    /** BADNESS */
    function Badness(b: BufferHead): int
      reads b
    {
      (if b.dirt then 2 else 0) + (if b.lock then 1 else 0)
    }

    /** A cached block is taken at once, or waited for while it is locked. */
    function Cached(dev: nat, block: nat, bh: BufferHead): Pc
      reads bh
    {
      if bh.lock then WaitHash(dev, block, bh) else Holding(dev, block, bh)
    }

    /** A chosen free buffer is waited for, written back, or taken. */
    function Victim(dev: nat, block: nat, bh: BufferHead): Pc
      reads bh
    {
      if bh.lock then WaitLock(dev, block, bh)
      else if bh.dirt then Sync(dev, block, bh, bh.dev, 0, 1)
      else Holding(dev, block, bh)
    }

    /** No unreferenced buffer is less bad than bh. */
    ghost predicate Least(bh: BufferHead)
      reads lists.heads
    {
      bh in lists.heads && bh.count == 0 && forall b :: b in lists.heads && b.count == 0 ==> Badness(bh) <= Badness(b)
    }

    /** Locks stay, and a buffer is marked clean by nobody. */
    twostate predicate FlagsKept()
      reads lists.heads
    {
      forall b :: b in lists.heads ==> b.lock == old(b.lock) && b.dirt == old(b.dirt)
    }

    predicate IsBlock(b: BufferHead, dev: nat, block: nat)
      reads b
    {
      b.dev == dev && b.block == block
    }

    /** Only the buffer that t has got is given a new identity: its data has yet to be read. */
    twostate predicate Renames(t: int)
      reads this, lists.heads
    {
      forall b :: b in lists.heads && Retaken(b) ==>
        && t in threads && threads[t].Holding? && threads[t].bh == b && !b.uptodate
        && var pc := threads[t]; !old(IsBlock(b, pc.dev, pc.block))
    }

    lemma RingFacts()
      requires Valid()
      ensures |lists.ring| > 0 && lists.freeList == lists.ring[0]
      ensures forall k {:trigger lists.ring[k]} :: 0 <= k < |lists.ring| ==> lists.ring[k] in lists.heads
      ensures forall k {:trigger lists.ring[k].nextFree} :: 0 <= k < |lists.ring| ==>
        lists.ring[k].nextFree == if k + 1 < |lists.ring| then lists.ring[k + 1] else lists.ring[0]
      ensures forall j, k :: 0 <= j < k < |lists.ring| ==> lists.ring[j] != lists.ring[k]
      ensures forall b :: b in lists.heads ==> b in lists.ring
    {
    }

    /** getblk's scan of the free list: the first unreferenced buffer of least badness. */
    method ScanFree() returns (bh: BufferHead?)
      requires Valid()
      ensures bh == null <==> forall b :: b in lists.heads ==> b.count > 0
      ensures bh != null ==> Least(bh)
    {
      hide Valid;
      RingFacts();
      ghost var ring := lists.ring;
      ghost var k := 0;
      bh := null;
      var tmp := lists.freeList;
      while true
        invariant 0 <= k < |ring| && tmp == ring[k]
        invariant bh == null <==> forall j {:trigger ring[j]} :: 0 <= j < k ==> ring[j].count > 0
        invariant bh != null ==> bh in lists.heads && bh.count == 0 && Badness(bh) > 0
        invariant bh != null ==> forall j {:trigger ring[j]} :: 0 <= j < k && ring[j].count == 0 ==> Badness(bh) <= Badness(ring[j])
        decreases |ring| - k
      {
        if tmp.count == 0 {
          if bh == null || Badness(tmp) < Badness(bh) {
            bh := tmp;
            if Badness(tmp) == 0 {
              return;
            }
          }
        }
        assert ring[k].nextFree == if k + 1 < |ring| then ring[k + 1] else ring[0];
        tmp := tmp.nextFree;
        if tmp == lists.freeList {
          break;
        }
        k := k + 1;
      }
    }

    /** The end of getblk: the chosen buffer becomes (dev, block), with one reference. */
    method Take(t: int, dev: nat, block: nat, bh: BufferHead)
      requires Valid() && t !in threads && dev != 0 && (dev, block) !in lists.Index()
      requires bh in lists.heads && bh.count == 0 && !bh.lock && !bh.dirt
      modifies this`threads, lists, lists.hashTable, lists.heads
      ensures Valid() && Overlay() == old(Overlay()) && threads == old(threads)[t := Holding(dev, block, bh)]
      ensures forall b :: b in lists.heads && b != bh ==> !Retaken(b)
      ensures bh.count == 1 && !bh.uptodate && FlagsKept()
    {
      hide Valid, lists.Valid, lists.Unique, lists.Index, BufferOk, Pinners, Overlay, Snap;
      BufferFacts(bh);
      bh.uptodate := false;
      Unread(bh);
      Rebind(bh, dev, block);
      SetThread(t, Holding(dev, block, bh));
    }

    twostate lemma OneTaken(t: int)
      requires t in threads && threads[t].Holding? && threads[t].bh in lists.heads && !threads[t].bh.uptodate
      requires var bh := threads[t].bh; old(bh.count) == 0 && !old(bh.lock) && !old(bh.dirt)
      requires var pc := threads[t]; !old(IsBlock(pc.bh, pc.dev, pc.block))
      requires forall b :: b in lists.heads && b != threads[t].bh ==> !Retaken(b)
      ensures TakesIdle() && Renames(t)
    {
    }

    twostate lemma NoneTaken(t: int)
      requires forall b :: b in lists.heads ==> !Retaken(b)
      ensures TakesIdle() && Renames(t)
    {
    }

    method Rebind(bh: BufferHead, dev: nat, block: nat)
      requires Valid() && dev != 0 && (dev, block) !in lists.Index()
      requires bh in lists.heads && bh.count == 0 && !bh.lock && !bh.dirt && !bh.uptodate
      modifies lists, lists.hashTable, lists.heads`prev, lists.heads`next, lists.heads`prevFree, lists.heads`nextFree, bh`dev, bh`block
      ensures Valid() && Overlay() == old(Overlay()) && bh.dev == dev && bh.block == block
    {
      hide lists.Valid, Pinners;
      assert BufferOk(bh);
      lists.Rename(bh, dev, block);
      Renamed(bh);
    }

    /** Marking a clean idle buffer as not read loses nothing: the disk has its data. */
    twostate lemma Unread(bh: BufferHead)
      requires old(Valid()) && bh in lists.heads && !old(bh.dirt) && !old(bh.lock) && !bh.uptodate && lists.Valid()
      requires unchanged(this) && unchanged(lists) && unchanged(lists.hashTable)
      requires forall b :: b in lists.heads && b != bh ==> unchanged(b)
      requires bh.dev == old(bh.dev) && bh.block == old(bh.block) && bh.count == old(bh.count) && bh.lock == old(bh.lock) && bh.dirt == old(bh.dirt)
      ensures Valid() && Overlay() == old(Overlay())
    {
      hide lists.Valid, Pinners, Overlay;
      assert old(BufferOk(bh));
      forall b | b in lists.heads && b != bh ensures BufferOk(b) { assert old(BufferOk(b)); }
      assert lists.Index() == old(lists.Index());
      SameReads();
    }

    /** The overlay is a matter of what each block reads as. */
    twostate lemma SameReads()
      requires old(Valid()) && Valid()
      requires forall d: nat, n: nat :: Reads(d, n) == old(Reads(d, n))
      ensures Overlay() == old(Overlay())
    {
    }

    ghost function Reads(dev: nat, block: nat): Block
      requires Valid()
      reads this, lists, lists.hashTable, lists.heads
    {
      var k := (dev, block);
      if k in lists.Index() && lists.Index()[k].uptodate then lists.Index()[k].data else disk[k]
    }

    /** Renaming a buffer that holds no data changes nothing that a reader sees. */
    twostate lemma Renamed(bh: BufferHead)
      requires old(Valid()) && lists.Valid() && bh in lists.heads
      requires threads == old(threads) && pending == old(pending) && disk == old(disk)
      requires !bh.uptodate && !old(bh.uptodate) && !bh.dirt && !bh.lock && bh.count == 0
      requires bh !in pending && old(bh.count) == 0
      requires forall b :: b in lists.heads && b != bh ==> b.dev == old(b.dev) && b.block == old(b.block)
      requires forall b :: b in lists.heads ==> b.uptodate == old(b.uptodate) && b.data == old(b.data)
      requires forall b :: b in lists.heads ==> b.dirt == old(b.dirt) && b.lock == old(b.lock) && b.count == old(b.count)
      requires lists.Index() == (old(lists.Index()) - {(old(bh.dev), old(bh.block))})[(bh.dev, bh.block) := bh]
      ensures Valid() && Overlay() == old(Overlay())
    {
      hide Valid, lists.Valid, Overlay, Reads;
      RenamedValid(bh);
      RenamedReads(bh);
      SameReads();
    }

    twostate lemma RenamedReads(bh: BufferHead)
      requires old(Valid()) && Valid() && bh in lists.heads && disk == old(disk) && !bh.uptodate && !old(bh.uptodate)
      requires forall b :: b in lists.heads ==> b.uptodate == old(b.uptodate) && b.data == old(b.data)
      requires lists.Index() == (old(lists.Index()) - {(old(bh.dev), old(bh.block))})[(bh.dev, bh.block) := bh]
      ensures forall d: nat, n: nat :: Reads(d, n) == old(Reads(d, n))
    {
      IndexFacts();
    }

    twostate lemma RenamedValid(bh: BufferHead)
      requires old(Valid()) && lists.Valid() && bh in lists.heads
      requires threads == old(threads) && pending == old(pending) && disk == old(disk)
      requires !bh.uptodate && !bh.dirt && !bh.lock && bh.count == 0 && bh !in pending && old(bh.count) == 0
      requires forall b :: b in lists.heads && b != bh ==> b.dev == old(b.dev) && b.block == old(b.block)
      requires forall b :: b in lists.heads ==> b.uptodate == old(b.uptodate) && b.data == old(b.data)
      requires forall b :: b in lists.heads ==> b.dirt == old(b.dirt) && b.lock == old(b.lock) && b.count == old(b.count)
      ensures Valid()
    {
      hide lists.Valid;
      assert old(BufferOk(bh));
      forall b | b in lists.heads ensures BufferOk(b) { assert old(BufferOk(b)); }
      forall t | t in threads ensures PcOk(threads[t]) {
        assert old(PcOk(threads[t]));
        assert Pins(threads[t], bh) ==> t in Pinners(threads, bh);
      }
    }

    /** get_hash_table up to its sleep: a cached block is referenced, and waited for if locked. */
    method GetHashTable(t: int, dev: nat, block: nat) returns (found: bool)
      requires Valid() && t !in threads && dev != 0
      modifies this`threads, lists.heads`count
      ensures Valid() && Overlay() == old(Overlay())
      ensures found <==> (dev, block) in lists.Index()
      ensures found ==> threads == old(threads)[t := Cached(dev, block, lists.Index()[(dev, block)])]
      ensures !found ==> threads == old(threads) && forall b :: b in lists.heads ==> b.count == old(b.count)
      ensures found ==> lists.Index()[(dev, block)] in lists.heads && t in threads && threads[t].dev == dev && threads[t].block == block
    {
      hide lists.Valid, Pinners, Overlay;
      var bh := lists.FindBuffer(dev, block);
      if bh == null {
        return false;
      }
      SetThread(t, Cached(dev, block, bh));
      return true;
    }

    /** getblk from its label `repeat` to the first sleep or to success. */
    method Getblk(t: int, dev: nat, block: nat)
      requires Valid() && t !in threads && dev != 0
      modifies this`threads, lists, lists.hashTable, lists.heads
      ensures Valid() && Overlay() == old(Overlay())
      ensures t in threads && threads == old(threads)[t := threads[t]] && threads[t].dev == dev && threads[t].block == block
      ensures FlagsKept()
      ensures Goes(old(Snap()), dev, block, threads[t]) && TakesIdle() && Renames(t)
    {
      hide Valid, lists.Valid, lists.Unique, lists.Index, Pinners, Overlay, BufferOk, PcOk, Looks, Carries, Snap;
      SnapIndex(dev, block);
      var found := GetHashTable(t, dev, block);
      if found {
        NoneTaken(t);
      } else {
        Search(t, dev, block);
      }
    }

    /** The block is not cached: a free buffer is looked for. */
    method Search(t: int, dev: nat, block: nat)
      requires Valid() && t !in threads && dev != 0 && (dev, block) !in lists.Index()
      modifies this`threads, lists, lists.hashTable, lists.heads
      ensures Valid() && Overlay() == old(Overlay()) && FlagsKept() && TakesIdle()
      ensures t in threads && threads == old(threads)[t := threads[t]] && threads[t].dev == dev && threads[t].block == block
      ensures Looks(old(Snap()), dev, block, threads[t]) && Renames(t)
    {
      hide Valid, lists.Valid, lists.Unique, lists.Index, Pinners, Overlay, BufferOk, Badness, Bad, Idle, Snap;
      var bh := ScanFree();
      if bh == null { SnapBusy(); } else { SnapLeast(dev, block, bh); }
      if bh != null && !bh.lock {
        Chosen(t, dev, block, bh);
        return;
      }
      var pc := if bh == null then WaitAny(dev, block) else WaitLock(dev, block, bh);
      SetThread(t, pc);
    }

    /** getblk from line 257: the chosen buffer is unlocked; another sleep may be needed. */
    method Chosen(t: int, dev: nat, block: nat, bh: BufferHead)
      requires Valid() && t !in threads && dev != 0 && bh in lists.heads && bh.count == 0 && !bh.lock && (dev, block) !in lists.Index()
      modifies this`threads, lists, lists.hashTable, lists.heads
      ensures Valid() && Overlay() == old(Overlay())
      ensures threads == old(threads)[t := old(Victim(dev, block, bh))] && FlagsKept()
      ensures TakesIdle() && Renames(t)
    {
      hide lists.Valid, Pinners, Overlay;
      if bh.dirt {
        assert BufferOk(bh);
        SetThread(t, Sync(dev, block, bh, bh.dev, 0, 1));
      } else {
        NotCached(bh, dev, block);
        Take(t, dev, block, bh);
        OneTaken(t);
      }
    }

    // ----- flags, locks and data of one buffer

    /** Only buffer b, its lock and its block on disk have changed. */
    twostate predicate OnlyBuffer(b: BufferHead)
      reads this, lists, lists.hashTable, lists.heads
    {
      && b in lists.heads && b.dev == old(b.dev) != 0 && b.block == old(b.block) && b.count == old(b.count)
      && threads == old(threads) && unchanged(lists) && unchanged(lists.hashTable)
      && (forall c :: c in lists.heads && c != b ==> unchanged(c) && (c in pending <==> c in old(pending)) && (c in pending ==> pending[c] == old(pending)[c]))
      && (forall c :: c in pending ==> c in lists.heads)
      && Total(disk) && Total(old(disk))
      && (forall d: nat, n: nat :: (d, n) != (b.dev, b.block) ==> disk[(d, n)] == old(disk)[(d, n)])
    }

    twostate lemma OneBuffer(b: BufferHead)
      requires old(Valid()) && lists.Valid() && OnlyBuffer(b) && BufferOk(b)
      ensures Valid()
    {
      hide lists.Valid, Pinners;
      forall c | c in lists.heads && c != b ensures BufferOk(c) { assert old(BufferOk(c)); }
    }

    /** What a reader sees after a change to one buffer. */
    twostate lemma OneBlock(b: BufferHead)
      requires old(Valid()) && Valid() && OnlyBuffer(b)
      ensures Overlay() == old(Overlay())[(b.dev, b.block) := Reads(b.dev, b.block)]
    {
      hide Valid, Reads, lists.Valid;
      OtherReads(b);
    }

    twostate lemma OtherReads(b: BufferHead)
      requires old(Valid()) && Valid() && OnlyBuffer(b)
      ensures forall d: nat, n: nat :: (d, n) != (b.dev, b.block) ==> Reads(d, n) == old(Reads(d, n))
    {
      hide lists.Valid, Pinners;
      assert lists.Index() == old(lists.Index());
      hide lists.Index, lists.Unique;
      IndexFacts();
      forall d: nat, n: nat | (d, n) != (b.dev, b.block) ensures Reads(d, n) == old(Reads(d, n)) {
        if (d, n) in lists.Index() {
          assert lists.Index()[(d, n)] != b;
        }
      }
    }

    lemma NotCached(b: BufferHead, dev: nat, block: nat)
      requires Valid() && dev != 0 && (dev, block) !in lists.Index() && b in lists.heads
      ensures !IsBlock(b, dev, block)
    {
      assert b.dev != 0 ==> (b.dev, b.block) in lists.Index();
    }

    lemma IndexFacts()
      requires lists.Unique()
      ensures forall k :: k in lists.Index() ==> lists.Index()[k] in lists.heads && (lists.Index()[k].dev, lists.Index()[k].block) == k
    {
    }

    /** Once everything is written back, the disk holds what readers see. */
    lemma CleanMeansOnDisk()
      requires Valid() && pending == map[] && forall b :: b in lists.heads ==> !b.dirt
      ensures forall dev: nat, block: nat :: (dev, block) in disk && Reads(dev, block) == disk[(dev, block)]
    {
      forall dev: nat, block: nat ensures (dev, block) in disk && Reads(dev, block) == disk[(dev, block)] {
        TotalAt(disk, dev, block);
        if (dev, block) in lists.Index() {
          assert BufferOk(lists.Index()[(dev, block)]);
        }
      }
    }

    /** make_request after lock_buffer, when there is something to do. */
    method LockFor(bh: BufferHead, cmd: Cmd)
      requires Valid() && bh in lists.heads && !bh.lock && bh.dev != 0
      requires (cmd == AwaitWrite && bh.dirt) || (cmd == AwaitRead && !bh.uptodate)
      modifies this`pending, bh`lock
      ensures Valid() && Overlay() == old(Overlay()) && bh.lock && pending == old(pending)[bh := cmd]
    {
      hide lists.Valid, Pinners, Overlay;
      assert BufferOk(bh);
      bh.lock := true;
      pending := pending[bh := cmd];
      OneBuffer(bh);
      QuietStep();
    }

    /** add_request: a request slot was found, the buffer is marked clean and queued. */
    method Queue(bh: BufferHead)
      requires Valid() && bh in pending && (pending[bh].AwaitRead? || pending[bh].AwaitWrite?)
      modifies this`pending, bh`dirt
      ensures Valid() && Overlay() == old(Overlay()) && !bh.dirt
      ensures pending == old(pending)[bh := if old(pending)[bh].AwaitRead? then ReadQueued else WriteQueued]
    {
      hide lists.Valid, Pinners, Overlay;
      assert BufferOk(bh);
      bh.dirt := false;
      pending := pending[bh := if pending[bh].AwaitRead? then ReadQueued else WriteQueued];
      OneBuffer(bh);
      QuietStep();
    }

    /** The device completes a read: the buffer holds what the disk has. */
    method CompleteRead(bh: BufferHead)
      requires Valid() && bh in pending && pending[bh].ReadQueued?
      modifies this`pending, bh`data, bh`uptodate, bh`lock
      ensures Valid() && Overlay() == old(Overlay()) && !bh.lock && bh.uptodate && pending == old(pending) - {bh}
      ensures (bh.dev, bh.block) in disk && bh.data == disk[(bh.dev, bh.block)]
    {
      hide Valid, lists.Valid, lists.Unique, lists.Index, Pinners, Overlay, Reads;
      PendingFacts(bh);
      DiskAt(bh.dev, bh.block);
      bh.data := disk[(bh.dev, bh.block)];
      bh.uptodate := true;
      bh.lock := false;
      pending := pending - {bh};
      Transferred(bh);
    }

    /** The device completes a write: the disk holds the buffer's data, or anything if the buffer
        was written to meanwhile (it is dirty again). */
    method CompleteWrite(bh: BufferHead, torn: Block)
      requires Valid() && bh in pending && pending[bh].WriteQueued?
      modifies this`pending, this`disk, bh`uptodate, bh`lock
      ensures Valid() && Overlay() == old(Overlay()) && !bh.lock && bh.uptodate && pending == old(pending) - {bh}
      ensures disk == old(disk)[(bh.dev, bh.block) := if bh.dirt then torn else bh.data]
    {
      hide Valid, lists.Valid, lists.Unique, lists.Index, Pinners, Overlay, Reads;
      PendingFacts(bh);
      DiskAt(bh.dev, bh.block);
      disk := disk[(bh.dev, bh.block) := if bh.dirt then torn else bh.data];
      bh.uptodate := true;
      bh.lock := false;
      pending := pending - {bh};
      Transferred(bh);
    }

    /** end_request */
    method Complete(bh: BufferHead, torn: Block)
      requires Valid() && bh in pending && (pending[bh].ReadQueued? || pending[bh].WriteQueued?)
      modifies this`pending, this`disk, bh`data, bh`uptodate, bh`lock
      ensures Valid() && Overlay() == old(Overlay()) && !bh.lock && bh.uptodate && pending == old(pending) - {bh}
      ensures old(pending)[bh].ReadQueued? ==> disk == old(disk) && (bh.dev, bh.block) in disk && bh.data == disk[(bh.dev, bh.block)]
      ensures old(pending)[bh].WriteQueued? ==> bh.data == old(bh.data) && disk == old(disk)[(bh.dev, bh.block) := if bh.dirt then torn else bh.data]
    {
      hide Valid, Overlay;
      if pending[bh].ReadQueued? { CompleteRead(bh); } else { CompleteWrite(bh, torn); }
    }

    /** A completed transfer makes buffer and block agree on what the reader already saw. */
    twostate lemma Transferred(b: BufferHead)
      requires old(Valid()) && lists.Valid() && OnlyBuffer(b) && BufferOk(b)
      requires b.uptodate && b.data == (if old(b.uptodate) then old(b.data) else old(disk)[(b.dev, b.block)])
      ensures Valid() && Overlay() == old(Overlay())
    {
      hide lists.Valid, lists.Unique, lists.Index, Pinners, Overlay, Reads, BufferOk;
      OneBuffer(b);
      OneBlock(b);
      CompleteReads(b);
    }

    twostate lemma CompleteReads(b: BufferHead)
      requires old(Valid()) && Valid() && b in lists.heads && b.dev == old(b.dev) != 0 && b.block == old(b.block)
      requires b.uptodate && b.data == (if old(b.uptodate) then old(b.data) else old(disk)[(b.dev, b.block)])
      requires Overlay() == old(Overlay())[(b.dev, b.block) := Reads(b.dev, b.block)]
      ensures Overlay() == old(Overlay())
    {
      assert (b.dev, b.block) in lists.Index() && (b.dev, b.block) in old(lists.Index());
      assert lists.Index()[(b.dev, b.block)] == b && old(lists.Index()[(b.dev, b.block)]) == b;
      assert Reads(b.dev, b.block) == old(Reads(b.dev, b.block));
    }

    /** A holder of an up-to-date buffer writes to it, as file_write does. */
    method HolderWrite(t: int, data: Block)
      requires Valid() && t in threads && threads[t].Holding? && threads[t].bh.uptodate
      modifies threads[t].bh`data, threads[t].bh`dirt
      ensures threads[t].bh.dirt
      ensures Valid() && Overlay() == old(Overlay())[(threads[t].dev, threads[t].block) := data]
    {
      hide lists.Valid, Pinners, Overlay;
      var bh := threads[t].bh;
      assert PcOk(threads[t]) && BufferOk(bh);
      bh.dirt := true;
      bh.data := data;
      OneBuffer(bh);
      OneBlock(bh);
      ReadsOf(bh);
    }

    lemma ReadsOf(b: BufferHead)
      requires Valid() && b in lists.heads && b.dev != 0
      ensures Reads(b.dev, b.block) == if b.uptodate then b.data else disk[(b.dev, b.block)]
    {
      assert (b.dev, b.block) in lists.Index() && lists.Index()[(b.dev, b.block)] == b;
    }

    /** new_block: the only holder clears the block and marks it read and dirty. */
    method HolderClear(t: int, zero: Block)
      requires Valid() && t in threads && SoleHolder(threads[t])
      modifies threads[t].bh`data, threads[t].bh`dirt, threads[t].bh`uptodate
      ensures threads[t].bh.dirt && threads[t].bh.uptodate
      ensures Valid() && Overlay() == old(Overlay())[(threads[t].dev, threads[t].block) := zero]
    {
      hide lists.Valid, Pinners, Overlay;
      var bh := threads[t].bh;
      assert PcOk(threads[t]) && BufferOk(bh);
      bh.data := zero;
      bh.uptodate := true;
      bh.dirt := true;
      OneBuffer(bh);
      OneBlock(bh);
      ReadsOf(bh);
    }

    /** free_block: the only holder drops the data of a block that is being freed. */
    method HolderDiscard(t: int)
      requires Valid() && t in threads && SoleHolder(threads[t])
      modifies threads[t].bh`dirt, threads[t].bh`uptodate
      ensures !threads[t].bh.dirt && !threads[t].bh.uptodate
      ensures Valid() && Overlay() == old(Overlay())[(threads[t].dev, threads[t].block) := disk[(threads[t].dev, threads[t].block)]]
    {
      hide lists.Valid, Pinners, Overlay;
      var bh := threads[t].bh;
      assert PcOk(threads[t]) && BufferOk(bh);
      bh.dirt := false;
      bh.uptodate := false;
      OneBuffer(bh);
      OneBlock(bh);
      ReadsOf(bh);
    }

    // ----- one activation of a sleeping thread

    /** The thread finds its buffer locked and sleeps again. */
    ghost predicate Waits(pc: Pc)
      reads lists.heads
    {
      if pc.Sync? then pc.i < |lists.heads| && lists.heads[pc.i].dev == pc.sdev && lists.heads[pc.i].lock
      else !pc.WaitAny? && pc.bh in lists.heads && pc.bh.lock
    }

    /** sync_dev has a dirty buffer of its device before it. */
    ghost predicate Writes(pc: Pc)
      ensures Writes(pc) ==> pc.Sync? && pc.i < |lists.heads|
      reads lists.heads
    {
      pc.Sync? && pc.i < |lists.heads| && lists.heads[pc.i].dev == pc.sdev && !lists.heads[pc.i].lock && lists.heads[pc.i].dirt
    }

    /** bread finds that the buffer could not be read. */
    ghost predicate Fails(pc: Pc)
      reads lists.heads
    {
      pc.Reading? && pc.bh in lists.heads && !pc.bh.lock && !pc.bh.uptodate
    }

    /** The sleeping places of getblk and bread, one by one. */
    method WakeAny(t: int, dev: nat, block: nat)
      requires Valid() && t in threads && threads[t] == WaitAny(dev, block)
      modifies this`threads, lists, lists.hashTable, lists.heads
      ensures Valid() && Overlay() == old(Overlay()) && FlagsKept() && IdentityKept(t)
      ensures t in threads && threads == old(threads)[t := threads[t]]
      ensures Resumes(old(Snap()), t, threads[t]) && Renames(t)
    {
      hide Valid, Overlay, Goes, IdentityKept, Renames;
      ThreadFacts(t);
      Repeat(t, dev, block);
    }

    /** A woken thread goes back to the label `repeat`. */
    method Repeat(t: int, dev: nat, block: nat)
      requires Valid() && t in threads && dev != 0
      modifies this`threads, lists, lists.hashTable, lists.heads
      ensures Valid() && Overlay() == old(Overlay()) && FlagsKept() && IdentityKept(t)
      ensures t in threads && threads == old(threads)[t := threads[t]]
      ensures Goes(old(Snap()).(threads := old(threads) - {t}), dev, block, threads[t]) && Renames(t)
    {
      hide Valid, lists.Valid, lists.Unique, lists.Index, Pinners, Overlay, BufferOk, Goes, Snap;
      ClearThread(t);
      Getblk(t, dev, block);
      KeptByCount(t);
    }

    method WakeLock(t: int, dev: nat, block: nat, bh: BufferHead)
      requires Valid() && t in threads && threads[t] == WaitLock(dev, block, bh) && bh in lists.heads && !bh.lock
      modifies this`threads, lists, lists.hashTable, lists.heads
      ensures Valid() && Overlay() == old(Overlay()) && FlagsKept()
      ensures t in threads && threads == old(threads)[t := threads[t]]
      ensures Resumes(old(Snap()), t, threads[t]) && TakesIdle() && Renames(t)
    {
      hide Valid, lists.Valid, lists.Unique, lists.Index, Pinners, Overlay, BufferOk, GoesOn;
      ThreadFacts(t);
      ClearThread(t);
      AfterWait(t, dev, block, bh);
    }

    method WakeHash(t: int, dev: nat, block: nat, bh: BufferHead)
      requires Valid() && t in threads && threads[t] == WaitHash(dev, block, bh) && bh in lists.heads && !bh.lock
      modifies this`threads, lists, lists.hashTable, lists.heads
      ensures Valid() && Overlay() == old(Overlay()) && FlagsKept() && IdentityKept(t)
      ensures t in threads && threads == old(threads)[t := threads[t]]
      ensures Resumes(old(Snap()), t, threads[t]) && Renames(t)
    {
      hide Valid, Overlay, Goes;
      ThreadFacts(t);
      SnapFacts();
      if bh.dev == dev && bh.block == block {
        Keep(t, dev, block, bh);
      } else {
        Repeat(t, dev, block);
      }
    }

    /** A woken thread keeps the buffer it waited for. */
    method Keep(t: int, dev: nat, block: nat, bh: BufferHead)
      requires Valid() && t in threads && bh in lists.heads && PcOk(Holding(dev, block, bh))
      modifies this`threads, lists.heads`count
      ensures Valid() && Overlay() == old(Overlay()) && threads == old(threads)[t := Holding(dev, block, bh)]
    {
      hide Valid, lists.Valid, Pinners, Overlay, BufferOk, Snap;
      ClearThread(t);
      SetThread(t, Holding(dev, block, bh));
    }

    method WakeRead(t: int, dev: nat, block: nat, bh: BufferHead)
      requires Valid() && t in threads && threads[t] == Reading(dev, block, bh) && bh in lists.heads && !bh.lock
      modifies this`threads, lists.heads`count
      ensures Valid() && Overlay() == old(Overlay())
      ensures threads == if bh.uptodate then old(threads)[t := Holding(dev, block, bh)] else old(threads) - {t}
    {
      hide lists.Valid, Pinners, Overlay;
      assert PcOk(threads[t]);
      ClearThread(t);
      if bh.uptodate {
        SetThread(t, Holding(dev, block, bh));
      }                                        // else bread returns NULL
    }

    /** Thread t is resumed where it sleeps.  sync_dev stops once per buffer, which allows more
        interleavings than its own sleeps do. */
    method Resume(t: int)
      requires Valid() && t in threads && !threads[t].Holding?
      modifies this`threads, this`pending, lists, lists.hashTable, lists.heads
      ensures Valid() && Overlay() == old(Overlay()) && IdentityKept(t)
      ensures old(Waits(threads[t])) ==> threads == old(threads) && pending == old(pending) && forall b :: b in lists.heads ==> !Retaken(b)
      ensures old(Fails(threads[t])) ==> threads == old(threads) - {t}
      ensures !old(Waits(threads[t])) && !old(Fails(threads[t])) ==> t in threads && threads == old(threads)[t := threads[t]]
      ensures !old(Waits(threads[t])) && !old(Fails(threads[t])) ==> Resumes(old(Snap()), t, threads[t])
      ensures Renames(t)
      ensures pending == if old(Writes(threads[t])) then old(pending)[lists.heads[old(threads)[t].i] := AwaitWrite] else old(pending)
      ensures forall b :: b in lists.heads ==> b.dirt == old(b.dirt)
    {
      hide Valid, lists.Valid, Pinners, Overlay, Goes, GoesOn;
      var pc := threads[t];
      ThreadFacts(t);
      match pc
      case WaitAny(dev, block) =>
        WakeAny(t, dev, block);
      case WaitHash(dev, block, bh) =>
        if bh.lock { return; }
        WakeHash(t, dev, block, bh);
      case WaitLock(dev, block, bh) =>
        if bh.lock { return; }
        WakeLock(t, dev, block, bh);
        KeptByCount(t);
      case Sync(dev, block, bh, sdev, i, pass) =>
        SyncStep(t, dev, block, bh, sdev, i, pass);
      case Reading(dev, block, bh) =>
        if bh.lock { return; }
        WakeRead(t, dev, block, bh);
    }

    /** getblk lines 256-269, once the chosen buffer is unlocked. */
    method AfterWait(t: int, dev: nat, block: nat, bh: BufferHead)
      requires Valid() && t !in threads && dev != 0 && bh in lists.heads && !bh.lock
      modifies this`threads, lists, lists.hashTable, lists.heads
      ensures Valid() && Overlay() == old(Overlay())
      ensures t in threads && threads == old(threads)[t := threads[t]]
      ensures FlagsKept()
      ensures GoesOn(old(Snap()), dev, block, bh, threads[t]) && TakesIdle() && Renames(t)
    {
      hide Valid, lists.Valid, lists.Unique, lists.Index, Pinners, Overlay, Goes, Idle, IsCached, Snap;
      SnapIdle();
      SnapFlags(bh);
      if bh.count > 0 {
        Getblk(t, dev, block);
        return;
      }
      if bh.dirt {
        BufferFacts(bh);
        SetThread(t, Sync(dev, block, bh, bh.dev, 0, 1));
        NoneTaken(t);
        return;
      }
      LastCheck(t, dev, block, bh);
    }

    /** getblk lines 266-280: the block may have been cached while the thread slept. */
    method LastCheck(t: int, dev: nat, block: nat, bh: BufferHead)
      requires Valid() && t !in threads && dev != 0 && bh in lists.heads && !bh.lock && bh.count == 0 && !bh.dirt
      modifies this`threads, lists, lists.hashTable, lists.heads
      ensures Valid() && Overlay() == old(Overlay()) && FlagsKept()
      ensures t in threads && threads == old(threads)[t := threads[t]]
      ensures if old(IsCached(Snap(), dev, block)) then Goes(old(Snap()), dev, block, threads[t]) else threads[t] == Holding(dev, block, bh)
      ensures TakesIdle() && Renames(t)
    {
      hide Valid, lists.Valid, lists.Unique, lists.Index, Pinners, Overlay, Goes, Idle, IsCached, Snap;
      SnapIndex(dev, block);
      BufferFacts(bh);
      var other := lists.FindBuffer(dev, block);
      if other != null {
        Getblk(t, dev, block);
      } else {
        NotCached(bh, dev, block);
        Take(t, dev, block, bh);
        OneTaken(t);
      }
    }

    /** A buffer without references is pinned by no thread. */
    twostate lemma KeptByCount(t: int)
      requires old(Valid()) && t in old(threads)
      requires forall b :: b in lists.heads && Retaken(b) ==>
        old(b.count) == (if Pins(old(threads)[t], b) then 1 else 0) && !old(b.lock) && !old(b.dirt)
      ensures IdentityKept(t)
    {
      hide lists.Valid, Overlay;
      forall b, s | b in lists.heads && Retaken(b) && s in old(threads) && s != t
        ensures !Pins(old(threads)[s], b)
      {
        assert old(BufferOk(b));
        PinnersWithout(old(threads), t, b);
        assert Pinners(old(threads) - {t}, b) == {};
        assert s in old(threads) - {t};
      }
    }

    twostate lemma KeptFromCount()
      requires old(Valid())
      requires TakesIdle()
      ensures forall t :: IdentityKept(t)
    {
      hide lists.Valid, Overlay;
      forall b, s | b in lists.heads && Retaken(b) && s in old(threads)
        ensures !Pins(old(threads)[s], b)
      {
        assert old(BufferOk(b));
        assert s in Pinners(old(threads), b) <==> Pins(old(threads)[s], b);
      }
    }

    /** One buffer of sync_dev. */
    method SyncStep(t: int, dev: nat, block: nat, bh: BufferHead, sdev: nat, i: nat, pass: int)
      requires Valid() && t in threads && threads[t] == Sync(dev, block, bh, sdev, i, pass)
      modifies this`threads, this`pending, lists.heads`lock, lists.heads`count
      ensures Valid() && Overlay() == old(Overlay())
      ensures old(Waits(threads[t])) ==> threads == old(threads) && pending == old(pending)
      ensures !old(Waits(threads[t])) ==> threads == old(threads)[t := NextSync(|lists.heads|, old(threads)[t])]
      ensures pending == if old(Writes(threads[t])) then old(pending)[lists.heads[i] := AwaitWrite] else old(pending)
    {
      hide Valid, lists.Valid, Pinners, Overlay;
      ThreadFacts(t);
      if i < |lists.heads| {
        var b := lists.heads[i];
        if b.dev == sdev {
          if b.lock { return; }                  // wait_on_buffer
          if b.dirt {
            LockFor(b, AwaitWrite);              // ll_rw_block(WRITE, b)
          }
        }
      }
      var pc := NextSync(|lists.heads|, threads[t]);
      ClearThread(t);
      SetThread(t, pc);
    }

    /** bread after getblk: an up-to-date buffer is returned at once, else it is read. */
    method Bread(t: int)
      requires Valid() && t in threads && threads[t].Holding?
      modifies this`threads, this`pending, lists.heads`lock, lists.heads`count
      ensures Valid() && Overlay() == old(Overlay())
      ensures old(threads[t].bh.uptodate || threads[t].bh.lock) ==> threads == old(threads) && pending == old(pending)
      ensures !old(threads[t].bh.uptodate || threads[t].bh.lock) ==>
        var pc := old(threads)[t]; threads == old(threads)[t := Reading(pc.dev, pc.block, pc.bh)] && pending == old(pending)[pc.bh := AwaitRead]
    {
      hide Valid, lists.Valid, Pinners, Overlay;
      var pc := threads[t];
      ThreadFacts(t);
      if pc.bh.uptodate || pc.bh.lock {
        return;                                  // locked: lock_buffer sleeps
      }
      LockFor(pc.bh, AwaitRead);
      ClearThread(t);
      SetThread(t, Reading(pc.dev, pc.block, pc.bh));
    }

    /** brelse, unless the buffer is locked and must be waited for. */
    method Brelse(t: int)
      requires Valid() && t in threads && threads[t].Holding?
      modifies this`threads, lists.heads`count
      ensures Valid() && Overlay() == old(Overlay())
      ensures threads == if old(threads[t].bh.lock) then old(threads) else old(threads) - {t}
    {
      hide lists.Valid, Pinners, Overlay;
      if threads[t].bh.lock {
        return;
      }
      ClearThread(t);
    }

    // ----- the events of a run

    ghost function FlagsOf(b: BufferHead): Flags
      reads b
    {
      Flags(b.dev, b.block, b.uptodate, b.dirt)
    }

    ghost function Snap(): Snapshot
      reads this, lists.heads
    {
      Snapshot(lists.heads, threads, pending, map b | b in lists.heads :: FlagsOf(b), disk)
    }

    /** What a snapshot says of locks and references. */
    lemma SnapFacts()
      requires Valid()
      ensures forall b :: b in lists.heads ==> b in Snap().flags && Snap().flags[b] == FlagsOf(b) && (b.lock <==> b in pending)
      ensures forall t :: t in threads && !threads[t].WaitAny? ==> threads[t].bh in lists.heads
      ensures forall t :: t in threads ==> (HoldsAlone(Snap(), t) <==> SoleHolder(threads[t]))
    {
      hide lists.Valid, Pinners;
      forall b | b in lists.heads ensures b.lock <==> b in pending { assert BufferOk(b); }
      forall t | t in threads ensures !threads[t].WaitAny? ==> threads[t].bh in lists.heads { assert PcOk(threads[t]); }
      forall t | t in threads ensures HoldsAlone(Snap(), t) <==> SoleHolder(threads[t]) {
        assert PcOk(threads[t]);
        if threads[t].Holding? { assert BufferOk(threads[t].bh); }
      }
    }

    lemma SnapIdle()
      requires Valid()
      ensures forall b :: b in lists.heads ==> (b.count == 0 <==> Idle(Snap(), b))
      ensures forall b :: b in Snap().flags <==> b in lists.heads
    {
      hide lists.Valid, Pinners;
      forall b | b in lists.heads ensures b.count == 0 <==> Idle(Snap(), b) {
        assert BufferOk(b);
        NoPinners(threads, b);
      }
    }

    lemma SnapFlags(b: BufferHead)
      requires b in lists.heads
      ensures b in Snap().flags && Snap().flags[b] == FlagsOf(b)
    {
    }

    lemma SnapBusy()
      requires Valid() && forall b :: b in lists.heads ==> b.count > 0
      ensures forall b :: b in Snap().flags ==> !Idle(Snap(), b)
    {
      SnapIdle();
    }

    /** ScanFree finds what the snapshot says. */
    lemma SnapLeast(dev: nat, block: nat, bh: BufferHead)
      requires Valid() && Least(bh)
      ensures bh in Snap().flags && Idle(Snap(), bh) && Victim(dev, block, bh) == Chooses(Snap(), dev, block, bh)
      ensures forall b :: b in Snap().flags && Idle(Snap(), b) ==> Bad(Snap(), bh) <= Bad(Snap(), b)
    {
      hide Valid, Idle;
      SnapIdle();
      SnapFacts();
    }

    lemma SnapIndex(dev: nat, block: nat)
      requires Valid() && dev != 0
      ensures (dev, block) in lists.Index() <==> IsCached(Snap(), dev, block)
      ensures (dev, block) in lists.Index() ==>
        var b := lists.Index()[(dev, block)]; Carries(Snap(), b, dev, block) && (b.lock <==> b in Snap().pending)
    {
      SnapFacts();
      if (dev, block) in lists.Index() { assert Carries(Snap(), lists.Index()[(dev, block)], dev, block); }
    }

    twostate lemma SnapGranted(t: int)
      requires old(Valid()) && Valid() && t in threads && Renames(t) && forall b :: b in lists.heads ==> b.dirt == old(b.dirt)
      ensures Snap().flags == Granted(old(Snap()).flags, threads[t])
    {
      hide lists.Valid, Pinners;
      assert PcOk(threads[t]);
    }

    twostate lemma SnapUntaken(t: int)
      requires t !in threads && Renames(t) && forall b :: b in lists.heads ==> b.dirt == old(b.dirt)
      ensures Snap().flags == old(Snap()).flags
    {
      forall b | b in lists.heads ensures FlagsOf(b) == old(FlagsOf(b)) { assert !Retaken(b); }
    }

    lemma SnapOrderly()
      requires Valid()
      ensures Orderly(Snap())
    {
      hide lists.Valid, Pinners;
      forall t | t in threads ensures threads[t].dev != 0 && ((threads[t].Holding? || threads[t].Reading?) ==> Carries(Snap(), threads[t].bh, threads[t].dev, threads[t].block)) {
        assert PcOk(threads[t]);
      }
    }

    twostate lemma SnapOne(b: BufferHead)
      requires b in lists.heads && forall a :: a in lists.heads && a != b ==> FlagsOf(a) == old(FlagsOf(a))
      ensures b in old(Snap()).flags && Snap().flags == old(Snap()).flags[b := FlagsOf(b)]
    {
    }

    twostate lemma SnapSame()
      requires forall a :: a in lists.heads ==> FlagsOf(a) == old(FlagsOf(a))
      ensures Snap().flags == old(Snap()).flags
    {
    }

    twostate lemma SnapLicensed(t: int)
      requires old(Valid()) && IdentityKept(t) && forall b :: b in lists.heads ==> b.dirt == old(b.dirt)
      ensures Licensed(old(Snap()), Snap(), t)
    {
      hide lists.Valid, Pinners;
      forall b | b in lists.heads && FlagsOf(b) != old(FlagsOf(b)) ensures b !in old(pending) && !old(b.dirt) {
        assert Retaken(b) && old(BufferOk(b));
      }
    }

    method OnBegin(t: int, dev: nat, block: nat)
      requires Valid()
      modifies this`threads, lists, lists.hashTable, lists.heads
      ensures Valid() && Overlay() == old(Overlay()) && Begins(old(Snap()), t, dev, block, Snap())
    {
      hide Valid, Overlay, Goes, TakesIdle, IdentityKept, Licensed, Renames, Granted;
      if t !in threads && dev != 0 {
        Getblk(t, dev, block);
        KeptFromCount();
        SnapLicensed(t);
        SnapGranted(t);
      }
    }

    method OnWake(t: int)
      requires Valid()
      modifies this`threads, this`pending, lists, lists.hashTable, lists.heads
      ensures Valid() && Overlay() == old(Overlay()) && Wakes(old(Snap()), t, Snap())
    {
      hide Valid, Overlay, IdentityKept, Licensed, Renames, Granted, Resumes;
      if t in threads && !threads[t].Holding? {
        SnapFacts();
        assert old(Waits(threads[t])) <==> SleepsOn(old(Snap()), threads[t]);
        Resume(t);
        SnapLicensed(t);
        if t in threads { SnapGranted(t); } else { SnapUntaken(t); }
      }
    }

    method OnRead(t: int)
      requires Valid()
      modifies this`threads, this`pending, lists.heads`lock, lists.heads`count
      ensures Valid() && Overlay() == old(Overlay()) && StartsRead(old(Snap()), t, Snap())
    {
      hide Valid, Overlay;
      SnapFacts();
      if t in threads && threads[t].Holding? { Bread(t); }
      SnapSame();
    }

    method OnRelease(t: int)
      requires Valid()
      modifies this`threads, lists.heads`count
      ensures Valid() && Overlay() == old(Overlay()) && Releases(old(Snap()), t, Snap())
    {
      hide Valid, Overlay;
      SnapFacts();
      if t in threads && threads[t].Holding? { Brelse(t); }
      SnapSame();
    }

    method OnWrite(t: int, data: Block) returns (e: Effect)
      requires Valid()
      modifies lists.heads`data, lists.heads`dirt
      ensures Valid() && Overlay() == Apply(old(Overlay()), e) && Follows(old(Snap()), Write(t, data), e, Snap())
    {
      hide Valid, Overlay;
      SnapFacts();
      e := Nothing;
      if t in threads && threads[t].Holding? && threads[t].bh.uptodate {
        e := Puts(threads[t].dev, threads[t].block, data);
        HolderWrite(t, data);
        SnapOne(threads[t].bh);
      }
    }

    method OnClear(t: int, data: Block) returns (e: Effect)
      requires Valid()
      modifies lists.heads`data, lists.heads`dirt, lists.heads`uptodate
      ensures Valid() && Overlay() == Apply(old(Overlay()), e) && Follows(old(Snap()), Clear(t, data), e, Snap())
    {
      hide Valid, Overlay, Pinners;
      SnapFacts();
      e := Nothing;
      if t in threads && SoleHolder(threads[t]) {
        e := Puts(threads[t].dev, threads[t].block, data);
        HolderClear(t, data);
        SnapOne(threads[t].bh);
      }
    }

    method OnDiscard(t: int) returns (e: Effect)
      requires Valid()
      modifies lists.heads`dirt, lists.heads`uptodate
      ensures Valid() && Overlay() == Apply(old(Overlay()), e) && Follows(old(Snap()), Discard(t), e, Snap())
    {
      hide Valid, Overlay, Pinners;
      SnapFacts();
      e := Nothing;
      if t in threads && SoleHolder(threads[t]) {
        DiskAt(threads[t].dev, threads[t].block);
        e := Puts(threads[t].dev, threads[t].block, disk[(threads[t].dev, threads[t].block)]);
        HolderDiscard(t);
        SnapOne(threads[t].bh);
      }
    }

    lemma DiskAt(dev: nat, block: nat)
      requires Valid()
      ensures (dev, block) in disk
    {
    }

    method OnSlot(k: nat)
      requires Valid()
      modifies this`pending, lists.heads`dirt
      ensures Valid() && Overlay() == old(Overlay()) && Queues(old(Snap()), k, Snap())
    {
      hide Valid, Overlay;
      SnapFacts();
      if k < |lists.heads| && lists.heads[k] in pending {
        var b := lists.heads[k];
        if pending[b].AwaitRead? || pending[b].AwaitWrite? {
          Queue(b);
          SnapOne(b);
        }
      }
    }

    method OnDevice(k: nat, torn: Block)
      requires Valid()
      modifies this`pending, this`disk, lists.heads`data, lists.heads`uptodate, lists.heads`lock
      ensures Valid() && Overlay() == old(Overlay()) && Completes(old(Snap()), k, Snap())
    {
      hide Valid, Overlay;
      SnapFacts();
      if k < |lists.heads| && lists.heads[k] in pending {
        var b := lists.heads[k];
        if pending[b].ReadQueued? || pending[b].WriteQueued? {
          Complete(b, torn);
          SnapOne(b);
        }
      }
    }
  }

  // ----- whole runs

  datatype Event =
    | Begin(t: int, dev: nat, block: nat)      // a task calls getblk
    | Wake(t: int)                             // a sleeping thread is scheduled
    | Read(t: int)                             // bread on the buffer it holds
    | Release(t: int)                          // brelse
    | Write(t: int, data: Block)               // a holder changes the data
    | Clear(t: int, data: Block)               // new_block
    | Discard(t: int)                          // free_block
    | Slot(k: nat)                             // a request slot becomes free for buffer k
    | Device(k: nat, torn: Block)              // the request of buffer k completes

  /** What an event does to what readers see: nothing, or one block changes. */
  datatype Effect = Nothing | Puts(dev: nat, block: nat, data: Block)

  ghost function Apply(v: imap<Id, Block>, e: Effect): imap<Id, Block> {
    if e.Nothing? then v else v[(e.dev, e.block) := e.data]
  }

  ghost function ApplyAll(v: imap<Id, Block>, es: seq<Effect>): imap<Id, Block> {
    if es == [] then v else Apply(ApplyAll(v, es[..|es| - 1]), es[|es| - 1])
  }

  predicate SoleHolder(pc: Pc)
    reads if pc.WaitAny? then {} else {pc.bh}
  {
    pc.Holding? && pc.bh.count == 1 && !pc.bh.lock
  }

  // ----- what an event does, from one snapshot of the cache to the next

  datatype Flags = Flags(dev: nat, block: nat, uptodate: bool, dirt: bool)

  /** A buffer is locked when it is pending, and referenced by the threads that pin it. */
  datatype Snapshot = Snapshot(heads: seq<BufferHead>, threads: map<int, Pc>, pending: map<BufferHead, Cmd>,
                               flags: map<BufferHead, Flags>, disk: imap<Id, Block>)

  ghost predicate Holds(s: Snapshot, t: int) {
    t in s.threads && s.threads[t].Holding? && s.threads[t].bh in s.flags
  }

  ghost predicate HoldsAlone(s: Snapshot, t: int) {
    Holds(s, t) && |Pinners(s.threads, s.threads[t].bh)| == 1 && s.threads[t].bh !in s.pending
  }

  /** Only a write, clear or discard by a thread that holds (dev, block) changes that block:
      any holder of an up-to-date buffer may write, only a sole holder may clear or discard. */
  ghost function EffectOf(s: Snapshot, ev: Event): Effect {
    match ev
    case Write(t, data) =>
      if Holds(s, t) && s.flags[s.threads[t].bh].uptodate then Puts(s.threads[t].dev, s.threads[t].block, data) else Nothing
    case Clear(t, data) =>
      if HoldsAlone(s, t) then Puts(s.threads[t].dev, s.threads[t].block, data) else Nothing
    case Discard(t) =>
      if HoldsAlone(s, t) && (s.threads[t].dev, s.threads[t].block) in s.disk then
        Puts(s.threads[t].dev, s.threads[t].block, s.disk[(s.threads[t].dev, s.threads[t].block)])
      else Nothing
    case _ => Nothing
  }

  /** A buffer is given a new identity, or its content dropped, only when it is unlocked, clean
      and pinned by no thread but t. */
  ghost predicate Licensed(s: Snapshot, u: Snapshot, t: int) {
    && u.flags.Keys == s.flags.Keys
    && forall b :: b in s.flags && u.flags[b] != s.flags[b] ==>
         b !in s.pending && !s.flags[b].dirt && !u.flags[b].dirt && forall r :: r in s.threads && r != t ==> !Pins(s.threads[r], b)
  }

  /** A sleeper whose buffer is still locked. */
  ghost predicate SleepsOn(s: Snapshot, pc: Pc) {
    if pc.Sync? then pc.i < |s.heads| && s.heads[pc.i] in s.flags && s.flags[s.heads[pc.i]].dev == pc.sdev && s.heads[pc.i] in s.pending
    else !pc.WaitAny? && pc.bh in s.pending
  }

  ghost predicate WritesBack(s: Snapshot, pc: Pc) {
    && pc.Sync? && pc.i < |s.heads| && s.heads[pc.i] in s.flags && s.flags[s.heads[pc.i]].dev == pc.sdev
    && s.heads[pc.i] !in s.pending && s.flags[s.heads[pc.i]].dirt
  }

  // ----- where getblk goes, as the state of the cache has it

  ghost predicate Carries(s: Snapshot, b: BufferHead, dev: nat, block: nat) {
    b in s.flags && s.flags[b].dev == dev && s.flags[b].block == block
  }

  ghost predicate IsCached(s: Snapshot, dev: nat, block: nat) {
    exists b :: b in s.flags && Carries(s, b, dev, block)
  }

  /** No thread refers to b. */
  ghost predicate Idle(s: Snapshot, b: BufferHead) {
    forall r :: r in s.threads ==> !Pins(s.threads[r], b)
  }

  ghost function Bad(s: Snapshot, b: BufferHead): int
    requires b in s.flags
  {
    (if s.flags[b].dirt then 2 else 0) + (if b in s.pending then 1 else 0)
  }

  /** A chosen free buffer is waited for, written back, or taken. */
  ghost function Chooses(s: Snapshot, dev: nat, block: nat, b: BufferHead): Pc
    requires b in s.flags
  {
    if b in s.pending then WaitLock(dev, block, b)
    else if s.flags[b].dirt then Sync(dev, block, b, s.flags[b].dev, 0, 1)
    else Holding(dev, block, b)
  }

  /** The block is not cached: all buffers are in use, or one of the least bad ones is chosen. */
  ghost predicate Looks(s: Snapshot, dev: nat, block: nat, pc: Pc) {
    if forall b :: b in s.flags ==> !Idle(s, b) then pc == WaitAny(dev, block)
    else
      && !pc.WaitAny? && pc.bh in s.flags && Idle(s, pc.bh) && pc == Chooses(s, dev, block, pc.bh)
      && forall b :: b in s.flags && Idle(s, b) ==> Bad(s, pc.bh) <= Bad(s, b)
  }

  /** From the label `repeat` to the first sleep or to success. */
  ghost predicate Goes(s: Snapshot, dev: nat, block: nat, pc: Pc) {
    if IsCached(s, dev, block) then
      !pc.WaitAny? && Carries(s, pc.bh, dev, block) && pc == if pc.bh in s.pending then WaitHash(dev, block, pc.bh) else Holding(dev, block, pc.bh)
    else Looks(s, dev, block, pc)
  }

  /** From the wait for buffer b: it may be in use or dirty again, or the block cached meanwhile. */
  ghost predicate GoesOn(s: Snapshot, dev: nat, block: nat, b: BufferHead, pc: Pc)
    requires b in s.flags
  {
    if !Idle(s, b) then Goes(s, dev, block, pc)
    else if s.flags[b].dirt then pc == Sync(dev, block, b, s.flags[b].dev, 0, 1)
    else if IsCached(s, dev, block) then Goes(s, dev, block, pc)
    else pc == Holding(dev, block, b)
  }

  /** sync_dev goes on to the next of n buffers, then to its second pass, then returns. */
  function NextSync(n: nat, pc: Pc): Pc
    requires pc.Sync?
  {
    if pc.i < n then pc.(i := pc.i + 1)
    else if pc.pass == 1 then pc.(i := 0, pass := 2)
    else WaitLock(pc.dev, pc.block, pc.bh)
  }

  /** Where sleeper t goes when it is resumed and its buffer is unlocked: always on to the
      block it asked for. */
  ghost predicate Resumes(s: Snapshot, t: int, pc: Pc)
    requires t in s.threads && (!s.threads[t].WaitAny? ==> s.threads[t].bh in s.flags)
  {
    var rest := s.(threads := s.threads - {t});
    match s.threads[t]
    case WaitAny(dev, block) => Goes(rest, dev, block, pc)
    case WaitHash(dev, block, b) => if Carries(s, b, dev, block) then pc == Holding(dev, block, b) else Goes(rest, dev, block, pc)
    case WaitLock(dev, block, b) => GoesOn(rest, dev, block, b, pc)
    case Sync(_, _, _, _, _, _) => pc == NextSync(|s.heads|, s.threads[t])
    case Reading(dev, block, b) => pc == Holding(dev, block, b)
    case Holding(_, _, _) => false
  }

  /** The thread that is now at pc has got its buffer: if that carried another block, it carries
      the wanted one, not yet read. */
  ghost function Granted(f: map<BufferHead, Flags>, pc: Pc): map<BufferHead, Flags> {
    if pc.Holding? && pc.bh in f && !(f[pc.bh].dev == pc.dev && f[pc.bh].block == pc.block)
    then f[pc.bh := Flags(pc.dev, pc.block, false, f[pc.bh].dirt)] else f
  }

  /** getblk begins: the thread has the block, or sleeps on the way to it. */
  ghost predicate Begins(s: Snapshot, t: int, dev: nat, block: nat, u: Snapshot) {
    if t in s.threads || dev == 0 then u == s
    else
      && t in u.threads && Goes(s, dev, block, u.threads[t]) && Licensed(s, u, t)
      && u == s.(threads := s.threads[t := u.threads[t]], flags := Granted(s.flags, u.threads[t]))
  }

  /** A sleeper is scheduled: it sleeps on, fails to read, or goes one step further. */
  ghost predicate Wakes(s: Snapshot, t: int, u: Snapshot) {
    if t !in s.threads || s.threads[t].Holding? || SleepsOn(s, s.threads[t]) then u == s
    else
      var pc := s.threads[t];
      && (!pc.WaitAny? ==> pc.bh in s.flags) && Licensed(s, u, t)
      && (if pc.Reading? && !s.flags[pc.bh].uptodate then u.threads == s.threads - {t} && u.flags == s.flags
          else
            && t in u.threads && Resumes(s, t, u.threads[t])
            && u.threads == s.threads[t := u.threads[t]] && u.flags == Granted(s.flags, u.threads[t]))
      && u.heads == s.heads && u.disk == s.disk
      && u.pending == if WritesBack(s, pc) then s.pending[s.heads[pc.i] := AwaitWrite] else s.pending
  }

  ghost predicate StartsRead(s: Snapshot, t: int, u: Snapshot) {
    if !Holds(s, t) || s.flags[s.threads[t].bh].uptodate || s.threads[t].bh in s.pending then u == s
    else
      var pc := s.threads[t];
      u == s.(threads := s.threads[t := Reading(pc.dev, pc.block, pc.bh)], pending := s.pending[pc.bh := AwaitRead])
  }

  ghost predicate Releases(s: Snapshot, t: int, u: Snapshot) {
    u == if Holds(s, t) && s.threads[t].bh !in s.pending then s.(threads := s.threads - {t}) else s
  }

  /** A request slot is found for a buffer: it is marked clean. */
  ghost predicate Queues(s: Snapshot, k: nat, u: Snapshot) {
    if k < |s.heads| && s.heads[k] in s.flags && s.heads[k] in s.pending && (s.pending[s.heads[k]].AwaitRead? || s.pending[s.heads[k]].AwaitWrite?) then
      var b := s.heads[k];
      u == s.(pending := s.pending[b := if s.pending[b].AwaitRead? then ReadQueued else WriteQueued], flags := s.flags[b := s.flags[b].(dirt := false)])
    else u == s
  }

  /** The device completes a request; only a write changes the disk, at that block. */
  ghost predicate Completes(s: Snapshot, k: nat, u: Snapshot) {
    if k < |s.heads| && s.heads[k] in s.flags && s.heads[k] in s.pending && (s.pending[s.heads[k]].ReadQueued? || s.pending[s.heads[k]].WriteQueued?) then
      var b := s.heads[k];
      var id := (s.flags[b].dev, s.flags[b].block);
      && u == s.(pending := s.pending - {b}, flags := s.flags[b := s.flags[b].(uptodate := true)], disk := u.disk)
      && (if s.pending[b].ReadQueued? then u.disk == s.disk else id in u.disk && u.disk == s.disk[id := u.disk[id]])
    else u == s
  }

  /** One step of a run: the flags of the holder's buffer follow what it did to the data. */
  ghost predicate Follows(s: Snapshot, ev: Event, e: Effect, u: Snapshot) {
    && e == EffectOf(s, ev)
    && match ev
       case Begin(t, dev, block) => Begins(s, t, dev, block, u)
       case Wake(t) => Wakes(s, t, u)
       case Read(t) => StartsRead(s, t, u)
       case Release(t) => Releases(s, t, u)
       case Write(t, _) => u == if e.Puts? && Holds(s, t) then Marked(s, s.threads[t].bh, true, true) else s
       case Clear(t, _) => u == if e.Puts? && Holds(s, t) then Marked(s, s.threads[t].bh, true, true) else s
       case Discard(t) => u == if e.Puts? && Holds(s, t) then Marked(s, s.threads[t].bh, false, false) else s
       case Slot(k) => Queues(s, k, u)
       case Device(k, _) => Completes(s, k, u)
  }

  ghost function Marked(s: Snapshot, b: BufferHead, uptodate: bool, dirt: bool): Snapshot
    requires b in s.flags
  {
    s.(flags := s.flags[b := s.flags[b].(uptodate := uptodate, dirt := dirt)])
  }

  /** No step gives a buffer that another thread pins a new identity. */
  lemma PinnedKeeps(s: Snapshot, ev: Event, e: Effect, u: Snapshot, r: int, b: BufferHead)
    requires Follows(s, ev, e, u) && r in s.threads && Pins(s.threads[r], b) && b in s.flags && !(ev.Wake? && ev.t == r)
    ensures b in u.flags && u.flags[b].dev == s.flags[b].dev && u.flags[b].block == s.flags[b].block
  {
    hide Pins, EffectOf;
    match ev
    case Begin(t, dev, block) => if t !in s.threads && dev != 0 { assert b in u.flags.Keys; }
    case Wake(t) => if t in s.threads && !s.threads[t].Holding? && !SleepsOn(s, s.threads[t]) { assert b in u.flags.Keys; }
    case _ =>
  }

  // ----- every thread gets the block it asked for

  /** A thread that holds or reads a buffer has the one that carries its block. */
  ghost predicate Orderly(s: Snapshot) {
    forall t :: t in s.threads ==>
      && s.threads[t].dev != 0
      && (s.threads[t].Holding? || s.threads[t].Reading? ==> Carries(s, s.threads[t].bh, s.threads[t].dev, s.threads[t].block))
  }

  /** As long as a thread is there it is after the same block. */
  lemma SameRequest(s: Snapshot, ev: Event, e: Effect, u: Snapshot, t: int)
    requires Follows(s, ev, e, u) && t in s.threads && t in u.threads
    ensures u.threads[t].dev == s.threads[t].dev && u.threads[t].block == s.threads[t].block
  {
    hide EffectOf, IsCached, Carries, Idle, Licensed, Granted, Bad;
  }

  /** The snapshots of a run. */
  ghost predicate RunOf(trace: seq<Snapshot>, evs: seq<Event>, es: seq<Effect>) {
    && |es| == |evs| && |trace| == |evs| + 1 && (forall i :: 0 <= i < |trace| ==> Orderly(trace[i]))
    && forall i :: 0 <= i < |evs| ==> Follows(trace[i], evs[i], es[i], trace[i + 1])
  }

  /** getblk(dev, block), however often it sleeps and whoever takes its buffers meanwhile, ends
      with the buffer of (dev, block), and with no other. */
  lemma {:induction false} GetsWanted(trace: seq<Snapshot>, evs: seq<Event>, es: seq<Effect>, i: nat, j: nat, t: int)
    requires RunOf(trace, evs, es) && i < j <= |evs|
    requires evs[i].Begin? && evs[i].t == t && evs[i].dev != 0 && t !in trace[i].threads
    requires forall k :: i < k <= j ==> t in trace[k].threads
    ensures var pc := trace[j].threads[t];
      && pc.dev == evs[i].dev && pc.block == evs[i].block
      && (pc.Holding? || pc.Reading? ==> Carries(trace[j], pc.bh, evs[i].dev, evs[i].block))
    decreases j
  {
    hide Follows, Carries;
    if j == i + 1 {
      BeginsFor(trace[i], evs[i], es[i], trace[j]);
    } else {
      GetsWanted(trace, evs, es, i, j - 1, t);
      SameRequest(trace[j - 1], evs[j - 1], es[j - 1], trace[j], t);
    }
    assert Orderly(trace[j]);
  }

  lemma BeginsFor(s: Snapshot, ev: Event, e: Effect, u: Snapshot)
    requires Follows(s, ev, e, u) && ev.Begin? && ev.dev != 0 && ev.t !in s.threads
    ensures ev.t in u.threads && u.threads[ev.t].dev == ev.dev && u.threads[ev.t].block == ev.block
  {
    hide IsCached, Carries, Idle, Licensed, Granted, Bad;
  }

  // ----- when getblk need not sleep, and what it does when it must write

  /** With a clean free buffer at hand getblk neither waits for one to become free nor writes one
      back, and if that buffer is not locked it does not sleep at all. */
  lemma PrefersClean(s: Snapshot, dev: nat, block: nat, pc: Pc, b: BufferHead)
    requires Goes(s, dev, block, pc) && !IsCached(s, dev, block) && b in s.flags && Idle(s, b) && !s.flags[b].dirt
    ensures b !in s.pending ==> pc.Holding?
    ensures !pc.Sync? && !pc.WaitAny?
  {
    hide Idle;
  }

  /** A cached block that is not locked is had at once, and it is the buffer that carries it. */
  lemma CachedAtOnce(s: Snapshot, dev: nat, block: nat, pc: Pc, b: BufferHead)
    requires Goes(s, dev, block, pc) && Carries(s, b, dev, block) && forall a :: Carries(s, a, dev, block) ==> a == b
    ensures pc == if b in s.pending then WaitHash(dev, block, b) else Holding(dev, block, b)
  {
    assert IsCached(s, dev, block);
  }

  /** The steps of sync_dev in order: buffers 0 .. n in pass 1, then again in pass 2. */
  function Place(n: nat, pc: Pc): int
    requires pc.Sync?
  {
    (pc.pass - 1) * (n + 1) + pc.i
  }

  /** sync_dev goes on to the next place only when the buffer before it is not locked, and then it
      starts to write it if it is a dirty one of its device. */
  lemma SyncGoesOn(s: Snapshot, ev: Event, e: Effect, u: Snapshot, t: int)
    requires Follows(s, ev, e, u) && t in s.threads && t in u.threads && s.threads[t].Sync? && s.threads[t] != u.threads[t]
    ensures ev == Wake(t) && u.heads == s.heads && u.threads[t] == NextSync(|s.heads|, s.threads[t]) && !SleepsOn(s, s.threads[t])
    ensures var pc := s.threads[t];
      WritesBack(s, pc) ==> s.heads[pc.i] in u.pending && u.pending[s.heads[pc.i]] == AwaitWrite
  {
    hide EffectOf, IsCached, Carries, Idle, Licensed, Granted, Bad, Goes, GoesOn;
  }

  lemma SameHeads(s: Snapshot, ev: Event, e: Effect, u: Snapshot)
    requires Follows(s, ev, e, u)
    ensures u.heads == s.heads
  {
    hide EffectOf, IsCached, Carries, Idle, Licensed, Granted, Bad, Goes, GoesOn, Resumes;
  }

  ghost predicate SyncOk(pc: Pc, n: nat) {
    pc.Sync? ==> 1 <= pc.pass <= 2 && pc.i <= n
  }

  /** sync_dev does not return before it has stood before every buffer in both passes, and it has
      left each of them in the way SyncGoesOn says. */
  lemma {:induction false} SyncPasses(trace: seq<Snapshot>, evs: seq<Event>, es: seq<Effect>, a: nat, z: nat, t: int, i: nat, pass: int) returns (k: nat)
    requires RunOf(trace, evs, es) && a < z <= |evs| && forall j :: a <= j <= z ==> t in trace[j].threads
    requires trace[a].threads[t].Sync? && !trace[z].threads[t].Sync?
    requires var pc, n := trace[a].threads[t], |trace[a].heads|;
      SyncOk(pc, n) && i <= n && 1 <= pass <= 2 && Place(n, pc) <= Place(n, pc.(i := i, pass := pass))
    ensures a <= k < z && trace[k].threads[t] == trace[a].threads[t].(i := i, pass := pass) && trace[k + 1].threads[t] != trace[k].threads[t]
    decreases z - a
  {
    hide Follows, Orderly;
    var pc, n := trace[a].threads[t], |trace[a].heads|;
    assert Follows(trace[a], evs[a], es[a], trace[a + 1]);
    SameHeads(trace[a], evs[a], es[a], trace[a + 1]);
    if trace[a + 1].threads[t] == pc {
      k := SyncPasses(trace, evs, es, a + 1, z, t, i, pass);
    } else {
      SyncGoesOn(trace[a], evs[a], es[a], trace[a + 1], t);
      if pc.i == i && pc.pass == pass {
        k := a;
      } else {
        k := SyncPasses(trace, evs, es, a + 1, z, t, i, pass);
      }
    }
  }

  /** One event, if it is possible at all in the current state. */
  method Perform(c: BufferCache, ev: Event) returns (e: Effect)
    requires c.Valid()
    modifies c`threads, c`pending, c`disk, c.lists, c.lists.hashTable, c.lists.heads
    ensures c.Valid() && Follows(old(c.Snap()), ev, e, c.Snap())
    ensures c.Overlay() == Apply(old(c.Overlay()), e)
  {
    hide c.Valid, c.Overlay, c.Snap, Begins, Wakes, StartsRead, Releases, Queues, Completes;
    e := Nothing;
    match ev
    case Begin(t, dev, block) => c.OnBegin(t, dev, block);
    case Wake(t) => c.OnWake(t);
    case Read(t) => c.OnRead(t);
    case Release(t) => c.OnRelease(t);
    case Write(t, data) => e := c.OnWrite(t, data);
    case Clear(t, data) => e := c.OnClear(t, data);
    case Discard(t) => e := c.OnDiscard(t);
    case Slot(k) => c.OnSlot(k);
    case Device(k, torn) => c.OnDevice(k, torn);
  }

  /** Cache coherence over every interleaving: what readers see changes only at blocks that a
      holder wrote, with what it wrote, in the order of those writes; eviction, sync_dev and
      bread lose nothing.  Every event is one step of the cache. */
  method Run(c: BufferCache, evs: seq<Event>) returns (es: seq<Effect>, ghost trace: seq<Snapshot>)
    requires c.Valid()
    modifies c`threads, c`pending, c`disk, c.lists, c.lists.hashTable, c.lists.heads
    ensures c.Valid() && RunOf(trace, evs, es) && trace[0] == old(c.Snap()) && trace[|evs|] == c.Snap()
    ensures c.Overlay() == ApplyAll(old(c.Overlay()), es)
  {
    hide c.Valid, c.Overlay, c.Snap, Apply, Follows, Orderly;
    c.SnapOrderly();
    es, trace := [], [c.Snap()];
    while |es| < |evs|
      invariant |es| <= |evs| && c.Valid() && |trace| == |es| + 1 && trace[0] == old(c.Snap()) && trace[|es|] == c.Snap()
      invariant forall i :: 0 <= i < |trace| ==> Orderly(trace[i])
      invariant forall i :: 0 <= i < |es| ==> Follows(trace[i], evs[i], es[i], trace[i + 1])
      invariant c.Overlay() == ApplyAll(old(c.Overlay()), es)
    {
      ghost var before := es;
      var e := Perform(c, evs[|es|]);
      c.SnapOrderly();
      es, trace := es + [e], trace + [c.Snap()];
      assert es[..|es| - 1] == before;
    }
  }
}
