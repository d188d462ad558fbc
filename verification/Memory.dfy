/**
 mm/memory.c and the page handling of kernel/fork.c as a class that updates mem_map, the
 page directory and the physical frames in place.  A panic of the source is a state that
 the preconditions forbid; `oom` is reported to the caller.
 */
module Memory {
  import opened PageTables

  const TABLE_BYTES: int := 0x400000        // what one directory entry maps
  const TASK_BYTES: int := 0x4000000        // linear space of one task

  // ----- layouts and views after clearing or copying a range of directory entries

  predicate Before(k: Spot, d0: int, d: int, i: int) {
    d0 <= k.0 < d || (k.0 == d && d0 <= d && k.1 < i)
  }

  /** s without directory entries d0..d and without the first i entries of table d. */
  ghost function Without<V>(s: imap<Spot, V>, d0: int, d: int, i: int): imap<Spot, V> {
    imap k: Spot | k in s && !Before(k, d0, d, i) :: s[k]
  }

  /** s with the tables from f0 copied to t0: all tables before t, and i entries of table t. */
  ghost function Copied<V>(s: imap<Spot, V>, f0: int, t0: int, t: int, i: int): imap<Spot, V> {
    imap k: Spot | (if Before(k, t0, t, i) then (k.0 - t0 + f0, k.1) in s else k in s)
      :: if Before(k, t0, t, i) then s[(k.0 - t0 + f0, k.1)] else s[k]
  }

  ghost predicate OnSpots<V>(s: imap<Spot, V>) {
    forall k :: k in s ==> IsSpot(k.0, k.1)
  }

  ghost predicate NoneIn<V>(s: imap<Spot, V>, d0: int, d1: int) {
    forall k :: k in s ==> !(d0 <= k.0 < d1)
  }

  lemma WithoutStep<V>(s: imap<Spot, V>, t: imap<Spot, V>, r: imap<Spot, V>, d0: int, d: int, i: int)
    requires d0 <= d && t == Without(s, d0, d, i) && r == t - {(d, i)}
    ensures r == Without(s, d0, d, i + 1)
  {
  }

  lemma WithoutTable<V>(s: imap<Spot, V>, d0: int, d: int)
    requires d0 <= d && OnSpots(s)
    ensures Without(s, d0, d, NR_ENTRY) == Without(s, d0, d + 1, 0)
  {
  }

  lemma WithoutAbsent<V>(s: imap<Spot, V>, d0: int, d: int)
    requires d0 <= d && OnSpots(s)
    requires forall i :: 0 <= i < NR_ENTRY ==> (d, i) !in s
    ensures Without(s, d0, d, 0) == Without(s, d0, d + 1, 0)
  {
  }

  lemma WithoutStart<V>(s: imap<Spot, V>, d0: int)
    requires OnSpots(s)
    ensures Without(s, d0, d0, 0) == s
  {
  }

  lemma CopiedStart<V>(s: imap<Spot, V>, f0: int, t0: int)
    requires OnSpots(s)
    ensures Copied(s, f0, t0, t0, 0) == s
  {
  }

  lemma CopiedStep<V>(s: imap<Spot, V>, u: imap<Spot, V>, r: imap<Spot, V>, f0: int, t0: int, t: int, i: int)
    requires OnSpots(s) && t0 <= t && u == Copied(s, f0, t0, t, i)
    requires t - t0 < SLOT_DIRS && (f0 + SLOT_DIRS <= t0 || t0 + SLOT_DIRS <= f0)
    requires var f := (t - t0 + f0, i); f in s && f in u && r == u[(t, i) := u[f]]
    ensures r == Copied(s, f0, t0, t, i + 1)
  {
  }

  lemma CopiedSkip<V>(s: imap<Spot, V>, f0: int, t0: int, t: int, i: int)
    requires t0 <= t && (t - t0 + f0, i) !in s && (t, i) !in s
    ensures Copied(s, f0, t0, t, i) == Copied(s, f0, t0, t, i + 1)
  {
  }

  lemma CopiedTable<V>(s: imap<Spot, V>, f0: int, t0: int, t: int)
    requires t0 <= t && OnSpots(s) && (t, NR_ENTRY) !in s
    requires forall i :: i >= NR_ENTRY || i < 0 ==> (t, i) !in s && (t - t0 + f0, i) !in s
    ensures Copied(s, f0, t0, t, NR_ENTRY) == Copied(s, f0, t0, t + 1, 0)
  {
    forall k: Spot ensures Before(k, t0, t, NR_ENTRY) == Before(k, t0, t + 1, 0) || k.1 >= NR_ENTRY || k.1 < 0 {
    }
  }

  lemma CopiedAbsent<V>(s: imap<Spot, V>, f0: int, t0: int, t: int)
    requires t0 <= t && OnSpots(s)
    requires forall i :: (t, i) !in s && (t - t0 + f0, i) !in s
    ensures Copied(s, f0, t0, t, 0) == Copied(s, f0, t0, t + 1, 0)
  {
  }

  /** Clearing the copy gives the original back. */
  lemma WithoutCopied<V>(s: imap<Spot, V>, f0: int, t0: int, t: int, i: int, t1: int)
    requires OnSpots(s) && NoneIn(s, t0, t1) && t0 <= t <= t1 && (i > 0 ==> t < t1)
    ensures Without(Copied(s, f0, t0, t, i), t0, t1, 0) == s
  {
  }

  // ----- which pages were stored into

  /** For every mapped spot whether its entry is dirty. */
  ghost function Dirt(l: imap<Spot, Mapping>): imap<Spot, bool> {
    imap k: Spot | k in l :: l[k].dirty
  }

  lemma DirtSet(l: imap<Spot, Mapping>, r: imap<Spot, Mapping>, k: Spot, v: Mapping)
    requires r == l[k := v]
    ensures Dirt(r) == Dirt(l)[k := v.dirty]
  {
  }

  lemma DirtWithout(l: imap<Spot, Mapping>, r: imap<Spot, Mapping>, d0: int, d: int, i: int)
    requires r == Without(l, d0, d, i)
    ensures Dirt(r) == Without(Dirt(l), d0, d, i)
  {
  }

  lemma DirtCopied(l: imap<Spot, Mapping>, r: imap<Spot, Mapping>, f0: int, t0: int, t: int, i: int)
    requires r == Copied(l, f0, t0, t, i)
    ensures Dirt(r) == Copied(Dirt(l), f0, t0, t, i)
  {
  }

  lemma DirtTwice(d: imap<Spot, bool>, u: imap<Spot, bool>, r: imap<Spot, bool>, k: Spot)
    requires (u == d || u == d[k := false]) && r == u[k := true]
    ensures r == d[k := true]
  {
  }

  // ----- what the layout says about single entries

  lemma LayoutAt(m: Mm, d: int, i: int)
    requires Shape(m) && IsSpot(d, i)
    ensures (d, i) in Layout(m) <==> Entry(m, d, i).present
    ensures Inv(m) ==> ((d, i) in Space(m) <==> (d, i) in Layout(m))
    ensures !m.dir[d].present ==> (d, i) !in Layout(m)
  {
  }

  lemma LayoutSpots(m: Mm)
    requires Inv(m)
    ensures OnSpots(Layout(m)) && OnSpots(Space(m))
    ensures Layout(m).Keys == Space(m).Keys
  {
  }

  /** The counts are a function of the layout, the directory and the kernel's holders. */
  lemma SameLayoutSameCounts(m: Mm, n: Mm)
    requires Inv(m) && Inv(n) && Layout(m) == Layout(n) && m.kernel == n.kernel
    requires forall d :: SLOT_DIRS <= d < NR_DIR ==> m.dir[d].present == n.dir[d].present && (m.dir[d].present ==> m.dir[d] == n.dir[d])
    ensures m.mem == n.mem
  {
    forall d, i | IsSpot(d, i)
      ensures Entry(m, d, i).present == Entry(n, d, i).present
      ensures Entry(m, d, i).present ==> Entry(m, d, i).page == Entry(n, d, i).page
    {
      LayoutAt(m, d, i);
      LayoutAt(n, d, i);
      if Entry(m, d, i).present { assert Layout(m)[(d, i)] == Layout(n)[(d, i)]; }
    }
    forall p | 0 <= p < PAGING_PAGES ensures m.mem[p] == n.mem[p] {
      assert Counted(m, p + LOW_PAGE) && Counted(n, p + LOW_PAGE);
      assert Refs(m, p + LOW_PAGE) == Refs(n, p + LOW_PAGE);
      assert DirRefs(m, p + LOW_PAGE) == DirRefs(n, p + LOW_PAGE);
    }
  }

  /** un_wp_page finds that the page is mapped here only. */
  predicate Sole(m: Mm, d: int, i: int)
    requires Shape(m) && IsSpot(d, i)
  {
    var p := Entry(m, d, i).page;
    LOW_PAGE <= p < NR_PHYS && m.mem[p - LOW_PAGE] == 1
  }

  /** The pages that mapping one more page under directory entry d takes. */
  function Needed(m: Mm, d: int): nat
    requires 0 <= d < |m.dir|
  {
    if m.dir[d].present then 1 else 2
  }

  /** A write to the spot cannot be served: the page is shared and there is none for a copy. */
  ghost predicate Stuck(m: Mm, d: int, i: int)
    requires Shape(m) && IsSpot(d, i)
  {
    Entry(m, d, i).present && !Entry(m, d, i).writable && !Sole(m, d, i) && Free(m.mem) == 0
  }

  /** What try_to_share asks of the other task's page: there, clean and above 1 MB. */
  predicate Sharable(m: Mm, d: int, i: int)
    requires Shape(m) && IsSpot(d, i)
  {
    Entry(m, d, i).present && !Entry(m, d, i).dirty && LOW_PAGE <= Entry(m, d, i).page < NR_PHYS
  }

  /** Task p runs the executable of task cur and can share its page at this offset. */
  predicate Offers(m: Mm, p: int, dl: int, i: int, cur: int, executable: seq<int>)
    requires Shape(m) && 1 <= p < NR_TASKS && 0 <= dl < SLOT_DIRS && 0 <= i < NR_ENTRY
    requires |executable| == NR_TASKS && 1 <= cur < NR_TASKS
  {
    m.task[p] != 0 && p != cur && executable[p] == executable[cur] && Sharable(m, p * SLOT_DIRS + dl, i)
  }

  ghost predicate SlotFree(m: Mm)
    requires |m.task| == NR_TASKS
  {
    exists s :: 1 <= s < NR_TASKS && m.task[s] == 0
  }

  class Memory {
    const memMap: array<int>       // mem_map
    const dir: array<Word>         // the page directory at address 0
    const phys: array<Frame>       // physical memory, frame by frame
    const task: array<int>         // page of each task_struct, 0 for an empty slot
    const zombie: array<bool>      // TASK_ZOMBIE
    const executable: array<int>   // number of the inode that a task executes, 0 for none
    ghost var kernel: multiset<int>

    ghost function State(): Mm
      reads this, memMap, dir, phys, task
    {
      Mm(memMap[..], dir[..], phys[..], task[..], kernel)
    }

    /** For every mapped spot whether it was stored into. */
    ghost function Stored(): imap<Spot, bool>
      requires Shape(State())
      reads this, memMap, dir, phys, task
    {
      Dirt(Layout(State()))
    }

    ghost predicate Arrays() {
      && memMap.Length == PAGING_PAGES && dir.Length == NR_DIR && phys.Length == NR_PHYS
      && task.Length == NR_TASKS && zombie.Length == NR_TASKS && executable.Length == NR_TASKS
      && memMap != task && executable != memMap && executable != task
    }

    /** Empty slots and zombies own no page tables. */
    ghost predicate SlotsClean()
      reads dir, task, zombie
      requires Arrays()
    {
      forall s, d :: 1 <= s < NR_TASKS && (task[s] == 0 || zombie[s]) && s * SLOT_DIRS <= d < (s + 1) * SLOT_DIRS
        ==> !dir[d].present
    }

    ghost predicate Valid()
      reads this, memMap, dir, phys, task, zombie
    {
      Arrays() && Inv(State()) && SlotsClean()
    }

    /** mem_init: everything above 1 MB is marked used except the main memory area. */
    constructor (startMem: int, endMem: int)
      requires LOW_PAGE * 4096 <= startMem <= endMem <= NR_PHYS * 4096 && startMem % 4096 == 0
      ensures Valid() && fresh(memMap) && fresh(dir) && fresh(phys) && fresh(task) && fresh(zombie) && fresh(executable)
      ensures forall k :: 0 <= k < PAGING_PAGES ==> memMap[k] == if startMem / 4096 <= k + LOW_PAGE < endMem / 4096 then 0 else USED
      ensures Space(State()) == imap[]
    {
      memMap := new int[PAGING_PAGES](_ => USED);
      dir := new Word[NR_DIR](_ => ZERO);
      phys := new Frame[NR_PHYS](_ => ZeroFrame());
      task := new int[NR_TASKS](_ => 0);
      zombie := new bool[NR_TASKS](_ => false);
      executable := new int[NR_TASKS](_ => 0);
      kernel := multiset{};
      new;
      var i := startMem / 4096 - LOW_PAGE;
      var left := (endMem - startMem) / 4096;
      while left > 0
        invariant 0 <= left && i + left == endMem / 4096 - LOW_PAGE
        invariant startMem / 4096 - LOW_PAGE <= i <= endMem / 4096 - LOW_PAGE
        invariant forall k :: 0 <= k < PAGING_PAGES ==> memMap[k] == if startMem / 4096 - LOW_PAGE <= k < i then 0 else USED
        invariant forall d :: 0 <= d < NR_DIR ==> dir[d] == ZERO
        invariant forall p :: 0 <= p < NR_PHYS ==> |phys[p]| == NR_ENTRY
        invariant forall t :: 0 <= t < NR_TASKS ==> task[t] == 0
      {
        memMap[i] := 0;
        i, left := i + 1, left - 1;
      }
      ghost var q, held := LOW_PAGE, multiset{};
      while q < NR_PHYS
        invariant LOW_PAGE <= q <= NR_PHYS
        invariant forall p :: held[p] == if LOW_PAGE <= p < q then memMap[p - LOW_PAGE] else 0
      {
        held := held[q := memMap[q - LOW_PAGE]];
        q := q + 1;
      }
      kernel := held;
      BlankInv(State());
    }

    /** get_free_page: the last free page, cleared; 0 when there is none. */
    method GetFreePage() returns (page: nat)
      requires Arrays() && Inv(State())
      modifies this`kernel, memMap, phys
      ensures Inv(State())
      ensures page == 0 ==> State() == old(State()) && forall k :: 0 <= k < PAGING_PAGES ==> memMap[k] != 0
      ensures page != 0 ==>
        && LOW_PAGE <= page < NR_PHYS && old(State()).mem[page - LOW_PAGE] == 0
        && (forall k :: page - LOW_PAGE < k < PAGING_PAGES ==> old(State()).mem[k] != 0)
        && State() == Alloc(old(State()), page)
        && FreshPage(State(), page)
      ensures page == 0 <==> old(Free(memMap[..])) == 0
      ensures page != 0 ==> Free(memMap[..]) == old(Free(memMap[..])) - 1
      ensures Layout(State()) == old(Layout(State())) && Space(State()) == old(Space(State()))
    {
      hide Inv, Layout, Space, Refs, DirRefs;
      var cx := PAGING_PAGES;
      while cx > 0 && memMap[cx - 1] != 0
        invariant 0 <= cx <= PAGING_PAGES
        invariant forall p :: cx <= p < PAGING_PAGES ==> memMap[p] != 0
      {
        cx := cx - 1;
      }
      if cx == 0 {
        FreeNone(memMap[..]);
        return 0;
      }
      page := cx - 1 + LOW_PAGE;
      ghost var m := State();
      AllocKeeps(m, page);
      FreshAfterAlloc(m, page);
      FreeTaken(m.mem, page - LOW_PAGE, 1);
      memMap[page - LOW_PAGE] := 1;
      phys[page] := ZeroFrame();
      kernel := kernel + multiset{page};
      assert State() == Alloc(m, page);
    }

    /** free_page.  The two panics are what the preconditions exclude. */
    method FreePage(page: int)
      requires memMap.Length == PAGING_PAGES
      requires 0 <= page < NR_PHYS
      requires LOW_PAGE <= page ==> memMap[page - LOW_PAGE] > 0
      modifies memMap
      ensures page < LOW_PAGE ==> memMap[..] == old(memMap[..])
      ensures LOW_PAGE <= page ==> memMap[..] == old(memMap[..])[page - LOW_PAGE := old(memMap[page - LOW_PAGE]) - 1]
    {
      if page < LOW_PAGE { return; }
      memMap[page - LOW_PAGE] := memMap[page - LOW_PAGE] - 1;
    }

    /** The body of free_page_tables' inner loop: drop one entry of table d. */
    method FreeEntry(d: int, i: int)
      requires Arrays() && Inv(State()) && IsSpot(d, i) && dir[d].present
      modifies memMap, phys
      ensures Inv(State())
      ensures Layout(State()) == old(Layout(State())) - {(d, i)} && Space(State()) == old(Space(State())) - {(d, i)}
    {
      hide Inv, Layout, Space, Refs, DirRefs;
      ghost var m := State();
      ClearKeeps(m, d, i);
      var t := dir[d].page;
      var w := phys[t][i];
      if w.present {
        FreePage(w.page);
      }
      phys[t] := phys[t][i := ZERO];
      assert State() == Clear(m, d, i);
    }

    /** free_page_tables: everything mapped in the given directory entries is released. */
    method FreePageTables(from: int, size: int)
      requires Arrays() && Inv(State())
      requires from % TABLE_BYTES == 0 && SLOT_DIRS <= from / TABLE_BYTES && 0 <= size
      requires from / TABLE_BYTES + (size + TABLE_BYTES - 1) / TABLE_BYTES <= NR_DIR
      modifies memMap, phys, dir
      ensures Inv(State())
      ensures var d0 := from / TABLE_BYTES; var d1 := d0 + (size + TABLE_BYTES - 1) / TABLE_BYTES;
        && (forall d :: d0 <= d < d1 ==> !dir[d].present)
        && (forall d :: 0 <= d < NR_DIR && !(d0 <= d < d1) ==> dir[d] == old(dir[d]))
        && Layout(State()) == Without(old(Layout(State())), d0, d1, 0)
        && Space(State()) == Without(old(Space(State())), d0, d1, 0)
    {
      hide Inv, Layout, Space, Without;
      var d0, n := from / TABLE_BYTES, (size + TABLE_BYTES - 1) / TABLE_BYTES;
      ghost var m := State();
      LayoutSpots(m);
      WithoutStart(Layout(m), d0);
      WithoutStart(Space(m), d0);
      var d := d0;
      while d < d0 + n
        invariant d0 <= d <= d0 + n
        invariant Inv(State())
        invariant forall e :: d0 <= e < d ==> !dir[e].present
        invariant forall e :: 0 <= e < NR_DIR && !(d0 <= e < d) ==> dir[e] == m.dir[e]
        invariant Layout(State()) == Without(Layout(m), d0, d, 0) && Space(State()) == Without(Space(m), d0, d, 0)
      {
        if dir[d].present {
          FreeTable(d, d0, m);
        } else {
          AbsentTable(m, d0, d);
        }
        d := d + 1;
      }
    }

    /** One round of free_page_tables: the 1024 entries of table d, then the table itself. */
    method FreeTable(d: int, ghost d0: int, ghost m: Mm)
      requires Arrays() && Inv(State()) && SLOT_DIRS <= d0 <= d < NR_DIR && dir[d].present && Inv(m)
      requires Layout(State()) == Without(Layout(m), d0, d, 0) && Space(State()) == Without(Space(m), d0, d, 0)
      modifies memMap, phys, dir
      ensures Inv(State()) && dir[..] == old(dir[..])[d := ZERO]
      ensures Layout(State()) == Without(Layout(m), d0, d + 1, 0) && Space(State()) == Without(Space(m), d0, d + 1, 0)
    {
      hide Inv, Layout, Space, Without;
      var t := dir[d].page;
      var nr := 0;
      while nr < NR_ENTRY
        invariant 0 <= nr <= NR_ENTRY
        invariant Inv(State()) && dir[..] == old(dir[..])
        invariant Layout(State()) == Without(Layout(m), d0, d, nr) && Space(State()) == Without(Space(m), d0, d, nr)
      {
        ghost var u := State();
        FreeEntry(d, nr);
        WithoutStep(Layout(m), Layout(u), Layout(State()), d0, d, nr);
        WithoutStep(Space(m), Space(u), Space(State()), d0, d, nr);
        nr := nr + 1;
      }
      ghost var u := State();
      LayoutSpots(m);
      WithoutTable(Layout(m), d0, d);
      WithoutTable(Space(m), d0, d);
      EmptiedTable(u, Layout(m), d0, d);
      DropTableKeeps(u, d);
      TableHigh(u, d);
      FreePage(t);
      dir[d] := ZERO;
      assert State() == DropTable(u, d);
    }

    /** A fresh page table for directory entry d; false when there is no page for it. */
    method NewTable(d: int) returns (ok: bool)
      requires Arrays() && Inv(State()) && SLOT_DIRS <= d < NR_DIR && !dir[d].present
      modifies this`kernel, memMap, phys, dir
      ensures Inv(State()) && kernel == old(kernel)
      ensures ok <==> old(Free(memMap[..])) > 0
      ensures !ok ==> State() == old(State())
      ensures ok ==> Free(memMap[..]) == old(Free(memMap[..])) - 1
      ensures ok ==> dir[..] == old(dir[..])[d := dir[d]] && dir[d].present
      ensures Layout(State()) == old(Layout(State())) && Space(State()) == old(Space(State()))
      ensures forall e, i :: IsSpot(e, i) ==> Entry(State(), e, i).present == old(Entry(State(), e, i)).present
      ensures forall p :: old(FreshPage(State(), p)) ==> FreshPage(State(), p) && phys[p] == old(phys[p])
    {
      hide Inv, Layout, Space, Refs, DirRefs;
      ghost var m := State();
      var page := GetFreePage();
      if page == 0 {
        return false;
      }
      NewTableKeeps(m, d, page);
      dir[d] := Rwx(page);
      kernel := kernel - multiset{page};
      assert State() == AddTable(Alloc(m, page), d, page);
      return true;
    }

    /** One entry of copy_page_tables: the child gets the parent's page, both write-protected. */
    method ShareEntry(fd: int, td: int, i: int)
      requires Arrays() && Inv(State()) && IsSpot(fd, i) && IsSpot(td, i) && fd != td
      requires dir[fd].present && dir[td].present && fd % SLOT_DIRS == td % SLOT_DIRS
      requires phys[dir[fd].page][i].present && !phys[dir[td].page][i].present
      modifies memMap, phys
      ensures Inv(State()) && Free(memMap[..]) == old(Free(memMap[..]))
      ensures Layout(State()) == old(Layout(State()))[(td, i) := old(Layout(State()))[(fd, i)]]
      ensures Space(State()) == old(Space(State()))[(td, i) := old(Space(State()))[(fd, i)]]
    {
      hide Inv, Layout, Space, Refs, DirRefs;
      ghost var m := State();
      ShareKeeps(m, fd, td, i);
      ShareExplicit(m, fd, td, i);
      MappedIsCounted(m, fd, i);
      var thisPage := phys[dir[fd].page][i];
      thisPage := thisPage.(writable := false);
      phys[dir[td].page] := phys[dir[td].page][i := thisPage];
      if LOW_PAGE <= thisPage.page {
        phys[dir[fd].page] := phys[dir[fd].page][i := thisPage];
        memMap[thisPage.page - LOW_PAGE] := memMap[thisPage.page - LOW_PAGE] + 1;
      }
      assert State() == Share(m, fd, td, i);
      FreeSame(m.mem, memMap[..]);
    }

    /** copy_page_tables between two task slots: 0, or -1 when a page table could not be had,
        with the tables copied so far left in place. */
    method CopyPageTables(from: int, to: int, size: int) returns (r: int)
      requires Valid()
      requires from % TASK_BYTES == 0 && to % TASK_BYTES == 0 && from != to && 0 <= size <= TASK_BYTES
      requires TASK_BYTES <= from < NR_TASKS * TASK_BYTES && TASK_BYTES <= to < NR_TASKS * TASK_BYTES
      requires forall d :: to / TABLE_BYTES <= d < to / TABLE_BYTES + SLOT_DIRS ==> !dir[d].present
      modifies this`kernel, memMap, phys, dir
      ensures Inv(State()) && kernel == old(kernel)
      ensures var n := (size + TABLE_BYTES - 1) / TABLE_BYTES; var f0, t0 := from / TABLE_BYTES, to / TABLE_BYTES;
        && (forall d :: 0 <= d < NR_DIR && !(t0 <= d < t0 + n) ==> dir[d] == old(dir[d]))
        && (r == 0 ==> Layout(State()) == Copied(old(Layout(State())), f0, t0, t0 + n, 0))
        && (r == 0 ==> Space(State()) == Copied(old(Space(State())), f0, t0, t0 + n, 0))
        && Without(Layout(State()), t0, t0 + n, 0) == old(Layout(State()))
        && Without(Space(State()), t0, t0 + n, 0) == old(Space(State()))
      ensures r == 0 || r == -1
      ensures var n := (size + TABLE_BYTES - 1) / TABLE_BYTES; var f0 := from / TABLE_BYTES;
        0 <= f0 && f0 + n <= NR_DIR && (r == 0 <==> Tables(old(dir[..]), f0, f0 + n) <= old(Free(memMap[..])))
    {
      hide Inv, Layout, Space, Refs, DirRefs, Copied, Without, Free, Tables;
      SlotsApart(from, to, size);
      r := CopyDirs(from / TABLE_BYTES, to / TABLE_BYTES, (size + TABLE_BYTES - 1) / TABLE_BYTES);
    }

    /** The loop of copy_page_tables over n directory entries. */
    method CopyDirs(f0: int, t0: int, n: int) returns (r: int)
      requires Arrays() && Inv(State()) && CopyRange(f0, t0, t0) && 0 <= n <= SLOT_DIRS
      requires forall d :: t0 <= d < t0 + SLOT_DIRS ==> !dir[d].present
      modifies this`kernel, memMap, phys, dir
      ensures Inv(State()) && kernel == old(kernel)
      ensures forall d :: 0 <= d < NR_DIR && !(t0 <= d < t0 + n) ==> dir[d] == old(dir[d])
      ensures r == 0 ==> Layout(State()) == Copied(old(Layout(State())), f0, t0, t0 + n, 0)
      ensures r == 0 ==> Space(State()) == Copied(old(Space(State())), f0, t0, t0 + n, 0)
      ensures Without(Layout(State()), t0, t0 + n, 0) == old(Layout(State()))
      ensures Without(Space(State()), t0, t0 + n, 0) == old(Space(State()))
      ensures r == 0 || r == -1
      ensures r == 0 <==> Tables(old(dir[..]), f0, f0 + n) <= old(Free(memMap[..]))
    {
      hide Inv, Layout, Space, Refs, DirRefs, Copied, Without, Free, Shape;
      ghost var m := State();
      CopyBegins(m, f0, t0);
      r := 0;
      var t := t0;
      while t < t0 + n
        invariant t0 <= t <= t0 + n
        invariant Inv(State()) && kernel == old(kernel)
        invariant forall d :: 0 <= d < NR_DIR && !(t0 <= d < t) ==> dir[d] == m.dir[d]
        invariant Free(memMap[..]) == Free(m.mem) - Tables(m.dir, f0, t - t0 + f0)
        invariant Layout(State()) == Copied(Layout(m), f0, t0, t, 0) && Space(State()) == Copied(Space(m), f0, t0, t, 0)
      {
        var ok := CopyRound(t, f0, t0, m);
        if !ok {
          TablesAtMost(m.dir, f0, t - t0 + f0 + 1, f0 + n);
          r := -1;
          break;
        }
        t := t + 1;
      }
      CopyUndone(m, f0, t0, t, t0 + n);
    }

    /** One round of copy_page_tables: nothing to do when the parent has no table there. */
    method CopyRound(t: int, f0: int, t0: int, ghost m: Mm) returns (ok: bool)
      requires Arrays() && Inv(State()) && Inv(m) && CopyRange(f0, t0, t) && !dir[t].present
      requires !m.dir[t].present && dir[t - t0 + f0] == m.dir[t - t0 + f0]
      requires Layout(State()) == Copied(Layout(m), f0, t0, t, 0) && Space(State()) == Copied(Space(m), f0, t0, t, 0)
      modifies this`kernel, memMap, phys, dir
      ensures Inv(State()) && kernel == old(kernel)
      ensures ok <==> !dir[t - t0 + f0].present || old(Free(memMap[..])) > 0
      ensures !ok ==> State() == old(State())
      ensures ok ==> Free(memMap[..]) == old(Free(memMap[..])) - if dir[t - t0 + f0].present then 1 else 0
      ensures ok ==> dir[..] == old(dir[..])[t := dir[t]]
      ensures ok ==> Layout(State()) == Copied(Layout(m), f0, t0, t + 1, 0) && Space(State()) == Copied(Space(m), f0, t0, t + 1, 0)
    {
      hide Inv, Layout, Space, Refs, DirRefs, Copied;
      if dir[t - t0 + f0].present {
        ok := CopyTable(t, f0, t0, m);
      } else {
        ok := true;
        CopyAbsent(m, f0, t0, t);
      }
    }

    /** One round of the inner loop of copy_page_tables. */
    method CopyEntry(t: int, f0: int, t0: int, nr: int, ghost m: Mm)
      requires Arrays() && Inv(State()) && Inv(m) && CopyRange(f0, t0, t) && 0 <= nr < NR_ENTRY
      requires dir[t - t0 + f0].present && dir[t].present && !m.dir[t].present
      requires Layout(State()) == Copied(Layout(m), f0, t0, t, nr) && Space(State()) == Copied(Space(m), f0, t0, t, nr)
      modifies memMap, phys
      ensures Inv(State()) && Free(memMap[..]) == old(Free(memMap[..]))
      ensures Layout(State()) == Copied(Layout(m), f0, t0, t, nr + 1) && Space(State()) == Copied(Space(m), f0, t0, t, nr + 1)
    {
      hide Inv, Layout, Space, Refs, DirRefs, Copied;
      var fd := t - t0 + f0;
      ghost var v := State();
      CopySpots(m, v, f0, t0, t, nr);
      if phys[dir[fd].page][nr].present {
        ShareEntry(fd, t, nr);
        CopySteps(m, v, State(), f0, t0, t, nr);
      } else {
        CopySkips(m, f0, t0, t, nr);
      }
    }

    /** The copy of one table: a fresh table at entry t, then its 1024 entries. */
    method CopyTable(t: int, f0: int, t0: int, ghost m: Mm) returns (ok: bool)
      requires Arrays() && Inv(State()) && Inv(m) && CopyRange(f0, t0, t) && dir[t - t0 + f0].present && !dir[t].present
      requires !m.dir[t].present && dir[t - t0 + f0] == m.dir[t - t0 + f0]
      requires Layout(State()) == Copied(Layout(m), f0, t0, t, 0) && Space(State()) == Copied(Space(m), f0, t0, t, 0)
      modifies this`kernel, memMap, phys, dir
      ensures Inv(State()) && kernel == old(kernel)
      ensures ok <==> old(Free(memMap[..])) > 0
      ensures !ok ==> State() == old(State())
      ensures ok ==> Free(memMap[..]) == old(Free(memMap[..])) - 1
      ensures ok ==> dir[..] == old(dir[..])[t := dir[t]]
      ensures ok ==> Layout(State()) == Copied(Layout(m), f0, t0, t + 1, 0) && Space(State()) == Copied(Space(m), f0, t0, t + 1, 0)
    {
      hide Inv, Layout, Space, Refs, DirRefs, Copied;
      ok := NewTable(t);
      if !ok {
        return;
      }
      var nr := 0;
      while nr < NR_ENTRY
        invariant 0 <= nr <= NR_ENTRY
        invariant Inv(State()) && kernel == old(kernel) && Free(memMap[..]) == old(Free(memMap[..])) - 1
        invariant dir[..] == old(dir[..])[t := dir[t]] && dir[t].present
        invariant Layout(State()) == Copied(Layout(m), f0, t0, t, nr) && Space(State()) == Copied(Space(m), f0, t0, t, nr)
      {
        CopyEntry(t, f0, t0, nr, m);
        nr := nr + 1;
      }
      CopyTables(m, f0, t0, t);
    }

    /** A running task's slot. */
    ghost predicate Live(s: int)
      reads task, zombie
      requires Arrays()
    {
      1 <= s < NR_TASKS && task[s] != 0 && !zombie[s]
    }

    /** put_page: map a page the kernel holds at an empty spot; 0 if a page table could not be had. */
    method PutPage(page: nat, d: int, i: int) returns (r: nat)
      requires Valid() && IsSpot(d, i) && Live(d / SLOT_DIRS) && FreshPage(State(), page) && !Entry(State(), d, i).present
      modifies this`kernel, memMap, phys, dir
      ensures Valid()
      ensures r == 0 <==> !old(dir[d].present) && old(Free(memMap[..])) == 0
      ensures r == 0 ==> State() == old(State())
      ensures r != 0 ==> r == page && kernel == old(kernel) - multiset{page} && dir[..] == old(dir[..])[d := dir[d]] && dir[d].present
      ensures r != 0 ==> Layout(State()) == old(Layout(State()))[(d, i) := Mapping(page, false)]
      ensures r != 0 ==> Space(State()) == old(Space(State()))[(d, i) := old(phys[page])]
    {
      hide Inv, Layout, Space, Refs, DirRefs;
      if !dir[d].present {
        var ok := NewTable(d);
        if !ok {
          return 0;
        }
      }
      ghost var v := State();
      MapPageKeeps(v, d, i, page);
      var t := dir[d].page;
      phys[t] := phys[t][i := Rwx(page)];
      kernel := kernel - multiset{page};
      assert State() == MapPage(v, d, i, page);
      return page;
    }

    /** get_empty_page: a cleared page at an empty spot; true when memory ran out. */
    method GetEmptyPage(d: int, i: int) returns (oom: bool)
      requires Valid() && IsSpot(d, i) && Live(d / SLOT_DIRS) && !Entry(State(), d, i).present
      modifies this`kernel, memMap, phys, dir
      ensures Valid() && kernel == old(kernel)
      ensures oom <==> old(Free(memMap[..])) < Needed(old(State()), d)
      ensures oom ==> dir[..] == old(dir[..]) && Layout(State()) == old(Layout(State())) && Space(State()) == old(Space(State()))
      ensures !oom ==> Space(State()) == old(Space(State()))[(d, i) := ZeroFrame()]
      ensures !oom ==> Stored() == old(Stored())[(d, i) := false]
    {
      oom := FillPage(d, i, ZeroFrame());
    }

    /** free_page on a page that only the kernel holds. */
    method ReturnPage(page: nat)
      requires Arrays() && Inv(State()) && FreshPage(State(), page)
      modifies this`kernel, memMap
      ensures Inv(State()) && State() == Drop(old(State()), page)
      ensures Layout(State()) == old(Layout(State())) && Space(State()) == old(Space(State()))
    {
      hide Inv, Layout, Space, Refs, DirRefs;
      ghost var m := State();
      DropKeeps(m, page);
      FreePage(page);
      kernel := kernel - multiset{page};
      assert State() == Drop(m, page);
    }

    /** get_free_page, the file's data into the page, put_page; on failure the page goes back. */
    method FillPage(d: int, i: int, content: Frame) returns (oom: bool)
      requires Valid() && IsSpot(d, i) && Live(d / SLOT_DIRS) && !Entry(State(), d, i).present && |content| == NR_ENTRY
      modifies this`kernel, memMap, phys, dir
      ensures Valid() && kernel == old(kernel)
      ensures oom <==> old(Free(memMap[..])) < Needed(old(State()), d)
      ensures oom ==> dir[..] == old(dir[..]) && Layout(State()) == old(Layout(State())) && Space(State()) == old(Space(State()))
      ensures !oom ==> Space(State()) == old(Space(State()))[(d, i) := content]
      ensures !oom ==> Stored() == old(Stored())[(d, i) := false]
    {
      hide Inv, Layout, Space, Refs, DirRefs;
      ghost var m := State();
      var page := GetFreePage();
      if page == 0 {
        return true;
      }
      StillEmpty(m, d, i, page);
      ghost var u := State();
      FillFrameKeeps(u, page, content);
      phys[page] := content;
      assert State() == WithFrame(u, page, content);
      assert Free(memMap[..]) == Free(m.mem) - 1;
      FillStillEmpty(u, d, i, page, content);
      assert kernel - multiset{page} == old(kernel);
      var r := PutPage(page, d, i);
      if r != 0 {
        DirtSet(Layout(m), Layout(State()), (d, i), Mapping(page, false));
        return false;
      }
      ReturnPage(page);
      return true;
    }

    /** un_wp_page on the entry at (d, i): afterwards the task may write there. */
    method UnWpPage(d: int, i: int) returns (oom: bool)
      requires Valid() && IsSpot(d, i) && dir[d].present && Entry(State(), d, i).present
      modifies this`kernel, memMap, phys
      ensures Valid() && kernel == old(kernel) && Space(State()) == old(Space(State()))
      ensures oom <==> !old(Sole(State(), d, i)) && old(Free(memMap[..])) == 0
      ensures !oom ==> Entry(State(), d, i).present && Entry(State(), d, i).writable
      ensures if oom || old(Sole(State(), d, i)) then Layout(State()) == old(Layout(State()))
              else Stored() == old(Stored())[(d, i) := false]
    {
      hide Inv, Layout, Space, Refs, DirRefs, Free;
      ghost var m := State();
      ReadAt(m, d, i);
      MappedIsCounted(m, d, i);
      var t := dir[d].page;
      var oldPage := phys[t][i].page;
      if LOW_PAGE <= oldPage && memMap[oldPage - LOW_PAGE] == 1 {
        UnprotectKeeps(m, d, i);
        phys[t] := phys[t][i := phys[t][i].(writable := true)];
        assert State() == Unprotect(m, d, i);
        return false;
      }
      var newPage := GetFreePage();
      if newPage == 0 {
        return true;
      }
      AllocAway(m, d, i, newPage);
      MoveToNewPage(d, i, newPage);
      DirtSet(Layout(m), Layout(State()), (d, i), Mapping(newPage, false));
      assert kernel == old(kernel);
      return false;
    }

    /** The rest of un_wp_page: the old page loses a reference, the entry maps a private copy. */
    method MoveToNewPage(d: int, i: int, newPage: nat)
      requires Arrays() && Inv(State()) && IsSpot(d, i) && dir[d].present && Entry(State(), d, i).present && FreshPage(State(), newPage)
      requires newPage != Entry(State(), d, i).page && newPage != dir[d].page && dir[d].page != Entry(State(), d, i).page
      modifies this`kernel, memMap, phys
      ensures Inv(State()) && kernel == old(kernel) - multiset{newPage} && Space(State()) == old(Space(State()))
      ensures Entry(State(), d, i) == Rwx(newPage) && Layout(State()) == old(Layout(State()))[(d, i) := Mapping(newPage, false)]
    {
      hide Inv, Layout, Space, Refs, DirRefs, Free;
      ghost var u := State();
      ReadAt(u, d, i);
      SplitKeeps(u, d, i, newPage);
      var t := dir[d].page;
      var oldPage := phys[t][i].page;
      if LOW_PAGE <= oldPage {
        memMap[oldPage - LOW_PAGE] := memMap[oldPage - LOW_PAGE] - 1;
      }
      phys[t] := phys[t][i := Rwx(newPage)];
      kernel := kernel - multiset{newPage};
      phys[newPage] := phys[oldPage];
      assert State() == Split(u, d, i, newPage);
    }

    /** write_verify: called before the kernel writes into user memory. */
    method WriteVerify(d: int, i: int) returns (oom: bool)
      requires Valid() && IsSpot(d, i)
      modifies this`kernel, memMap, phys
      ensures Valid() && kernel == old(kernel) && Space(State()) == old(Space(State()))
      ensures oom <==> Stuck(old(State()), d, i)
      ensures !oom && old(Entry(State(), d, i)).present ==> Entry(State(), d, i).present && Entry(State(), d, i).writable
      ensures !old(Entry(State(), d, i)).present ==> !oom && State() == old(State())
      ensures Stored() == old(Stored()) || (!oom && Stored() == old(Stored())[(d, i) := false])
    {
      if !dir[d].present {
        return false;
      }
      var w := phys[dir[d].page][i];
      if w.present && !w.writable {
        oom := UnWpPage(d, i);
        return;
      }
      return false;
    }

    /** The store itself, through a writable entry: the CPU marks the entry dirty. */
    method StoreWord(d: int, i: int, off: int, w: Word)
      requires Valid() && IsSpot(d, i) && dir[d].present && 0 <= off < NR_ENTRY
      requires Entry(State(), d, i).present && Entry(State(), d, i).writable
      modifies phys
      ensures Valid() && Entry(State(), d, i).dirty && Stored() == old(Stored())[(d, i) := true]
      ensures (d, i) in old(Space(State())) && |old(Space(State()))[(d, i)]| == NR_ENTRY
      ensures Space(State()) == old(Space(State()))[(d, i) := old(Space(State()))[(d, i)][off := w]]
    {
      hide Inv, Layout, Space, Refs, DirRefs;
      ghost var m := State();
      ReadAt(m, d, i);
      WritableSole(m, d, i);
      var t := dir[d].page;
      var p := phys[t][i].page;
      TouchKeeps(m, d, i);
      phys[t] := phys[t][i := phys[t][i].(dirty := true)];
      ghost var u := State();
      assert u == Touch(m, d, i);
      WriteFrameKeeps(u, d, i, phys[p][off := w]);
      phys[p] := phys[p][off := w];
      assert State() == WithFrame(u, p, u.phys[p][off := w]);
      DirtSet(Layout(m), Layout(State()), (d, i), Mapping(p, true));
      StillDirty(m, State(), d, i);
    }

    /** A user-mode store: a write fault splits the page first.  A missing page is not written. */
    method UserWrite(d: int, i: int, off: int, w: Word) returns (a: Access)
      requires Valid() && IsSpot(d, i) && 0 <= off < NR_ENTRY
      modifies this`kernel, memMap, phys
      ensures Valid() && kernel == old(kernel)
      ensures a == Missing <==> !old(Entry(State(), d, i)).present
      ensures a == NoMemory <==> Stuck(old(State()), d, i)
      ensures a != Done ==> Space(State()) == old(Space(State())) && Stored() == old(Stored())
      ensures a == Done ==> (d, i) in old(Space(State())) && Space(State()) == Written(old(Space(State())), (d, i), off, w)
      ensures a == Done ==> Entry(State(), d, i).dirty && Stored() == old(Stored())[(d, i) := true]
    {
      hide Inv, Layout, Space, Refs, DirRefs;
      ghost var d0 := Stored();
      if !dir[d].present || !phys[dir[d].page][i].present {
        return Missing;
      }
      if !phys[dir[d].page][i].writable {
        var oom := UnWpPage(d, i);          // do_wp_page
        if oom {
          return NoMemory;
        }
      }
      ghost var u := Stored();
      StoreWord(d, i, off, w);
      DirtTwice(d0, u, Stored(), (d, i));
      return Done;
    }

    /** A store by the kernel, which ignores the R/W bit and so calls write_verify first. */
    method KernelWrite(d: int, i: int, off: int, w: Word) returns (a: Access)
      requires Valid() && IsSpot(d, i) && 0 <= off < NR_ENTRY
      modifies this`kernel, memMap, phys
      ensures Valid() && kernel == old(kernel)
      ensures a == Missing <==> !old(Entry(State(), d, i)).present
      ensures a == NoMemory <==> Stuck(old(State()), d, i)
      ensures a != Done ==> Space(State()) == old(Space(State())) && Stored() == old(Stored())
      ensures a == Done ==> (d, i) in old(Space(State())) && Space(State()) == Written(old(Space(State())), (d, i), off, w)
      ensures a == Done ==> Entry(State(), d, i).dirty && Stored() == old(Stored())[(d, i) := true]
    {
      hide Inv, Layout, Space, Refs, DirRefs;
      ghost var d0 := Stored();
      var oom := WriteVerify(d, i);
      if oom {
        return NoMemory;
      }
      if !dir[d].present || !phys[dir[d].page][i].present {
        return Missing;
      }
      ghost var u := Stored();
      StoreWord(d, i, off, w);
      DirtTwice(d0, u, Stored(), (d, i));
      return Done;
    }

    /** try_to_share: map task p's clean page at the same offset of the current task. */
    method TryToShare(dl: int, i: int, p: int, cur: int) returns (r: Sharing)
      requires Valid() && 0 <= dl < SLOT_DIRS && 0 <= i < NR_ENTRY && p != cur && 1 <= p < NR_TASKS && Live(cur)
      requires !Entry(State(), cur * SLOT_DIRS + dl, i).present
      modifies this`kernel, memMap, phys, dir
      ensures Valid() && kernel == old(kernel)
      ensures r == NotShared <==> !Sharable(old(State()), p * SLOT_DIRS + dl, i)
      ensures r == ShareNoMemory <==> Sharable(old(State()), p * SLOT_DIRS + dl, i) && !old(dir[cur * SLOT_DIRS + dl].present) && old(Free(memMap[..])) == 0
      ensures r != Shared ==> State() == old(State())
      ensures var f, t := (p * SLOT_DIRS + dl, i), (cur * SLOT_DIRS + dl, i);
        && (r != Shared ==> Space(State()) == old(Space(State())) && !Entry(State(), t.0, t.1).present)
        && (r == Shared ==> f in old(Space(State())) && Space(State()) == old(Space(State()))[t := old(Space(State()))[f]])
        && Stored() == if r == Shared then old(Stored())[t := false] else old(Stored())
    {
      hide Inv, Layout, Space, Refs, DirRefs, Free;
      var fromPage, toPage := p * SLOT_DIRS + dl, cur * SLOT_DIRS + dl;
      if !dir[fromPage].present {
        return NotShared;
      }
      var phys_addr := phys[dir[fromPage].page][i];
      if !phys_addr.present || phys_addr.dirty {
        return NotShared;
      }
      if phys_addr.page >= NR_PHYS || phys_addr.page < LOW_PAGE {
        return NotShared;
      }
      SlotOffset(p, cur, dl);
      var ok := MapSame(fromPage, toPage, i);
      return if ok then Shared else ShareNoMemory;
    }

    /** The end of try_to_share: a page table if there is none, then the same page write-protected. */
    method MapSame(fromPage: int, toPage: int, i: int) returns (ok: bool)
      requires Valid() && IsSpot(fromPage, i) && IsSpot(toPage, i) && fromPage != toPage && fromPage % SLOT_DIRS == toPage % SLOT_DIRS
      requires Entry(State(), fromPage, i).present && !Entry(State(), toPage, i).present && Live(toPage / SLOT_DIRS)
      modifies this`kernel, memMap, phys, dir
      ensures Valid() && kernel == old(kernel)
      ensures ok <==> old(dir[toPage].present) || old(Free(memMap[..])) > 0
      ensures !ok ==> State() == old(State())
      ensures (fromPage, i) in old(Space(State()))
      ensures ok ==> Space(State()) == old(Space(State()))[(toPage, i) := old(Space(State()))[(fromPage, i)]]
      ensures ok ==> Stored() == old(Stored())[(toPage, i) := old(Entry(State(), fromPage, i)).dirty]
    {
      hide Inv, Layout, Space, Refs, DirRefs, Free;
      ghost var m := State();
      ReadAt(m, fromPage, i);
      if !dir[toPage].present {
        ok := NewTable(toPage);
        if !ok {
          return;
        }
      }
      ShareEntry(fromPage, toPage, i);
      DirtSet(Layout(m), Layout(State()), (toPage, i), Layout(m)[(fromPage, i)]);
      ok := true;
    }

    /** share_page: try every task that runs the same executable, from the last slot down. */
    method SharePage(dl: int, i: int, cur: int, iCount: int) returns (r: Sharing, from: int)
      requires Valid() && 0 <= dl < SLOT_DIRS && 0 <= i < NR_ENTRY && Live(cur)
      requires !Entry(State(), cur * SLOT_DIRS + dl, i).present
      modifies this`kernel, memMap, phys, dir
      ensures Valid() && kernel == old(kernel)
      ensures r == NotShared <==> executable[cur] == 0 || iCount < 2 || forall q :: 1 <= q < NR_TASKS ==> !Offers(old(State()), q, dl, i, cur, executable[..])
      ensures r != NotShared ==> 1 <= from < NR_TASKS && Offers(old(State()), from, dl, i, cur, executable[..])
      ensures r != NotShared ==> forall q :: from < q < NR_TASKS ==> !Offers(old(State()), q, dl, i, cur, executable[..])
      ensures r == ShareNoMemory ==> !old(dir[cur * SLOT_DIRS + dl].present) && old(Free(memMap[..])) == 0
      ensures r != Shared ==> State() == old(State())
      ensures var t := (cur * SLOT_DIRS + dl, i);
        r != Shared ==> Space(State()) == old(Space(State())) && !Entry(State(), t.0, t.1).present
      ensures var t, f := (cur * SLOT_DIRS + dl, i), (from * SLOT_DIRS + dl, i);
        r == Shared ==>
          && 1 <= from < NR_TASKS && from != cur && executable[from] == executable[cur] != 0
          && f in old(Space(State())) && Space(State()) == old(Space(State()))[t := old(Space(State()))[f]]
          && Stored() == old(Stored())[t := false]
    {
      hide Inv, Layout, Space, Refs, DirRefs, Dirt;
      r, from := NotShared, 0;
      if executable[cur] == 0 || iCount < 2 {
        return;
      }
      from := NR_TASKS - 1;
      while from > 0
        invariant 0 <= from < NR_TASKS && r == NotShared
        invariant Valid() && State() == old(State())
        invariant forall q :: from < q < NR_TASKS ==> !Offers(old(State()), q, dl, i, cur, executable[..])
        invariant !Entry(State(), cur * SLOT_DIRS + dl, i).present
      {
        if task[from] != 0 && from != cur && executable[from] == executable[cur] {
          r := TryToShare(dl, i, from, cur);
          if r != NotShared {
            assert Offers(old(State()), from, dl, i, cur, executable[..]);
            return;
          }
        }
        from := from - 1;
      }
    }

    /** do_no_page: a missing page of the current task is cleared, shared or read from the file. */
    method DoNoPage(dl: int, i: int, cur: int, iCount: int, inFile: bool, content: Frame)
      returns (r: Fault, from: int)
      requires Valid() && 0 <= dl < SLOT_DIRS && 0 <= i < NR_ENTRY && Live(cur) && |content| == NR_ENTRY
      requires !Entry(State(), cur * SLOT_DIRS + dl, i).present
      modifies this`kernel, memMap, phys, dir
      ensures Valid() && kernel == old(kernel)
      ensures r == FaultNoMemory ==> old(Free(memMap[..])) < Needed(old(State()), cur * SLOT_DIRS + dl)
      ensures r == SharedFrom ==> 1 <= from < NR_TASKS && Offers(old(State()), from, dl, i, cur, executable[..])
      ensures r == Loaded ==> iCount < 2 || forall q :: 1 <= q < NR_TASKS ==> !Offers(old(State()), q, dl, i, cur, executable[..])
      ensures var t, f := (cur * SLOT_DIRS + dl, i), (from * SLOT_DIRS + dl, i);
        match r
        case FaultNoMemory => Space(State()) == old(Space(State()))
        case Cleared => (executable[cur] == 0 || !inFile) && Space(State()) == old(Space(State()))[t := ZeroFrame()]
        case Loaded => executable[cur] != 0 && inFile && Space(State()) == old(Space(State()))[t := content]
        case SharedFrom =>
          && inFile && 1 <= from < NR_TASKS && from != cur && executable[from] == executable[cur] != 0
          && f in old(Space(State())) && Space(State()) == old(Space(State()))[t := old(Space(State()))[f]]
      ensures if r == FaultNoMemory then Stored() == old(Stored())
              else Stored() == old(Stored())[(cur * SLOT_DIRS + dl, i) := false]
    {
      hide Inv, Layout, Space, Refs, DirRefs, Dirt;
      from := 0;
      if executable[cur] == 0 || !inFile {
        var oom := GetEmptyPage(cur * SLOT_DIRS + dl, i);
        return if oom then FaultNoMemory else Cleared, 0;
      }
      var sharing;
      sharing, from := SharePage(dl, i, cur, iCount);
      if sharing == Shared {
        return SharedFrom, from;
      }
      if sharing == ShareNoMemory {
        return FaultNoMemory, 0;
      }
      var oom := FillPage(cur * SLOT_DIRS + dl, i, content);
      return if oom then FaultNoMemory else Loaded, 0;
    }

    /** copy_mem: the child shares every page of the parent; when memory runs out part-way,
        free_page_tables undoes it and every count is what it was. */
    method CopyMem(parent: int, nr: int, dataLimit: int) returns (r: int)
      requires Valid() && Live(parent) && Live(nr) && parent != nr && 0 <= dataLimit <= TASK_BYTES
      requires forall d :: nr * SLOT_DIRS <= d < (nr + 1) * SLOT_DIRS ==> !dir[d].present
      modifies this`kernel, memMap, phys, dir
      ensures Valid() && kernel == old(kernel)
      ensures r != 0 ==> Layout(State()) == old(Layout(State())) && Space(State()) == old(Space(State()))
      ensures var n, f := (dataLimit + TABLE_BYTES - 1) / TABLE_BYTES, parent * SLOT_DIRS;
        0 <= f && f + n <= NR_DIR && (r == 0 <==> Tables(old(dir[..]), f, f + n) <= old(Free(memMap[..])))
      ensures r != 0 ==> memMap[..] == old(memMap[..])
      ensures r != 0 ==> forall d :: 0 <= d < NR_DIR ==> dir[d].present == old(dir[d]).present && (dir[d].present ==> dir[d] == old(dir[d]))
      ensures var n := (dataLimit + TABLE_BYTES - 1) / TABLE_BYTES;
        r == 0 ==>
          && Space(State()) == Copied(old(Space(State())), parent * SLOT_DIRS, nr * SLOT_DIRS, nr * SLOT_DIRS + n, 0)
          && Layout(State()) == Copied(old(Layout(State())), parent * SLOT_DIRS, nr * SLOT_DIRS, nr * SLOT_DIRS + n, 0)
    {
      hide Inv, Layout, Space, Refs, DirRefs, Copied, Without, Free, Tables;
      ghost var m := State();
      SlotBase(parent);
      SlotBase(nr);
      SlotsApart(parent * TASK_BYTES, nr * TASK_BYTES, dataLimit);
      var c := CopyPageTables(parent * TASK_BYTES, nr * TASK_BYTES, dataLimit);
      if c != 0 {
        FreePageTables(nr * TASK_BYTES, dataLimit);
        SameLayoutSameCounts(m, State());
        return -12;      // ENOMEM
      }
      return 0;
    }

    /** The slot search of find_empty_process. */
    method FindEmptyProcess() returns (nr: int)
      requires Arrays()
      ensures nr == -1 <==> !SlotFree(State())
      ensures nr != -1 ==> 1 <= nr < NR_TASKS && task[nr] == 0 && forall t :: 1 <= t < nr ==> task[t] != 0
    {
      nr := 1;
      while nr < NR_TASKS && task[nr] != 0
        invariant 1 <= nr <= NR_TASKS
        invariant forall t :: 1 <= t < nr ==> task[t] != 0
      {
        nr := nr + 1;
      }
      if nr == NR_TASKS { nr := -1; }
    }

    /** find_empty_process and copy_process: the child's slot, or -1 (EAGAIN) with every count,
        mapping and slot as before.  It fails exactly when no slot is free or there are too few
        free pages for the task_struct and the child's page tables. */
    method CopyProcess(parent: int) returns (nr: int)
      requires Valid() && Live(parent)
      modifies this`kernel, memMap, phys, dir, task, zombie, executable
      ensures Valid()
      ensures nr == -1 || (Live(nr) && old(task[nr]) == 0 && (forall t :: 1 <= t < nr ==> old(task[t]) != 0))
      ensures nr != -1 <==> SlotFree(old(State())) && old(Free(memMap[..])) > Tables(old(dir[..]), parent * SLOT_DIRS, (parent + 1) * SLOT_DIRS)
      ensures nr != -1 ==> task[..] == old(task[..])[nr := task[nr]] && kernel == old(kernel) + multiset{task[nr]}
      ensures forall t :: 0 <= t < NR_TASKS && t != nr && old(task[t]) != 0 ==> zombie[t] == old(zombie[t])
      ensures nr == -1 ==> memMap[..] == old(memMap[..]) && task[..] == old(task[..]) && kernel == old(kernel)
      ensures nr == -1 ==> Layout(State()) == old(Layout(State())) && Space(State()) == old(Space(State()))
      ensures nr != -1 ==> Space(State()) == Forked(old(Space(State())), parent, nr) && Layout(State()) == Forked(old(Layout(State())), parent, nr)
      ensures executable[..] == if nr == -1 then old(executable[..]) else old(executable[..])[nr := old(executable[parent])]
    {
      hide Inv, Layout, Space, Refs, DirRefs, Copied, Free, Tables, Shape;
      nr := FindEmptyProcess();
      if nr == -1 {
        return -1;
      }
      ghost var m := State();
      var p := GetFreePage();
      if p == 0 {
        return -1;
      }
      TakeSlot(nr, p);
      var r := CopyMem(parent, nr, TASK_BYTES);
      if r != 0 {
        GiveUpSlot(nr, p, m);
        return -1;
      }
      executable[nr] := executable[parent];
    }

    /** copy_process: the new task_struct is entered into the table. */
    method TakeSlot(nr: int, p: nat)
      requires Valid() && 1 <= nr < NR_TASKS && task[nr] == 0 && FreshPage(State(), p)
      modifies task, zombie
      ensures Valid() && Live(nr) && task[..] == old(task[..])[nr := p]
      ensures forall d :: nr * SLOT_DIRS <= d < (nr + 1) * SLOT_DIRS ==> !dir[d].present
      ensures forall t :: 0 <= t < NR_TASKS && t != nr ==> zombie[t] == old(zombie[t])
      ensures Layout(State()) == old(Layout(State())) && Space(State()) == old(Space(State()))
    {
      hide Inv, Layout, Space, Refs, DirRefs;
      ghost var u := State();
      SetTaskKeeps(u, nr, p);
      task[nr] := p;
      zombie[nr] := false;
      assert State() == SetTask(u, nr, p);
    }

    /** copy_process when copy_mem fails: the slot and the task_struct page go back. */
    method GiveUpSlot(nr: int, p: nat, ghost m: Mm)
      requires Valid() && Inv(m) && Live(nr) && m.task[nr] == 0 && LOW_PAGE <= p < NR_PHYS && m.mem[p - LOW_PAGE] == 0
      requires memMap[..] == Alloc(m, p).mem && kernel == Alloc(m, p).kernel && task[..] == m.task[nr := p]
      requires forall d :: nr * SLOT_DIRS <= d < (nr + 1) * SLOT_DIRS ==> !dir[d].present
      modifies this`kernel, memMap, task
      ensures Valid() && memMap[..] == m.mem && task[..] == m.task && kernel == m.kernel
      ensures Layout(State()) == old(Layout(State())) && Space(State()) == old(Space(State()))
    {
      hide Inv, Layout, Space, Refs, DirRefs;
      ghost var w := State();
      UnsetTaskKeeps(m, w, nr, p);
      task[nr] := 0;
      ghost var n := SetTask(w, nr, 0);
      assert State() == n;
      ReturnPage(p);
    }

    /** do_exit and do_execve free the code and the data segment of a task. */
    method FreeSegments(s: int, codeLimit: int)
      requires Valid() && Live(s) && 0 <= codeLimit <= TASK_BYTES
      modifies memMap, phys, dir
      ensures Valid() && forall d :: s * SLOT_DIRS <= d < (s + 1) * SLOT_DIRS ==> !dir[d].present
      ensures Space(State()) == Without(old(Space(State())), s * SLOT_DIRS, (s + 1) * SLOT_DIRS, 0)
      ensures Layout(State()) == Without(old(Layout(State())), s * SLOT_DIRS, (s + 1) * SLOT_DIRS, 0)
    {
      hide Inv, Layout, Space, Refs, DirRefs, Without;
      SlotBase(s);
      ghost var m := State();
      FreePageTables(s * TASK_BYTES, codeLimit);
      ghost var u := State();
      FreePageTables(s * TASK_BYTES, TASK_BYTES);
      ghost var d1 := s * SLOT_DIRS + (codeLimit + TABLE_BYTES - 1) / TABLE_BYTES;
      WithoutTwice(Space(m), Space(u), s * SLOT_DIRS, d1, (s + 1) * SLOT_DIRS);
      WithoutTwice(Layout(m), Layout(u), s * SLOT_DIRS, d1, (s + 1) * SLOT_DIRS);
    }

    /** The memory part of do_exit: both segments are freed, the task becomes a zombie. */
    method Exit(s: int, codeLimit: int)
      requires Valid() && Live(s) && 0 <= codeLimit <= TASK_BYTES
      modifies memMap, phys, dir, zombie, executable
      ensures Valid() && zombie[s] && forall t :: 0 <= t < NR_TASKS && t != s ==> zombie[t] == old(zombie[t])
      ensures executable[..] == old(executable[..])[s := 0]
      ensures Space(State()) == Without(old(Space(State())), s * SLOT_DIRS, (s + 1) * SLOT_DIRS, 0)
      ensures Layout(State()) == Without(old(Layout(State())), s * SLOT_DIRS, (s + 1) * SLOT_DIRS, 0)
    {
      hide Inv, Layout, Space, Refs, DirRefs, Without;
      FreeSegments(s, codeLimit);
      executable[s] := 0;
      zombie[s] := true;
    }

    /** The memory part of do_execve: the task runs the inode and nothing is mapped any more. */
    method Execve(s: int, inode: int, codeLimit: int)
      requires Valid() && Live(s) && 0 <= codeLimit <= TASK_BYTES
      modifies memMap, phys, dir, executable
      ensures Valid() && executable[..] == old(executable[..])[s := inode]
      ensures Space(State()) == Without(old(Space(State())), s * SLOT_DIRS, (s + 1) * SLOT_DIRS, 0)
      ensures Layout(State()) == Without(old(Layout(State())), s * SLOT_DIRS, (s + 1) * SLOT_DIRS, 0)
    {
      hide Inv, Layout, Space, Refs, DirRefs, Without;
      executable[s] := inode;
      FreeSegments(s, codeLimit);
    }

    /** release: the zombie's task_struct page goes back. */
    method Release(s: int)
      requires Valid() && 1 <= s < NR_TASKS && task[s] != 0 && zombie[s]
      modifies this`kernel, memMap, task
      ensures Valid() && task[..] == old(task[..])[s := 0] && kernel == old(kernel) - multiset{old(task[s])}
      ensures Space(State()) == old(Space(State())) && Layout(State()) == old(Layout(State()))
    {
      hide Inv, Layout, Space, Refs, DirRefs;
      var p := task[s];
      ghost var m := State();
      ReleaseKeeps(m, s);
      task[s] := 0;
      assert State() == SetTask(m, s, 0);
      ReturnPage(p);
    }
  }

  lemma BlankInv(m: Mm)
    requires |m.mem| == PAGING_PAGES && |m.dir| == NR_DIR && |m.phys| == NR_PHYS && |m.task| == NR_TASKS
    requires forall d :: 0 <= d < NR_DIR ==> m.dir[d] == ZERO
    requires forall p :: 0 <= p < NR_PHYS ==> |m.phys[p]| == NR_ENTRY
    requires forall t :: 0 <= t < NR_TASKS ==> m.task[t] == 0
    requires forall p :: m.kernel[p] == if LOW_PAGE <= p < NR_PHYS then m.mem[p - LOW_PAGE] else 0
    requires forall k :: 0 <= k < PAGING_PAGES ==> m.mem[k] <= USED
    ensures Inv(m) && Space(m) == imap[]
  {
    forall q | LOW_PAGE <= q < NR_PHYS ensures Counted(m, q) {
      assert Refs(m, q) == {} && DirRefs(m, q) == {};
    }
  }

  // ----- task slots

  function SetTask(m: Mm, s: int, p: int): Mm
    requires Shape(m) && 1 <= s < NR_TASKS
  {
    Mm(m.mem, m.dir, m.phys, m.task[s := p], m.kernel)
  }

  lemma SetTaskShape(m: Mm, s: int, p: int)
    requires Inv(m) && 1 <= s < NR_TASKS && TasksSound(SetTask(m, s, p))
    ensures var n := SetTask(m, s, p); Inv(n) && Layout(n) == Layout(m) && Space(n) == Space(m)
  {
    hide Entry, Refs;
    SetTaskCounts(m, s, p);
  }

  lemma SetTaskCounts(m: Mm, s: int, p: int)
    requires Inv(m) && 1 <= s < NR_TASKS
    ensures var n := SetTask(m, s, p);
      && (forall d, i :: IsSpot(d, i) ==> Entry(n, d, i) == Entry(m, d, i))
      && (forall q :: LOW_PAGE <= q < NR_PHYS ==> Counted(n, q))
  {
    var n := SetTask(m, s, p);
    forall q | LOW_PAGE <= q < NR_PHYS ensures Counted(n, q) {
      assert Counted(m, q);
      SameRefs(m, n, q);
    }
  }

  lemma SetTaskKeeps(m: Mm, s: int, p: nat)
    requires Inv(m) && 1 <= s < NR_TASKS && m.task[s] == 0 && FreshPage(m, p)
    ensures var n := SetTask(m, s, p); Inv(n) && Layout(n) == Layout(m) && Space(n) == Space(m)
  {
    SetTaskShape(m, s, p);
  }

  lemma ReleaseKeeps(m: Mm, s: int)
    requires Inv(m) && 1 <= s < NR_TASKS && m.task[s] != 0
    ensures LOW_PAGE <= m.task[s] < NR_PHYS && m.kernel[m.task[s]] >= 1 && m.mem[m.task[s] - LOW_PAGE] == 1
    ensures var n := SetTask(m, s, 0);
      && Inv(n) && Layout(n) == Layout(m) && Space(n) == Space(m)
      && (forall t :: 1 <= t < NR_TASKS ==> n.task[t] != m.task[s])
  {
    SetTaskShape(m, s, 0);
  }

  lemma UnsetTaskKeeps(m: Mm, w: Mm, s: int, p: nat)
    requires Inv(m) && Inv(w) && 1 <= s < NR_TASKS && m.task[s] == 0 && LOW_PAGE <= p < NR_PHYS && m.mem[p - LOW_PAGE] == 0
    requires w.mem == Alloc(m, p).mem && w.kernel == Alloc(m, p).kernel && w.task == m.task[s := p]
    ensures var n := SetTask(w, s, 0);
      && Inv(n) && Layout(n) == Layout(w) && Space(n) == Space(w) && n.task == m.task
      && (forall t :: 1 <= t < NR_TASKS ==> n.task[t] != p)
      && n.kernel[p] >= 1 && n.mem[p - LOW_PAGE] == 1
      && n.mem[p - LOW_PAGE := 0] == m.mem && n.kernel - multiset{p} == m.kernel
  {
    hide Layout, Space, Refs, DirRefs, Entry, Inv;
    ReleaseKeeps(w, s);
  }

  /** What fork means when every page is copied at once. */
  ghost function Forked<V>(s: imap<Spot, V>, parent: int, nr: int): imap<Spot, V> {
    Copied(s, parent * SLOT_DIRS, nr * SLOT_DIRS, (nr + 1) * SLOT_DIRS, 0)
  }

  lemma DirtForked(l: imap<Spot, Mapping>, r: imap<Spot, Mapping>, parent: int, nr: int)
    requires r == Forked(l, parent, nr)
    ensures Dirt(r) == Forked(Dirt(l), parent, nr)
  {
    hide Copied;
    DirtCopied(l, r, parent * SLOT_DIRS, nr * SLOT_DIRS, (nr + 1) * SLOT_DIRS, 0);
  }

  lemma WithoutTwice<V>(s: imap<Spot, V>, t: imap<Spot, V>, d0: int, d1: int, d2: int)
    requires d0 <= d1 <= d2 && t == Without(s, d0, d1, 0)
    ensures Without(t, d0, d2, 0) == Without(s, d0, d2, 0)
  {
  }

  datatype Fault = Cleared | Loaded | SharedFrom | FaultNoMemory

  lemma SlotBase(s: int)
    requires 1 <= s < NR_TASKS
    ensures (s * TASK_BYTES) % TASK_BYTES == 0 && (s * TASK_BYTES) % TABLE_BYTES == 0
    ensures s * TASK_BYTES / TABLE_BYTES == s * SLOT_DIRS
  {
  }

  datatype Access = Done | Missing | NoMemory
  datatype Sharing = Shared | NotShared | ShareNoMemory

  /** One word of one linear page replaced. */
  ghost function Written(s: imap<Spot, Frame>, k: Spot, off: int, w: Word): imap<Spot, Frame>
    requires k in s && 0 <= off < NR_ENTRY
  {
    if |s[k]| == NR_ENTRY then s[k := s[k][off := w]] else s
  }

  /** An entry that the layout calls dirty is dirty. */
  lemma StillDirty(m: Mm, n: Mm, d: int, i: int)
    requires Inv(m) && Inv(n) && IsSpot(d, i) && Dirt(Layout(n)) == Dirt(Layout(m))[(d, i) := true]
    ensures Entry(n, d, i).dirty
  {
    assert Dirt(Layout(n))[(d, i)];
  }

  lemma WritableSole(m: Mm, d: int, i: int)
    requires Inv(m) && IsSpot(d, i) && m.dir[d].present && Entry(m, d, i).present && Entry(m, d, i).writable
    ensures var p := Entry(m, d, i).page;
      LOW_PAGE <= p < NR_PHYS && m.mem[p - LOW_PAGE] == 1 && p != m.dir[d].page && |m.phys[p]| == NR_ENTRY
  {
    NotATable(m, d, i);
  }

  lemma NewTableKeeps(m: Mm, d: int, p: nat)
    requires Inv(m) && SLOT_DIRS <= d < NR_DIR && !m.dir[d].present && LOW_PAGE <= p < NR_PHYS && m.mem[p - LOW_PAGE] == 0
    ensures var u := Alloc(m, p); var n := AddTable(u, d, p);
      && FreshPage(u, p) && u.phys[p] == ZeroFrame()
      && Inv(n) && n.kernel == m.kernel && Layout(n) == Layout(m) && Space(n) == Space(m)
      && (forall e, i :: IsSpot(e, i) ==> Entry(n, e, i) == Entry(m, e, i))
      && (forall q :: FreshPage(m, q) ==> FreshPage(n, q) && n.phys[q] == m.phys[q])
  {
    hide Inv, Layout, Space;
    AllocKeeps(m, p);
    FreshAfterAlloc(m, p);
    AddTableKeeps(Alloc(m, p), d, p);
    NewTableEntries(m, d, p);
  }

  lemma NewTableEntries(m: Mm, d: int, p: nat)
    requires Inv(m) && SLOT_DIRS <= d < NR_DIR && !m.dir[d].present && LOW_PAGE <= p < NR_PHYS && m.mem[p - LOW_PAGE] == 0
    ensures var n := AddTable(Alloc(m, p), d, p);
      && Shape(n) && n.kernel == m.kernel && (forall e, i :: IsSpot(e, i) ==> Entry(n, e, i) == Entry(m, e, i))
  {
    FreeUnreferenced(m, p);
  }

  lemma SlotOffset(p: int, q: int, dl: int)
    requires 0 <= dl < SLOT_DIRS && p != q
    ensures (p * SLOT_DIRS + dl) % SLOT_DIRS == (q * SLOT_DIRS + dl) % SLOT_DIRS && p * SLOT_DIRS + dl != q * SLOT_DIRS + dl
  {
  }

  lemma StillEmpty(m: Mm, d: int, i: int, p: nat)
    requires Inv(m) && IsSpot(d, i) && LOW_PAGE <= p < NR_PHYS && m.mem[p - LOW_PAGE] == 0
    ensures Entry(Alloc(m, p), d, i) == Entry(m, d, i)
  {
    FreeUnreferenced(m, p);
  }

  lemma FillStillEmpty(m: Mm, d: int, i: int, p: nat, f: Frame)
    requires Inv(m) && IsSpot(d, i) && FreshPage(m, p) && |f| == NR_ENTRY
    ensures Shape(WithFrame(m, p, f)) && Entry(WithFrame(m, p, f), d, i) == Entry(m, d, i) && FreshPage(WithFrame(m, p, f), p)
  {
    HeldUnreferenced(m, p);
  }

  /** The new page of un_wp_page is neither the shared page nor its table. */
  lemma AllocAway(m: Mm, d: int, i: int, p: nat)
    requires Inv(m) && IsSpot(d, i) && m.dir[d].present && Entry(m, d, i).present && LOW_PAGE <= p < NR_PHYS && m.mem[p - LOW_PAGE] == 0
    ensures Entry(Alloc(m, p), d, i) == Entry(m, d, i) && p != Entry(m, d, i).page && p != m.dir[d].page
    ensures Entry(m, d, i).page < NR_PHYS && m.dir[d].page != Entry(m, d, i).page
    ensures Alloc(m, p).kernel - multiset{p} == m.kernel
  {
    FreeUnreferenced(m, p);
    MappedIsCounted(m, d, i);
    NotATable(m, d, i);
  }

  // ----- bookkeeping of copy_page_tables

  predicate CopyRange(f0: int, t0: int, t: int) {
    && SLOT_DIRS <= f0 && f0 + SLOT_DIRS <= NR_DIR && SLOT_DIRS <= t0 && t0 + SLOT_DIRS <= NR_DIR
    && f0 % SLOT_DIRS == 0 && t0 % SLOT_DIRS == 0
    && t0 <= t < t0 + SLOT_DIRS && (f0 + SLOT_DIRS <= t0 || t0 + SLOT_DIRS <= f0)
  }

  lemma SlotsApart(from: int, to: int, size: int)
    requires from % TASK_BYTES == 0 && to % TASK_BYTES == 0 && from != to && 0 <= size <= TASK_BYTES
    requires TASK_BYTES <= from < NR_TASKS * TASK_BYTES && TASK_BYTES <= to < NR_TASKS * TASK_BYTES
    ensures CopyRange(from / TABLE_BYTES, to / TABLE_BYTES, to / TABLE_BYTES)
    ensures 0 <= (size + TABLE_BYTES - 1) / TABLE_BYTES <= SLOT_DIRS
  {
  }

  lemma CopyBegins(m: Mm, f0: int, t0: int)
    requires Inv(m)
    ensures Copied(Layout(m), f0, t0, t0, 0) == Layout(m) && Copied(Space(m), f0, t0, t0, 0) == Space(m)
  {
    LayoutSpots(m);
    CopiedStart(Layout(m), f0, t0);
    CopiedStart(Space(m), f0, t0);
  }

  lemma CopyUndone(m: Mm, f0: int, t0: int, t: int, t1: int)
    requires Inv(m) && SLOT_DIRS <= t0 <= t <= t1 <= NR_DIR
    requires forall d :: t0 <= d < t1 ==> !m.dir[d].present
    ensures Without(Copied(Layout(m), f0, t0, t, 0), t0, t1, 0) == Layout(m)
    ensures Without(Copied(Space(m), f0, t0, t, 0), t0, t1, 0) == Space(m)
  {
    LayoutSpots(m);
    assert NoneIn(Layout(m), t0, t1) && NoneIn(Space(m), t0, t1);
    WithoutCopied(Layout(m), f0, t0, t, 0, t1);
    WithoutCopied(Space(m), f0, t0, t, 0, t1);
  }

  lemma CopyAbsent(m: Mm, f0: int, t0: int, t: int)
    requires Inv(m) && CopyRange(f0, t0, t) && !m.dir[t].present && !m.dir[t - t0 + f0].present
    ensures Copied(Layout(m), f0, t0, t, 0) == Copied(Layout(m), f0, t0, t + 1, 0)
    ensures Copied(Space(m), f0, t0, t, 0) == Copied(Space(m), f0, t0, t + 1, 0)
  {
    LayoutSpots(m);
    CopiedAbsent(Layout(m), f0, t0, t);
    CopiedAbsent(Space(m), f0, t0, t);
  }

  /** The entries that the next round reads and writes. */
  lemma CopySpots(m: Mm, v: Mm, f0: int, t0: int, t: int, i: int)
    requires Inv(m) && Inv(v) && CopyRange(f0, t0, t) && 0 <= i < NR_ENTRY && !m.dir[t].present
    requires Layout(v) == Copied(Layout(m), f0, t0, t, i)
    ensures !Entry(v, t, i).present
    ensures (t, i) !in Layout(m) && (t, i) !in Space(m)
    ensures Entry(v, t - t0 + f0, i).present <==> (t - t0 + f0, i) in Layout(m)
    ensures var f := (t - t0 + f0, i);
      (f in Layout(m) <==> f in Space(m)) && (f in Layout(m) <==> f in Layout(v)) && (f in Layout(v) <==> f in Space(v))
  {
    hide Inv, Layout, Space, Entry;
    LayoutAt(m, t, i);
    LayoutAt(v, t, i);
    LayoutAt(m, t - t0 + f0, i);
    LayoutAt(v, t - t0 + f0, i);
  }

  lemma CopySteps(m: Mm, v: Mm, w: Mm, f0: int, t0: int, t: int, i: int)
    requires Inv(m) && Inv(v) && Inv(w) && CopyRange(f0, t0, t) && 0 <= i < NR_ENTRY
    requires var f := (t - t0 + f0, i); f in Layout(m) && f in Space(m) && f in Layout(v) && f in Space(v)
    requires Layout(v) == Copied(Layout(m), f0, t0, t, i) && Space(v) == Copied(Space(m), f0, t0, t, i)
    requires Layout(w) == Layout(v)[(t, i) := Layout(v)[(t - t0 + f0, i)]]
    requires Space(w) == Space(v)[(t, i) := Space(v)[(t - t0 + f0, i)]]
    ensures Layout(w) == Copied(Layout(m), f0, t0, t, i + 1) && Space(w) == Copied(Space(m), f0, t0, t, i + 1)
  {
    hide Layout, Space, Inv, Copied;
    LayoutSpots(m);
    CopiedStep(Layout(m), Layout(v), Layout(w), f0, t0, t, i);
    CopiedStep(Space(m), Space(v), Space(w), f0, t0, t, i);
  }

  lemma CopySkips(m: Mm, f0: int, t0: int, t: int, i: int)
    requires Inv(m) && CopyRange(f0, t0, t)
    requires (t, i) !in Layout(m) && (t, i) !in Space(m)
    requires (t - t0 + f0, i) !in Layout(m) && (t - t0 + f0, i) !in Space(m)
    ensures Copied(Layout(m), f0, t0, t, i) == Copied(Layout(m), f0, t0, t, i + 1)
    ensures Copied(Space(m), f0, t0, t, i) == Copied(Space(m), f0, t0, t, i + 1)
  {
    hide Layout, Space, Inv, Copied;
    CopiedSkip(Layout(m), f0, t0, t, i);
    CopiedSkip(Space(m), f0, t0, t, i);
  }

  lemma CopyTables(m: Mm, f0: int, t0: int, t: int)
    requires Inv(m) && CopyRange(f0, t0, t)
    ensures Copied(Layout(m), f0, t0, t, NR_ENTRY) == Copied(Layout(m), f0, t0, t + 1, 0)
    ensures Copied(Space(m), f0, t0, t, NR_ENTRY) == Copied(Space(m), f0, t0, t + 1, 0)
  {
    LayoutSpots(m);
    CopiedTable(Layout(m), f0, t0, t);
    CopiedTable(Space(m), f0, t0, t);
  }

  /** Share, store by store: the parent's entry is only written for a page above 1 MB, since
      pages below are never mapped writable. */
  lemma ShareExplicit(m: Mm, fd: int, td: int, i: int)
    requires Inv(m) && IsSpot(fd, i) && IsSpot(td, i) && fd != td && m.dir[fd].present && m.dir[td].present
    requires Entry(m, fd, i).present
    ensures var w, f, t := Entry(m, fd, i).(writable := false), m.dir[fd].page, m.dir[td].page;
      && w.page < NR_PHYS && f != t
      && var p := m.phys[t := m.phys[t][i := w]];
      Share(m, fd, td, i) == Mm(Acquired(m, w.page), m.dir, if LOW_PAGE <= w.page then p[f := p[f][i := w]] else p, m.task, m.kernel)
  {
    var w, f, t := Entry(m, fd, i).(writable := false), m.dir[fd].page, m.dir[td].page;
    var p := m.phys[t := m.phys[t][i := w]];
    if LOW_PAGE <= w.page {
      assert Share(m, fd, td, i).phys == p[f := p[f][i := w]];
    } else {
      assert m.phys[f][i := w] == m.phys[f];
      assert m.phys[f := m.phys[f]] == m.phys;
    }
  }

  lemma AbsentTable(m: Mm, d0: int, d: int)
    requires Inv(m) && SLOT_DIRS <= d0 <= d < NR_DIR && !m.dir[d].present
    ensures Without(Layout(m), d0, d, 0) == Without(Layout(m), d0, d + 1, 0)
    ensures Without(Space(m), d0, d, 0) == Without(Space(m), d0, d + 1, 0)
  {
    hide Without;
    LayoutSpots(m);
    WithoutAbsent(Layout(m), d0, d);
    WithoutAbsent(Space(m), d0, d);
  }

  lemma EmptiedTable(u: Mm, l: imap<Spot, Mapping>, d0: int, d: int)
    requires Shape(u) && SLOT_DIRS <= d0 <= d < NR_DIR && Layout(u) == Without(l, d0, d, NR_ENTRY)
    ensures forall i :: 0 <= i < NR_ENTRY ==> !Entry(u, d, i).present
  {
    forall i | 0 <= i < NR_ENTRY ensures !Entry(u, d, i).present {
      LayoutAt(u, d, i);
      assert (d, i) !in Without(l, d0, d, NR_ENTRY);
    }
  }

  lemma TableHigh(m: Mm, d: int)
    requires Inv(m) && SLOT_DIRS <= d < NR_DIR && m.dir[d].present
    ensures LOW_PAGE <= m.dir[d].page < NR_PHYS && m.mem[m.dir[d].page - LOW_PAGE] == 1
  {
  }

  // ----- whole runs, against eager copying

  datatype Op =
    | Fork(parent: int)
    | Quit(s: int, codeLimit: int)
    | Exec(s: int, inode: int, codeLimit: int)
    | Reap(s: int)
    | Store(s: int, dl: int, i: int, off: int, w: Word)
    | KernelStore(s: int, dl: int, i: int, off: int, w: Word)
    | PageIn(s: int, dl: int, i: int, iCount: int, inFile: bool, content: Frame)

  /** How an operation went: refused, out of memory, or done; `arg` is the child of a fork or
      the task a page was shared from, `fault` how a missing page was supplied. */
  datatype Outcome = Refused | Failed | Did(arg: int, fault: Fault)

  type View = imap<Spot, Frame>

  /** The eager memory: every task has its own copy of every page. */
  ghost function EagerStep(v: View, op: Op, out: Outcome): View {
    if !out.Did? then v else
    match op
    case Fork(p) => Forked(v, p, out.arg)
    case Quit(s, _) => Without(v, s * SLOT_DIRS, (s + 1) * SLOT_DIRS, 0)
    case Exec(s, _, _) => Without(v, s * SLOT_DIRS, (s + 1) * SLOT_DIRS, 0)
    case Reap(_) => v
    case Store(s, dl, i, off, w) => EagerStore(v, (s * SLOT_DIRS + dl, i), off, w)
    case KernelStore(s, dl, i, off, w) => EagerStore(v, (s * SLOT_DIRS + dl, i), off, w)
    case PageIn(s, dl, i, _, _, content) =>
      var t, f := (s * SLOT_DIRS + dl, i), (out.arg * SLOT_DIRS + dl, i);
      match out.fault
      case Cleared => v[t := ZeroFrame()]
      case Loaded => v[t := content]
      case SharedFrom => if f in v then v[t := v[f]] else v
      case FaultNoMemory => v
  }

  ghost function EagerStore(v: View, k: Spot, off: int, w: Word): View {
    if k in v && 0 <= off < NR_ENTRY then Written(v, k, off, w) else v
  }

  ghost function EagerRun(v: View, ops: seq<Op>, outs: seq<Outcome>): View
    requires |ops| == |outs|
  {
    if ops == [] then v
    else EagerStep(EagerRun(v, ops[..|ops| - 1], outs[..|ops| - 1]), ops[|ops| - 1], outs[|ops| - 1])
  }

  /** The slots whose view an operation may change. */
  predicate Acts(op: Op, out: Outcome, s: int) {
    match op
    case Fork(_) => out.Did? && s == out.arg
    case Reap(_) => false
    case _ => s == op.s
  }

  /** In the eager memory a task's view changes only by its own operations and by its own
      creation; through MemoryRun's refinement the same holds of copy-on-write. */
  lemma EagerIsolation(v: View, op: Op, out: Outcome, s: int, k: Spot)
    requires !Acts(op, out, s) && IsSpot(k.0, k.1) && s * SLOT_DIRS <= k.0 < (s + 1) * SLOT_DIRS
    requires (op.Store? || op.KernelStore? || op.PageIn?) ==> 0 <= op.dl < SLOT_DIRS
    ensures (k in EagerStep(v, op, out) <==> k in v) && (k in v ==> EagerStep(v, op, out)[k] == v[k])
  {
    if out.Did? {
      match op
      case Fork(p) => assert !Before(k, out.arg * SLOT_DIRS, (out.arg + 1) * SLOT_DIRS, 0);
      case Quit(q, _) => assert !Before(k, q * SLOT_DIRS, (q + 1) * SLOT_DIRS, 0);
      case Exec(q, _, _) => assert !Before(k, q * SLOT_DIRS, (q + 1) * SLOT_DIRS, 0);
      case Reap(_) =>
      case Store(q, dl, i, off, w) => assert k != (q * SLOT_DIRS + dl, i);
      case KernelStore(q, dl, i, off, w) => assert k != (q * SLOT_DIRS + dl, i);
      case PageIn(q, dl, i, _, _, content) => assert k != (q * SLOT_DIRS + dl, i);
    }
  }

  predicate InTask(s: int, dl: int, i: int) {
    1 <= s < NR_TASKS && 0 <= dl < SLOT_DIRS && 0 <= i < NR_ENTRY
  }

  /** The spots stored into since their pages were supplied, by the task itself or, before the
      fork, by a task it descends from. */
  ghost function StoredStep(d: imap<Spot, bool>, op: Op, out: Outcome): imap<Spot, bool> {
    if !out.Did? then d else
    match op
    case Fork(p) => Forked(d, p, out.arg)
    case Quit(s, _) => Without(d, s * SLOT_DIRS, (s + 1) * SLOT_DIRS, 0)
    case Exec(s, _, _) => Without(d, s * SLOT_DIRS, (s + 1) * SLOT_DIRS, 0)
    case Reap(_) => d
    case Store(s, dl, i, _, _) => d[(s * SLOT_DIRS + dl, i) := true]
    case KernelStore(s, dl, i, _, _) => d[(s * SLOT_DIRS + dl, i) := true]
    case PageIn(s, dl, i, _, _, _) => d[(s * SLOT_DIRS + dl, i) := false]
  }

  /** What the tasks execute: a child what its parent does, a zombie nothing. */
  function ExecutableStep(e: seq<int>, op: Op, out: Outcome): (r: seq<int>)
    requires |e| == NR_TASKS
    ensures |r| == NR_TASKS
  {
    if !out.Did? then e else
    match op
    case Fork(p) => if 0 <= p < NR_TASKS && 0 <= out.arg < NR_TASKS then e[out.arg := e[p]] else e
    case Quit(s, _) => if 0 <= s < NR_TASKS then e[s := 0] else e
    case Exec(s, inode, _) => if 0 <= s < NR_TASKS then e[s := inode] else e
    case _ => e
  }

  /** The page tables, and of the slots the zombie flags and the executables, at one point of a run. */
  datatype Moment = Moment(m: Mm, zombie: seq<bool>, executable: seq<int>)

  ghost predicate MomentOk(at: Moment) {
    Inv(at.m) && |at.zombie| == NR_TASKS && |at.executable| == NR_TASKS
  }

  ghost predicate Runs(at: Moment, s: int)
    requires MomentOk(at)
  {
    1 <= s < NR_TASKS && at.m.task[s] != 0 && !at.zombie[s]
  }

  /** The caller is a running task and the arguments make sense. */
  ghost predicate Sensible(at: Moment, op: Op)
    requires MomentOk(at)
  {
    match op
    case Fork(p) => Runs(at, p)
    case Quit(s, codeLimit) => Runs(at, s) && 0 <= codeLimit <= TASK_BYTES
    case Exec(s, inode, codeLimit) => Runs(at, s) && inode != 0 && 0 <= codeLimit <= TASK_BYTES
    case Reap(s) => 1 <= s < NR_TASKS && at.m.task[s] != 0 && at.zombie[s]
    case Store(s, dl, i, off, w) => InTask(s, dl, i) && 0 <= off < NR_ENTRY
    case KernelStore(s, dl, i, off, w) => InTask(s, dl, i) && 0 <= off < NR_ENTRY
    case PageIn(s, dl, i, iCount, inFile, content) =>
      InTask(s, dl, i) && Runs(at, s) && |content| == NR_ENTRY && !Entry(at.m, s * SLOT_DIRS + dl, i).present
  }

  /** Why a sensible operation may still fail: no slot, too few free pages, or no such page. */
  ghost predicate Starved(at: Moment, op: Op)
    requires MomentOk(at) && Sensible(at, op)
  {
    match op
    case Fork(p) => !SlotFree(at.m) || Free(at.m.mem) <= Tables(at.m.dir, p * SLOT_DIRS, (p + 1) * SLOT_DIRS)
    case Store(s, dl, i, off, w) => !Entry(at.m, s * SLOT_DIRS + dl, i).present || Stuck(at.m, s * SLOT_DIRS + dl, i)
    case KernelStore(s, dl, i, off, w) => !Entry(at.m, s * SLOT_DIRS + dl, i).present || Stuck(at.m, s * SLOT_DIRS + dl, i)
    case PageIn(s, dl, i, _, _, _) => Free(at.m.mem) < Needed(at.m, s * SLOT_DIRS + dl)
    case _ => false
  }

  /** The child had a free slot; a missing page was shared only if a task offers it, and read
      from the file only if no task does. */
  ghost predicate Supplied(at: Moment, op: Op, arg: int, fault: Fault)
    requires MomentOk(at) && Sensible(at, op)
  {
    match op
    case Fork(p) => 1 <= arg < NR_TASKS && at.m.task[arg] == 0
    case PageIn(s, dl, i, iCount, inFile, content) =>
      && fault != FaultNoMemory
      && (fault == Cleared <==> at.executable[s] == 0 || !inFile)
      && (fault == SharedFrom ==> 1 <= arg < NR_TASKS && Offers(at.m, arg, dl, i, s, at.executable))
      && (fault == Loaded ==> iCount < 2 || forall q :: 1 <= q < NR_TASKS ==> !Offers(at.m, q, dl, i, s, at.executable))
    case _ => true
  }

  /** What becomes of the slots and of the pages the kernel holds for them. */
  ghost predicate SlotsFollow(at: Moment, op: Op, out: Outcome, now: Moment)
    requires MomentOk(at) && MomentOk(now)
  {
    var child, gone, dead :=
      if op.Fork? && out.Did? then out.arg else -1, if op.Reap? && out.Did? then op.s else -1, if op.Quit? && out.Did? then op.s else -1;
    && (forall t :: 1 <= t < NR_TASKS && t != child && t != gone ==> now.m.task[t] == at.m.task[t])
    && (1 <= child < NR_TASKS ==> Runs(now, child) && now.m.kernel == at.m.kernel + multiset{now.m.task[child]})
    && (1 <= gone < NR_TASKS ==> now.m.task[gone] == 0 && now.m.kernel == at.m.kernel - multiset{at.m.task[gone]})
    && (child == -1 && gone == -1 ==> now.m.kernel == at.m.kernel)
    && (forall t :: 1 <= t < NR_TASKS && at.m.task[t] != 0 ==> now.zombie[t] == if t == dead then true else at.zombie[t])
  }

  /** One step of a run: it is refused exactly when it makes no sense, fails only when starved,
      and otherwise is one step of the eager memory. */
  ghost predicate Performs(at: Moment, op: Op, out: Outcome, now: Moment) {
    && MomentOk(at) && MomentOk(now)
    && (out == Refused <==> !Sensible(at, op))
    && (out == Failed ==> Starved(at, op))
    && (out.Did? ==> Supplied(at, op, out.arg, out.fault))
    && Space(now.m) == EagerStep(Space(at.m), op, out)
    && Dirt(Layout(now.m)) == StoredStep(Dirt(Layout(at.m)), op, out)
    && now.executable == ExecutableStep(at.executable, op, out)
    && SlotsFollow(at, op, out, now)
  }

  ghost function Now(mm: Memory): Moment
    requires mm.Arrays()
    reads mm, mm.memMap, mm.phys, mm.dir, mm.task, mm.zombie, mm.executable
  {
    Moment(mm.State(), mm.zombie[..], mm.executable[..])
  }

  // one operation of a run each; the caller is the fork, exit or wait call, or the processor

  method PerformFork(mm: Memory, p: int) returns (out: Outcome)
    requires mm.Valid()
    modifies mm, mm.memMap, mm.phys, mm.dir, mm.task, mm.zombie, mm.executable
    ensures mm.Valid() && Performs(old(Now(mm)), Fork(p), out, Now(mm))
  {
    hide Inv, Layout, Space, Refs, DirRefs, Copied, Without, Written, Free, Tables, Offers, Stuck, Forked, Dirt;
    if !(1 <= p < NR_TASKS && mm.task[p] != 0 && !mm.zombie[p]) { return Refused; }
    var nr := mm.CopyProcess(p);
    if nr != -1 { DirtForked(old(Layout(mm.State())), Layout(mm.State()), p, nr); }
    return if nr == -1 then Failed else Did(nr, Cleared);
  }

  method PerformQuit(mm: Memory, s: int, codeLimit: int) returns (out: Outcome)
    requires mm.Valid()
    modifies mm, mm.memMap, mm.phys, mm.dir, mm.task, mm.zombie, mm.executable
    ensures mm.Valid() && Performs(old(Now(mm)), Quit(s, codeLimit), out, Now(mm))
  {
    hide Inv, Layout, Space, Refs, DirRefs, Copied, Without, Written, Free, Tables, Offers, Stuck, Dirt;
    if !(1 <= s < NR_TASKS && mm.task[s] != 0 && !mm.zombie[s] && 0 <= codeLimit <= TASK_BYTES) { return Refused; }
    mm.Exit(s, codeLimit);
    DirtWithout(old(Layout(mm.State())), Layout(mm.State()), s * SLOT_DIRS, (s + 1) * SLOT_DIRS, 0);
    return Did(0, Cleared);
  }

  method PerformExec(mm: Memory, s: int, inode: int, codeLimit: int) returns (out: Outcome)
    requires mm.Valid()
    modifies mm, mm.memMap, mm.phys, mm.dir, mm.task, mm.zombie, mm.executable
    ensures mm.Valid() && Performs(old(Now(mm)), Exec(s, inode, codeLimit), out, Now(mm))
  {
    hide Inv, Layout, Space, Refs, DirRefs, Copied, Without, Written, Free, Tables, Offers, Stuck, Dirt;
    if !(1 <= s < NR_TASKS && mm.task[s] != 0 && !mm.zombie[s] && inode != 0 && 0 <= codeLimit <= TASK_BYTES) { return Refused; }
    mm.Execve(s, inode, codeLimit);
    DirtWithout(old(Layout(mm.State())), Layout(mm.State()), s * SLOT_DIRS, (s + 1) * SLOT_DIRS, 0);
    return Did(0, Cleared);
  }

  lemma RefusedPerforms(at: Moment, op: Op)
    requires MomentOk(at) && !Sensible(at, op)
    ensures Performs(at, op, Refused, at)
  {
    hide Inv, Layout, Space, Dirt;
  }

  lemma ReapPerforms(at: Moment, s: int, now: Moment)
    requires MomentOk(at) && MomentOk(now) && Sensible(at, Reap(s)) && now.m.task == at.m.task[s := 0] && now.zombie == at.zombie
    requires now.m.kernel == at.m.kernel - multiset{at.m.task[s]} && now.executable == at.executable
    requires Space(now.m) == Space(at.m) && Layout(now.m) == Layout(at.m)
    ensures Performs(at, Reap(s), Did(0, Cleared), now)
  {
    hide Inv, Layout, Space, Dirt;
  }

  method PerformReap(mm: Memory, s: int) returns (out: Outcome)
    requires mm.Valid()
    modifies mm, mm.memMap, mm.phys, mm.dir, mm.task, mm.zombie, mm.executable
    ensures mm.Valid() && Performs(old(Now(mm)), Reap(s), out, Now(mm))
  {
    hide Inv, Layout, Space, Refs, DirRefs, Dirt, Performs;
    if !(1 <= s < NR_TASKS && mm.task[s] != 0 && mm.zombie[s]) {
      RefusedPerforms(Now(mm), Reap(s));
      return Refused;
    }
    mm.Release(s);
    ReapPerforms(old(Now(mm)), s, Now(mm));
    return Did(0, Cleared);
  }

  method PerformStore(mm: Memory, s: int, dl: int, i: int, off: int, w: Word) returns (out: Outcome)
    requires mm.Valid()
    modifies mm, mm.memMap, mm.phys, mm.dir, mm.task, mm.zombie, mm.executable
    ensures mm.Valid() && Performs(old(Now(mm)), Store(s, dl, i, off, w), out, Now(mm))
  {
    hide Inv, Layout, Space, Refs, DirRefs, Copied, Without, Written, Free, Tables, Offers, Stuck, Dirt;
    if !(InTask(s, dl, i) && 0 <= off < NR_ENTRY) { return Refused; }
    var a := mm.UserWrite(s * SLOT_DIRS + dl, i, off, w);
    return if a == Done then Did(0, Cleared) else Failed;
  }

  method PerformKernelStore(mm: Memory, s: int, dl: int, i: int, off: int, w: Word) returns (out: Outcome)
    requires mm.Valid()
    modifies mm, mm.memMap, mm.phys, mm.dir, mm.task, mm.zombie, mm.executable
    ensures mm.Valid() && Performs(old(Now(mm)), KernelStore(s, dl, i, off, w), out, Now(mm))
  {
    hide Inv, Layout, Space, Refs, DirRefs, Copied, Without, Written, Free, Tables, Offers, Stuck, Dirt;
    if !(InTask(s, dl, i) && 0 <= off < NR_ENTRY) { return Refused; }
    var a := mm.KernelWrite(s * SLOT_DIRS + dl, i, off, w);
    return if a == Done then Did(0, Cleared) else Failed;
  }

  method PerformPageIn(mm: Memory, s: int, dl: int, i: int, iCount: int, inFile: bool, content: Frame) returns (out: Outcome)
    requires mm.Valid()
    modifies mm, mm.memMap, mm.phys, mm.dir, mm.task, mm.zombie, mm.executable
    ensures mm.Valid() && Performs(old(Now(mm)), PageIn(s, dl, i, iCount, inFile, content), out, Now(mm))
  {
    hide Inv, Layout, Space, Refs, DirRefs, Copied, Without, Written, Free, Tables, Offers, Stuck, Dirt;
    if !(InTask(s, dl, i) && mm.task[s] != 0 && !mm.zombie[s] && |content| == NR_ENTRY) { return Refused; }
    var d := s * SLOT_DIRS + dl;
    if mm.dir[d].present && mm.phys[mm.dir[d].page][i].present { return Refused; }
    var r, from := mm.DoNoPage(dl, i, s, iCount, inFile, content);
    return if r == FaultNoMemory then Failed else Did(from, r);
  }

  /** One operation. */
  method Perform(mm: Memory, op: Op) returns (out: Outcome)
    requires mm.Valid()
    modifies mm, mm.memMap, mm.phys, mm.dir, mm.task, mm.zombie, mm.executable
    ensures mm.Valid() && Performs(old(Now(mm)), op, out, Now(mm))
  {
    hide Performs, Now, mm.Valid;
    match op
    case Fork(p) => out := PerformFork(mm, p);
    case Quit(s, codeLimit) => out := PerformQuit(mm, s, codeLimit);
    case Exec(s, inode, codeLimit) => out := PerformExec(mm, s, inode, codeLimit);
    case Reap(s) => out := PerformReap(mm, s);
    case Store(s, dl, i, off, w) => out := PerformStore(mm, s, dl, i, off, w);
    case KernelStore(s, dl, i, off, w) => out := PerformKernelStore(mm, s, dl, i, off, w);
    case PageIn(s, dl, i, iCount, inFile, content) => out := PerformPageIn(mm, s, dl, i, iCount, inFile, content);
  }

  /** The states of a run: each operation is performed as Performs says. */
  ghost predicate RunOf(trace: seq<Moment>, ops: seq<Op>, outs: seq<Outcome>) {
    && |outs| == |ops| && |trace| == |ops| + 1 && (forall i :: 0 <= i < |ops| ==> Performs(trace[i], ops[i], outs[i], trace[i + 1]))
    && forall i :: 0 <= i < |trace| ==> MomentOk(trace[i])
  }

  /** Copy-on-write refines eager copying: after any run of operations every task reads at
      every address what it would read had each fork copied every page.  Every operation of the
      run is performed as Performs says.  No run reaches a panic, and every count stays the
      number of references. */
  method MemoryRun(mm: Memory, ops: seq<Op>) returns (outs: seq<Outcome>, ghost trace: seq<Moment>)
    requires mm.Valid()
    modifies mm, mm.memMap, mm.phys, mm.dir, mm.task, mm.zombie, mm.executable
    ensures mm.Valid()
    ensures RunOf(trace, ops, outs) && trace[0] == old(Now(mm)) && trace[|ops|] == Now(mm)
    ensures Space(mm.State()) == EagerRun(old(Space(mm.State())), ops, outs)
  {
    hide Inv, Layout, Space, Refs, DirRefs, EagerStep, Performs;
    outs, trace := [], [Now(mm)];
    while |outs| < |ops|
      invariant |outs| <= |ops| && |trace| == |outs| + 1 && trace[0] == old(Now(mm)) && trace[|outs|] == Now(mm)
      invariant mm.Valid() && forall i :: 0 <= i < |trace| ==> MomentOk(trace[i])
      invariant forall i :: 0 <= i < |outs| ==> Performs(trace[i], ops[i], outs[i], trace[i + 1])
      invariant Space(mm.State()) == EagerRun(old(Space(mm.State())), ops[..|outs|], outs)
    {
      ghost var k := |outs|;
      ghost var before := outs;
      var out := Perform(mm, ops[|outs|]);
      outs, trace := outs + [out], trace + [Now(mm)];
      PerformsEagerly(trace[k], ops[k], out, trace[k + 1]);
      assert ops[..k + 1][..k] == ops[..k] && outs[..k] == before;
    }
    assert ops[..|ops|] == ops;
  }

  // ----- that pages are shared, by fork or by try_to_share, cannot be seen

  /** The pages of the executables, by inode number and offset. */
  type Files = imap<(int, int, int), Frame>

  /** A fault of a task with an executable brings the page that the file has there, if it has one. */
  ghost predicate FileOp(file: Files, e: seq<int>, op: Op) {
    op.PageIn? && 1 <= op.s < |e| && e[op.s] != 0 ==>
      var k := (e[op.s], op.dl, op.i);
      (op.inFile <==> k in file) && (op.inFile ==> op.content == file[k])
  }

  /** What a fault has brought: the page of the file or a cleared one. */
  ghost function Wanted(e: seq<int>, op: Op): Frame
    requires op.PageIn?
  {
    if 0 <= op.s < |e| && e[op.s] != 0 && op.inFile then op.content else ZeroFrame()
  }

  /** Memory without any sharing: a fork copies every page, and a missing page is read from the
      file of the task or cleared. */
  ghost function PrivateStep(v: View, e: seq<int>, op: Op, out: Outcome): View {
    if op.PageIn? && out.Did? then v[(op.s * SLOT_DIRS + op.dl, op.i) := Wanted(e, op)] else EagerStep(v, op, out)
  }

  ghost function PrivateRun(v: View, e: seq<int>, ops: seq<Op>, outs: seq<Outcome>): View
    requires |ops| == |outs| && |e| == NR_TASKS
  {
    if ops == [] then v else
    var n := |ops| - 1;
    PrivateStep(PrivateRun(v, e, ops[..n], outs[..n]), Executables(e, ops[..n], outs[..n]), ops[n], outs[n])
  }

  function Executables(e: seq<int>, ops: seq<Op>, outs: seq<Outcome>): (r: seq<int>)
    requires |ops| == |outs| && |e| == NR_TASKS
    ensures |r| == NR_TASKS
  {
    if ops == [] then e else
    var n := |ops| - 1;
    ExecutableStep(Executables(e, ops[..n], outs[..n]), ops[n], outs[n])
  }

  ghost function StoredRun(d: imap<Spot, bool>, ops: seq<Op>, outs: seq<Outcome>): imap<Spot, bool>
    requires |ops| == |outs|
  {
    if ops == [] then d else
    var n := |ops| - 1;
    StoredStep(StoredRun(d, ops[..n], outs[..n]), ops[n], outs[n])
  }

  ghost predicate FileRun(file: Files, e: seq<int>, ops: seq<Op>, outs: seq<Outcome>)
    requires |ops| == |outs| && |e| == NR_TASKS
  {
    forall i :: 0 <= i < |ops| ==> FileOp(file, Executables(e, ops[..i], outs[..i]), ops[i])
  }

  /** Where nothing was stored the page is that of the task's file, if the file has one there. */
  ghost predicate Pristine(file: Files, v: View, d: imap<Spot, bool>, e: seq<int>) {
    forall k :: k in v && k in d && !d[k] && 0 <= k.1 && 1 <= k.0 / SLOT_DIRS < |e| && e[k.0 / SLOT_DIRS] != 0
      && (e[k.0 / SLOT_DIRS], k.0 % SLOT_DIRS, k.1) in file
      ==> v[k] == file[(e[k.0 / SLOT_DIRS], k.0 % SLOT_DIRS, k.1)]
  }

  /** In a run of MemoryRun every task reads what it would read had no page ever been shared,
      provided that the file has the page that a fault brings, and that it was so at the start. */
  lemma {:induction false} SharingUnseen(file: Files, trace: seq<Moment>, ops: seq<Op>, outs: seq<Outcome>)
    requires RunOf(trace, ops, outs) && FileRun(file, trace[0].executable, ops, outs)
    requires Pristine(file, Space(trace[0].m), Dirt(Layout(trace[0].m)), trace[0].executable)
    ensures var z := trace[|ops|];
      && Space(z.m) == PrivateRun(Space(trace[0].m), trace[0].executable, ops, outs)
      && z.executable == Executables(trace[0].executable, ops, outs)
      && Dirt(Layout(z.m)) == StoredRun(Dirt(Layout(trace[0].m)), ops, outs)
      && Pristine(file, Space(z.m), Dirt(Layout(z.m)), z.executable)
  {
    hide Inv, Layout, Space, Dirt, Pristine, FileOp, FileRun, PrivateStep, StoredStep, ExecutableStep, Performs;
    if ops != [] {
      var n := |ops| - 1;
      FileRunFront(file, trace[0].executable, ops, outs, n);
      SharingUnseen(file, trace[..n + 1], ops[..n], outs[..n]);
      UnseenStep(file, trace[n], ops[n], outs[n], trace[n + 1]);
    }
  }

  lemma FileRunFront(file: Files, e: seq<int>, ops: seq<Op>, outs: seq<Outcome>, n: int)
    requires |ops| == |outs| && |e| == NR_TASKS && FileRun(file, e, ops, outs) && 0 <= n < |ops|
    ensures FileRun(file, e, ops[..n], outs[..n]) && FileOp(file, Executables(e, ops[..n], outs[..n]), ops[n])
  {
    hide FileOp, Executables;
    forall i | 0 <= i < n ensures ops[..n][..i] == ops[..i] && outs[..n][..i] == outs[..i] {}
  }

  lemma UnseenStep(file: Files, at: Moment, op: Op, out: Outcome, now: Moment)
    requires Performs(at, op, out, now) && FileOp(file, at.executable, op)
    requires MomentOk(at) && MomentOk(now) && Pristine(file, Space(at.m), Dirt(Layout(at.m)), at.executable)
    ensures Space(now.m) == PrivateStep(Space(at.m), at.executable, op, out)
    ensures Dirt(Layout(now.m)) == StoredStep(Dirt(Layout(at.m)), op, out) && now.executable == ExecutableStep(at.executable, op, out)
    ensures Pristine(file, Space(now.m), Dirt(Layout(now.m)), now.executable)
  {
    hide Inv, Layout, Space, Dirt, Pristine;
    if op.PageIn? && out.Did? {
      SuppliedFromFile(file, at, op, out);
      PristinePage(file, Space(at.m), Dirt(Layout(at.m)), at.executable, op, out);
    } else {
      KeysAgree(at.m);
      PristineStep(file, Space(at.m), Dirt(Layout(at.m)), at.executable, op, out);
    }
  }

  lemma KeysAgree(m: Mm)
    requires Inv(m)
    ensures Space(m).Keys == Dirt(Layout(m)).Keys
  {
    hide Inv, Layout, Space;
    LayoutSpots(m);
  }

  /** A page that is shared is what the file has: its owner, who runs the same file, did not store into it. */
  lemma SuppliedFromFile(file: Files, at: Moment, op: Op, out: Outcome)
    requires MomentOk(at) && Sensible(at, op) && op.PageIn? && out.Did? && Supplied(at, op, out.arg, out.fault)
    requires FileOp(file, at.executable, op) && Pristine(file, Space(at.m), Dirt(Layout(at.m)), at.executable)
    ensures EagerStep(Space(at.m), op, out) == PrivateStep(Space(at.m), at.executable, op, out)
    ensures var f := (out.arg * SLOT_DIRS + op.dl, op.i);
      out.fault == SharedFrom ==> f in Dirt(Layout(at.m)) && !Dirt(Layout(at.m))[f] && at.executable[op.s] != 0 && op.inFile
  {
    hide Inv, Layout, Space, Pristine;
    if out.fault == SharedFrom {
      var d := out.arg * SLOT_DIRS + op.dl;
      OfferedPage(at, op, out);
      PristineAt(file, Space(at.m), Dirt(Layout(at.m)), at.executable, out.arg, op.dl, op.i);
      assert (d, op.i) in Space(at.m);
    }
  }

  lemma OfferedPage(at: Moment, op: Op, out: Outcome)
    requires MomentOk(at) && Sensible(at, op) && op.PageIn? && out.Did? && Supplied(at, op, out.arg, out.fault) && out.fault == SharedFrom
    ensures var f := (out.arg * SLOT_DIRS + op.dl, op.i);
      && f in Layout(at.m) && f in Space(at.m) && !Layout(at.m)[f].dirty
      && 1 <= out.arg < NR_TASKS && at.executable[out.arg] == at.executable[op.s]
  {
    hide Inv, Layout, Space;
    ReadAt(at.m, out.arg * SLOT_DIRS + op.dl, op.i);
  }

  lemma PristineAt(file: Files, v: View, d: imap<Spot, bool>, e: seq<int>, s: int, dl: int, i: int)
    requires Pristine(file, v, d, e) && 1 <= s < |e| && 0 <= dl < SLOT_DIRS && 0 <= i && e[s] != 0 && (e[s], dl, i) in file
    requires var k := (s * SLOT_DIRS + dl, i); k in v && k in d && !d[k]
    ensures v[(s * SLOT_DIRS + dl, i)] == file[(e[s], dl, i)]
  {
    var k := (s * SLOT_DIRS + dl, i);
    assert k.0 / SLOT_DIRS == s && k.0 % SLOT_DIRS == dl;
  }

  lemma PristinePage(file: Files, v: View, d: imap<Spot, bool>, e: seq<int>, op: Op, out: Outcome)
    requires |e| == NR_TASKS && op.PageIn? && out.Did? && FileOp(file, e, op) && Pristine(file, v, d, e) && InTask(op.s, op.dl, op.i)
    ensures Pristine(file, PrivateStep(v, e, op, out), StoredStep(d, op, out), ExecutableStep(e, op, out))
  {
    hide EagerStep;
    var k, u, g := (op.s * SLOT_DIRS + op.dl, op.i), PrivateStep(v, e, op, out), StoredStep(d, op, out);
    assert k.0 / SLOT_DIRS == op.s && k.0 % SLOT_DIRS == op.dl;
    assert forall l :: l != k && l in u && l in g ==> l in v && l in d && u[l] == v[l] && g[l] == d[l];
  }

  lemma PristineStep(file: Files, v: View, d: imap<Spot, bool>, e: seq<int>, op: Op, out: Outcome)
    requires |e| == NR_TASKS && !(op.PageIn? && out.Did?) && Pristine(file, v, d, e) && v.Keys == d.Keys
    requires op.Fork? && out.Did? ==> 1 <= op.parent < NR_TASKS && 1 <= out.arg < NR_TASKS
    requires op.Quit? || op.Exec? ==> 1 <= op.s < NR_TASKS || !out.Did?
    ensures Pristine(file, EagerStep(v, op, out), StoredStep(d, op, out), ExecutableStep(e, op, out))
  {
    if out.Did? && op.Fork? {
      PristineFork(file, v, d, e, op.parent, out.arg);
    } else if out.Did? && (op.Quit? || op.Exec?) {
      PristineGone(file, v, d, e, op.s, if op.Quit? then 0 else op.inode);
    }
  }

  lemma PristineFork(file: Files, v: View, d: imap<Spot, bool>, e: seq<int>, p: int, nr: int)
    requires |e| == NR_TASKS && Pristine(file, v, d, e) && v.Keys == d.Keys && 1 <= p < NR_TASKS && 1 <= nr < NR_TASKS
    ensures Pristine(file, Forked(v, p, nr), Forked(d, p, nr), e[nr := e[p]])
  {
    forall k: Spot | 0 <= k.1 ensures Before(k, nr * SLOT_DIRS, (nr + 1) * SLOT_DIRS, 0) <==> k.0 / SLOT_DIRS == nr {}
    forall k: Spot | k.0 / SLOT_DIRS == nr
      ensures (k.0 - nr * SLOT_DIRS + p * SLOT_DIRS) / SLOT_DIRS == p && (k.0 - nr * SLOT_DIRS + p * SLOT_DIRS) % SLOT_DIRS == k.0 % SLOT_DIRS {}
  }

  lemma PristineGone(file: Files, v: View, d: imap<Spot, bool>, e: seq<int>, s: int, inode: int)
    requires |e| == NR_TASKS && Pristine(file, v, d, e) && 1 <= s < NR_TASKS
    ensures Pristine(file, Without(v, s * SLOT_DIRS, (s + 1) * SLOT_DIRS, 0), Without(d, s * SLOT_DIRS, (s + 1) * SLOT_DIRS, 0), e[s := inode])
  {
    forall k: Spot | 0 <= k.1 ensures Before(k, s * SLOT_DIRS, (s + 1) * SLOT_DIRS, 0) <==> k.0 / SLOT_DIRS == s {}
  }

  lemma SuppliedStep(file: Files, at: Moment, op: Op, out: Outcome, now: Moment)
    requires Performs(at, op, out, now) && FileOp(file, at.executable, op) && op.PageIn? && out.Did?
    requires MomentOk(at) && MomentOk(now) && Pristine(file, Space(at.m), Dirt(Layout(at.m)), at.executable)
    ensures var t := (op.s * SLOT_DIRS + op.dl, op.i); t in Space(now.m) && Space(now.m)[t] == Wanted(at.executable, op)
    ensures var f := (out.arg * SLOT_DIRS + op.dl, op.i); out.fault == SharedFrom ==> f in Dirt(Layout(at.m)) && !Dirt(Layout(at.m))[f]
  {
    hide Inv, Layout, Space, Dirt, Pristine, Offers;
    SuppliedFromFile(file, at, op, out);
  }

  /** A fault brings the page of the file or a cleared one, shared or not.  A page that a task is
      given to share is one that neither its owner nor a task the owner descends from has stored
      into since it was supplied. */
  lemma SharedUntouched(file: Files, trace: seq<Moment>, ops: seq<Op>, outs: seq<Outcome>, i: int)
    requires RunOf(trace, ops, outs) && FileRun(file, trace[0].executable, ops, outs)
    requires Pristine(file, Space(trace[0].m), Dirt(Layout(trace[0].m)), trace[0].executable)
    requires 0 <= i < |ops| && ops[i].PageIn? && outs[i].Did?
    ensures var t := (ops[i].s * SLOT_DIRS + ops[i].dl, ops[i].i);
      t in Space(trace[i + 1].m) && Space(trace[i + 1].m)[t] == Wanted(Executables(trace[0].executable, ops[..i], outs[..i]), ops[i])
    ensures var f, d := (outs[i].arg * SLOT_DIRS + ops[i].dl, ops[i].i), StoredRun(Dirt(Layout(trace[0].m)), ops[..i], outs[..i]);
      outs[i].fault == SharedFrom ==> f in d && !d[f]
  {
    hide Inv, Layout, Space, Dirt, Pristine, Performs, FileOp, Wanted, StoredRun, Executables, PrivateRun, FileRun;
    FileRunFront(file, trace[0].executable, ops, outs, i);
    SharingUnseen(file, trace[..i + 1], ops[..i], outs[..i]);
    SuppliedStep(file, trace[i], ops[i], outs[i], trace[i + 1]);
  }

  lemma PerformsEagerly(at: Moment, op: Op, out: Outcome, now: Moment)
    requires Performs(at, op, out, now)
    ensures MomentOk(at) && MomentOk(now) && Space(now.m) == EagerStep(Space(at.m), op, out)
  {
  }
}
