/**
 The paging state of mm/memory.c as a value: the byte map mem_map, the page directory,
 the physical frames (which hold both page tables and user data), the task slots, and a
 record of the pages the kernel itself holds.  Every single-entry step that the functions
 of memory.c are made of is a function here, with a lemma that says what it keeps.

 Physical pages are numbered by address >> 12, linear pages by a pair (directory index,
 table index).  Slot 0 (directory entries 0..15) is the kernel's own and is not modelled.
 */
module PageTables {

  const LOW_PAGE: nat := 256          // LOW_MEM >> 12
  const PAGING_PAGES: nat := 3840     // 15 MB of pages above LOW_MEM
  const NR_PHYS: nat := 4096
  const NR_DIR: nat := 1024
  const NR_ENTRY: nat := 1024
  const NR_TASKS: nat := 64
  const SLOT_DIRS: nat := 16          // 64 MB of linear space per task
  const USED: nat := 100

  /** A 32-bit word read as a page-table or directory entry: bits 31-12, then the flags
      D, U/S, R/W and P; `rest` is what is left of the low twelve bits. */
  datatype Word = Word(page: nat, rest: nat, dirty: bool, user: bool, writable: bool, present: bool)

  const ZERO: Word := Word(0, 0, false, false, false, false)

  type Frame = seq<Word>          // 1024 words, see Shape

  function ZeroFrame(): (f: Frame)
    ensures |f| == 1024
    ensures forall i :: 0 <= i < 1024 ==> f[i] == ZERO
  {
    seq(1024, _ => ZERO)
  }

  type Spot = (int, int)

  datatype Mm = Mm(mem: seq<int>, dir: seq<Word>, phys: seq<Frame>, task: seq<int>, kernel: multiset<int>)

  predicate Shape(m: Mm) {
    && |m.mem| == PAGING_PAGES && |m.dir| == NR_DIR && |m.phys| == NR_PHYS && |m.task| == NR_TASKS
    && (forall p :: 0 <= p < NR_PHYS ==> |m.phys[p]| == NR_ENTRY)
    && (forall d :: SLOT_DIRS <= d < NR_DIR && m.dir[d].present ==> LOW_PAGE <= m.dir[d].page < NR_PHYS)
  }

  predicate IsSpot(d: int, i: int) {
    SLOT_DIRS <= d < NR_DIR && 0 <= i < NR_ENTRY
  }

  /** word|7: the entry that maps page p present, writable and for user mode. */
  function Rwx(p: nat): Word {
    Word(p, 0, false, true, true, true)
  }

  /** The table entry at a spot, the zero word where there is no table. */
  function Entry(m: Mm, d: int, i: int): Word
    requires Shape(m) && IsSpot(d, i)
  {
    if m.dir[d].present then m.phys[m.dir[d].page][i] else ZERO
  }

  predicate Maps(m: Mm, d: int, i: int, p: int)
    requires Shape(m) && IsSpot(d, i)
  {
    Entry(m, d, i).present && Entry(m, d, i).page == p
  }

  /** The user table entries that refer to page p. */
  ghost function Refs(m: Mm, p: int): set<Spot>
    requires Shape(m)
  {
    set d: int, i: int | SLOT_DIRS <= d < NR_DIR && 0 <= i < NR_ENTRY && Maps(m, d, i, p) :: (d, i)
  }

  /** The directory entries that refer to page p. */
  ghost function DirRefs(m: Mm, p: int): set<int>
    requires Shape(m)
  {
    set d: int | SLOT_DIRS <= d < NR_DIR && m.dir[d].present && m.dir[d].page == p
  }

  /** mem_map agrees with the references: user table entries, directory entries, kernel holders. */
  ghost predicate Counted(m: Mm, p: int)
    requires Shape(m) && LOW_PAGE <= p < NR_PHYS
  {
    m.mem[p - LOW_PAGE] == |Refs(m, p)| + |DirRefs(m, p)| + m.kernel[p]
  }

  ghost predicate TablesOwned(m: Mm)
    requires Shape(m)
  {
    && (forall d :: SLOT_DIRS <= d < NR_DIR && m.dir[d].present ==> m.mem[m.dir[d].page - LOW_PAGE] == 1)
    && (forall d, e :: SLOT_DIRS <= d < e < NR_DIR && m.dir[d].present && m.dir[e].present ==> m.dir[d].page != m.dir[e].page)
  }

  /** A writable entry is the only reference to its page: the copy-on-write invariant. */
  ghost predicate EntriesSound(m: Mm)
    requires Shape(m)
  {
    forall d, i :: IsSpot(d, i) && Entry(m, d, i).present ==>
      && Entry(m, d, i).page < NR_PHYS
      && (Entry(m, d, i).writable ==> LOW_PAGE <= Entry(m, d, i).page && m.mem[Entry(m, d, i).page - LOW_PAGE] == 1)
  }

  /** All mappings of a page sit at one logical offset of their slots. */
  ghost predicate SameOffset(m: Mm)
    requires Shape(m)
  {
    forall d, i, e, j :: IsSpot(d, i) && IsSpot(e, j) && Entry(m, d, i).present && Entry(m, e, j).present
      && Entry(m, d, i).page == Entry(m, e, j).page && LOW_PAGE <= Entry(m, d, i).page
      ==> i == j && d % SLOT_DIRS == e % SLOT_DIRS
  }

  ghost predicate TasksSound(m: Mm)
    requires Shape(m)
  {
    && (forall s :: 1 <= s < NR_TASKS && m.task[s] != 0 ==>
         LOW_PAGE <= m.task[s] < NR_PHYS && m.kernel[m.task[s]] >= 1 && m.mem[m.task[s] - LOW_PAGE] == 1)
    && (forall s, t :: 1 <= s < t < NR_TASKS && m.task[s] != 0 && m.task[t] != 0 ==> m.task[s] != m.task[t])
  }

  ghost predicate Inv(m: Mm)
    ensures Inv(m) ==> Shape(m)
  {
    && Shape(m)
    && TablesOwned(m)
    && EntriesSound(m)
    && SameOffset(m)
    && TasksSound(m)
    && (forall p :: LOW_PAGE <= p < NR_PHYS ==> Counted(m, p))
    && (forall p :: m.kernel[p] <= USED)
  }

  /** The page that is mapped at a spot, and whether it was stored into through this entry. */
  datatype Mapping = Mapping(page: int, dirty: bool)

  /** What is mapped where. */
  ghost function Layout(m: Mm): imap<Spot, Mapping>
    requires Shape(m)
  {
    imap k: Spot | IsSpot(k.0, k.1) && Entry(m, k.0, k.1).present :: Mapping(Entry(m, k.0, k.1).page, Entry(m, k.0, k.1).dirty)
  }

  /** What a task reads where: the content of every mapped linear page. */
  ghost function Space(m: Mm): imap<Spot, Frame>
    requires Shape(m)
  {
    imap k: Spot | IsSpot(k.0, k.1) && Entry(m, k.0, k.1).present && Entry(m, k.0, k.1).page < NR_PHYS
      :: m.phys[Entry(m, k.0, k.1).page]
  }

  // ----- consequences of the counts

  lemma SubsetCard<T>(a: set<T>, b: set<T>)
    requires a <= b
    ensures |a| <= |b|
  {
    assert b == a + (b - a);
  }

  lemma CardWithout<T>(s: set<T>, x: T)
    ensures |s| == |s - {x}| + (if x in s then 1 else 0)
  {
    if x in s { assert s == (s - {x}) + {x}; } else { assert s == s - {x}; }
  }

  lemma HasRef(m: Mm, d: int, i: int)
    requires Shape(m) && IsSpot(d, i) && Entry(m, d, i).present
    ensures (d, i) in Refs(m, Entry(m, d, i).page) && |Refs(m, Entry(m, d, i).page)| >= 1
  {
    SubsetCard({(d, i)}, Refs(m, Entry(m, d, i).page));
  }

  lemma HasDirRef(m: Mm, d: int)
    requires Shape(m) && SLOT_DIRS <= d < NR_DIR && m.dir[d].present
    ensures d in DirRefs(m, m.dir[d].page) && |DirRefs(m, m.dir[d].page)| >= 1
  {
    SubsetCard({d}, DirRefs(m, m.dir[d].page));
  }

  /** A page-table frame is referred to by its directory entry and nothing else. */
  lemma TableExclusive(m: Mm, d: int)
    requires Inv(m) && SLOT_DIRS <= d < NR_DIR && m.dir[d].present
    ensures Refs(m, m.dir[d].page) == {} && m.kernel[m.dir[d].page] == 0
    ensures forall e, i :: IsSpot(e, i) ==> !Maps(m, e, i, m.dir[d].page)
  {
    HasDirRef(m, d);
    assert Counted(m, m.dir[d].page);
    forall e, i | IsSpot(e, i) ensures !Maps(m, e, i, m.dir[d].page) {
      if Maps(m, e, i, m.dir[d].page) { HasRef(m, e, i); }
    }
  }

  /** The page of a task_struct is mapped nowhere. */
  lemma TaskPageUnmapped(m: Mm)
    requires Inv(m)
    ensures forall s, e, i :: 1 <= s < NR_TASKS && m.task[s] != 0 && IsSpot(e, i) ==> !Maps(m, e, i, m.task[s])
    ensures forall s, e :: 1 <= s < NR_TASKS && m.task[s] != 0 && SLOT_DIRS <= e < NR_DIR && m.dir[e].present ==> m.dir[e].page != m.task[s]
  {
    forall s | 1 <= s < NR_TASKS && m.task[s] != 0
      ensures forall e, i :: IsSpot(e, i) ==> !Maps(m, e, i, m.task[s])
      ensures forall e :: SLOT_DIRS <= e < NR_DIR && m.dir[e].present ==> m.dir[e].page != m.task[s]
    {
      HeldUnreferenced(m, m.task[s]);
    }
  }

  /** A page whose count is zero is referred to by nothing. */
  lemma FreeUnreferenced(m: Mm, p: int)
    requires Inv(m) && LOW_PAGE <= p < NR_PHYS && m.mem[p - LOW_PAGE] == 0
    ensures Refs(m, p) == {} && DirRefs(m, p) == {} && m.kernel[p] == 0
    ensures forall e, i :: IsSpot(e, i) ==> !Maps(m, e, i, p)
    ensures forall e :: SLOT_DIRS <= e < NR_DIR && m.dir[e].present ==> m.dir[e].page != p
  {
    assert Counted(m, p);
    forall e, i | IsSpot(e, i) ensures !Maps(m, e, i, p) {
      if Maps(m, e, i, p) { HasRef(m, e, i); }
    }
    forall e | SLOT_DIRS <= e < NR_DIR && m.dir[e].present ensures m.dir[e].page != p {
      if m.dir[e].page == p { HasDirRef(m, e); }
    }
  }

  /** A page the kernel holds and whose count is one is referred to by nothing else. */
  lemma HeldUnreferenced(m: Mm, p: int)
    requires Inv(m) && LOW_PAGE <= p < NR_PHYS && m.mem[p - LOW_PAGE] == 1 && m.kernel[p] >= 1
    ensures Refs(m, p) == {} && DirRefs(m, p) == {} && m.kernel[p] == 1
    ensures forall e, i :: IsSpot(e, i) ==> !Maps(m, e, i, p)
    ensures forall e :: SLOT_DIRS <= e < NR_DIR && m.dir[e].present ==> m.dir[e].page != p
  {
    assert Counted(m, p);
    forall e, i | IsSpot(e, i) ensures !Maps(m, e, i, p) {
      if Maps(m, e, i, p) { HasRef(m, e, i); }
    }
    forall e | SLOT_DIRS <= e < NR_DIR && m.dir[e].present ensures m.dir[e].page != p {
      if m.dir[e].page == p { HasDirRef(m, e); }
    }
  }

  /** An entry on a page whose count is one is the only reference to that page. */
  lemma SoleMapping(m: Mm, d: int, i: int)
    requires Inv(m) && IsSpot(d, i) && Entry(m, d, i).present
    requires LOW_PAGE <= Entry(m, d, i).page && m.mem[Entry(m, d, i).page - LOW_PAGE] == 1
    ensures var p := Entry(m, d, i).page;
            && DirRefs(m, p) == {} && m.kernel[p] == 0
            && (forall e, j :: IsSpot(e, j) && (e, j) != (d, i) ==> !Maps(m, e, j, p))
            && (forall e :: SLOT_DIRS <= e < NR_DIR && m.dir[e].present ==> m.dir[e].page != p)
  {
    var p := Entry(m, d, i).page;
    HasRef(m, d, i);
    assert Counted(m, p);
    forall e, j | IsSpot(e, j) && (e, j) != (d, i) ensures !Maps(m, e, j, p) {
      if Maps(m, e, j, p) { SubsetCard({(d, i), (e, j)}, Refs(m, p)); }
    }
    forall e | SLOT_DIRS <= e < NR_DIR && m.dir[e].present ensures m.dir[e].page != p {
      if m.dir[e].page == p { HasDirRef(m, e); }
    }
  }

  lemma {:induction false} SlotCard(s: set<Spot>, n: nat)
    requires forall k :: k in s ==> 0 <= k.0 / SLOT_DIRS < n
    requires forall k, l :: k in s && l in s && k.0 / SLOT_DIRS == l.0 / SLOT_DIRS ==> k == l
    ensures |s| <= n
    decreases n
  {
    if n == 0 {
      assert s == {};
    } else if k :| k in s && k.0 / SLOT_DIRS == n - 1 {
      SlotCard(s - {k}, n - 1);
    } else {
      SlotCard(s, n - 1);
    }
  }

  /** mem_map is an unsigned char: no count can reach 256, so no ++ wraps. */
  lemma CountFitsInByte(m: Mm, p: int)
    requires Inv(m) && LOW_PAGE <= p < NR_PHYS
    ensures |Refs(m, p)| <= NR_TASKS
    ensures m.mem[p - LOW_PAGE] <= NR_TASKS + USED < 256
  {
    SlotCard(Refs(m, p), NR_TASKS);
    assert Counted(m, p);
    if d :| d in DirRefs(m, p) {
      assert m.mem[p - LOW_PAGE] == 1;
    } else {
      assert DirRefs(m, p) == {};
    }
  }

  // ----- changing one table entry

  function SetEntry(m: Mm, d: int, i: int, w: Word): Mm
    requires Shape(m) && IsSpot(d, i) && m.dir[d].present
  {
    Mm(m.mem, m.dir, m.phys[m.dir[d].page := m.phys[m.dir[d].page][i := w]], m.task, m.kernel)
  }

  ghost predicate DistinctTables(m: Mm)
    requires Shape(m)
  {
    forall d, e :: SLOT_DIRS <= d < e < NR_DIR && m.dir[d].present && m.dir[e].present ==> m.dir[d].page != m.dir[e].page
  }

  lemma EntryAfterSet(m: Mm, d: int, i: int, w: Word)
    requires Shape(m) && DistinctTables(m) && IsSpot(d, i) && m.dir[d].present
    ensures var n := SetEntry(m, d, i, w);
            && Shape(n) && n.dir == m.dir && n.mem == m.mem
            && (forall e, j :: IsSpot(e, j) ==> Entry(n, e, j) == if (e, j) == (d, i) then w else Entry(m, e, j))
  {
  }

  lemma RefsAfterSet(m: Mm, d: int, i: int, w: Word, p: int)
    requires Shape(m) && DistinctTables(m) && IsSpot(d, i) && m.dir[d].present
    ensures var n := SetEntry(m, d, i, w);
            && Shape(n)
            && DirRefs(n, p) == DirRefs(m, p)
            && |Refs(n, p)| == |Refs(m, p)|
                               - (if Maps(m, d, i, p) then 1 else 0)
                               + (if w.present && w.page == p then 1 else 0)
  {
    var n := SetEntry(m, d, i, w);
    EntryAfterSet(m, d, i, w);
    assert Refs(n, p) - {(d, i)} == Refs(m, p) - {(d, i)};
    assert Maps(m, d, i, p) <==> (d, i) in Refs(m, p);
    assert (w.present && w.page == p) <==> (d, i) in Refs(n, p);
    CardWithout(Refs(n, p), (d, i));
    CardWithout(Refs(m, p), (d, i));
    assert DirRefs(n, p) == DirRefs(m, p);
  }

  /** Changing a frame that is not a page table changes no entry. */
  lemma EntryAfterData(m: Mm, p: int, f: Frame)
    requires |f| == NR_ENTRY
    requires Shape(m) && 0 <= p < NR_PHYS
    requires forall d :: SLOT_DIRS <= d < NR_DIR && m.dir[d].present ==> m.dir[d].page != p
    ensures var n := m.(phys := m.phys[p := f]);
            && Shape(n)
            && (forall e, j :: IsSpot(e, j) ==> Entry(n, e, j) == Entry(m, e, j))
  {
  }

  /** Same entries and directory, so same references. */
  lemma SameRefs(m: Mm, n: Mm, p: int)
    requires Shape(m) && Shape(n)
    requires forall e, j :: IsSpot(e, j) ==> Entry(n, e, j).present == Entry(m, e, j).present && Entry(n, e, j).page == Entry(m, e, j).page
    ensures Refs(n, p) == Refs(m, p)
    ensures n.dir == m.dir ==> DirRefs(n, p) == DirRefs(m, p)
  {
  }

  lemma UpdateSame<V>(s: imap<Spot, V>, k: Spot, v: V)
    requires k in s && s[k] == v
    ensures s[k := v] == s
  {
  }

  lemma CopyVia<V>(s: imap<Spot, V>, t: imap<Spot, V>, r: imap<Spot, V>, f: Spot, k: Spot)
    requires f in s && t == s && r == t[k := t[f]]
    ensures r == s[k := s[f]]
  {
  }

  lemma UpdateBack<V>(s: imap<Spot, V>, t: imap<Spot, V>, r: imap<Spot, V>, k: Spot, u: V, v: V)
    requires k in s && s[k] == v && t == s[k := u] && r == t[k := v]
    ensures r == s
  {
  }

  /** What one changed entry means for the layout. */
  lemma LayoutAfterSet(m: Mm, n: Mm, d: int, i: int, w: Word)
    requires Shape(m) && Shape(n) && IsSpot(d, i)
    requires forall e, j :: IsSpot(e, j) ==> Entry(n, e, j) == if (e, j) == (d, i) then w else Entry(m, e, j)
    ensures Layout(n) == if w.present then Layout(m)[(d, i) := Mapping(w.page, w.dirty)] else Layout(m) - {(d, i)}
  {
    hide Entry;
  }

  /** What one changed entry means for what is read. */
  lemma SpaceAfterSet(m: Mm, n: Mm, d: int, i: int, w: Word)
    requires Shape(m) && Shape(n) && IsSpot(d, i) && (w.present ==> w.page < NR_PHYS)
    requires forall e, j :: IsSpot(e, j) ==> Entry(n, e, j) == if (e, j) == (d, i) then w else Entry(m, e, j)
    requires forall e, j :: IsSpot(e, j) && (e, j) != (d, i) && Entry(m, e, j).present && Entry(m, e, j).page < NR_PHYS
               ==> n.phys[Entry(m, e, j).page] == m.phys[Entry(m, e, j).page]
    ensures Space(n) == if w.present then Space(m)[(d, i) := n.phys[w.page]] else Space(m) - {(d, i)}
  {
    hide Entry;
  }

  lemma EntriesSoundAfterSet(m: Mm, n: Mm, d: int, i: int, w: Word)
    requires Shape(m) && Shape(n) && IsSpot(d, i) && EntriesSound(m)
    requires forall e, j :: IsSpot(e, j) ==> Entry(n, e, j) == if (e, j) == (d, i) then w else Entry(m, e, j)
    requires w.present ==> w.page < NR_PHYS && (w.writable ==> LOW_PAGE <= w.page && n.mem[w.page - LOW_PAGE] == 1)
    requires forall e, j :: IsSpot(e, j) && (e, j) != (d, i) && Entry(m, e, j).present && Entry(m, e, j).writable
               ==> n.mem[Entry(m, e, j).page - LOW_PAGE] == 1
    ensures EntriesSound(n)
  {
    hide Entry;
  }

  lemma SameOffsetAfterSet(m: Mm, n: Mm, d: int, i: int, w: Word)
    requires Shape(m) && Shape(n) && IsSpot(d, i) && SameOffset(m)
    requires forall e, j :: IsSpot(e, j) ==> Entry(n, e, j) == if (e, j) == (d, i) then w else Entry(m, e, j)
    requires forall e, j :: w.present && LOW_PAGE <= w.page && IsSpot(e, j) && (e, j) != (d, i) && Maps(m, e, j, w.page)
               ==> j == i && e % SLOT_DIRS == d % SLOT_DIRS
    ensures SameOffset(n)
  {
    hide Entry;
  }

  // ----- the steps

  /** get_free_page: page p is marked used, cleared and handed to the kernel. */
  function Alloc(m: Mm, p: int): Mm
    requires Shape(m) && LOW_PAGE <= p < NR_PHYS
  {
    Mm(m.mem[p - LOW_PAGE := 1], m.dir, m.phys[p := ZeroFrame()], m.task, m.kernel + multiset{p})
  }

  lemma AllocKeeps(m: Mm, p: int)
    requires Inv(m) && LOW_PAGE <= p < NR_PHYS && m.mem[p - LOW_PAGE] == 0
    ensures var n := Alloc(m, p); Inv(n) && Layout(n) == Layout(m) && Space(n) == Space(m)
  {
    FreeUnreferenced(m, p);
    EntryAfterData(m, p, ZeroFrame());
    Quiet(m, Alloc(m, p), p, 1);
  }

  /** When no entry changes, a count may change only together with the kernel's holders. */
  lemma Quiet(m: Mm, n: Mm, p: int, delta: int)
    requires Inv(m) && Shape(n) && n.dir == m.dir && n.task == m.task && LOW_PAGE <= p < NR_PHYS
    requires forall e, j :: IsSpot(e, j) ==> Entry(n, e, j) == Entry(m, e, j)
    requires forall q :: 0 <= q < NR_PHYS && q != p ==> n.phys[q] == m.phys[q]
    requires n.mem == m.mem[p - LOW_PAGE := m.mem[p - LOW_PAGE] + delta]
    requires forall q :: n.kernel[q] == m.kernel[q] + (if q == p then delta else 0)
    requires n.kernel[p] <= USED && forall s :: 1 <= s < NR_TASKS ==> m.task[s] != p
    requires forall e, j :: IsSpot(e, j) && Entry(m, e, j).present ==> Entry(m, e, j).page != p
    requires forall e :: SLOT_DIRS <= e < NR_DIR && m.dir[e].present ==> m.dir[e].page != p
    ensures Inv(n) && Layout(n) == Layout(m) && Space(n) == Space(m)
  {
    hide Entry;
    SameCounts(m, n, p, delta);
  }

  lemma SameCounts(m: Mm, n: Mm, p: int, delta: int)
    requires Inv(m) && Shape(n) && n.dir == m.dir && LOW_PAGE <= p < NR_PHYS
    requires forall e, j :: IsSpot(e, j) ==> Entry(n, e, j) == Entry(m, e, j)
    requires n.mem == m.mem[p - LOW_PAGE := m.mem[p - LOW_PAGE] + delta]
    requires forall q :: n.kernel[q] == m.kernel[q] + (if q == p then delta else 0)
    ensures forall q :: LOW_PAGE <= q < NR_PHYS ==> Counted(n, q)
  {
    hide Entry;
    forall q | LOW_PAGE <= q < NR_PHYS ensures Counted(n, q) {
      assert Counted(m, q);
      SameRefs(m, n, q);
    }
  }

  lemma FreshAfterAlloc(m: Mm, p: int)
    requires Inv(m) && LOW_PAGE <= p < NR_PHYS && m.mem[p - LOW_PAGE] == 0
    ensures FreshPage(Alloc(m, p), p)
  {
    FreeUnreferenced(m, p);
  }

  /** free_page on a page the kernel holds. */
  function Drop(m: Mm, p: int): Mm
    requires Shape(m) && LOW_PAGE <= p < NR_PHYS && m.mem[p - LOW_PAGE] > 0
  {
    Mm(m.mem[p - LOW_PAGE := m.mem[p - LOW_PAGE] - 1], m.dir, m.phys, m.task, m.kernel - multiset{p})
  }

  lemma DropKeeps(m: Mm, p: int)
    requires Inv(m) && LOW_PAGE <= p < NR_PHYS && m.kernel[p] >= 1 && m.mem[p - LOW_PAGE] == 1
    requires forall s :: 1 <= s < NR_TASKS ==> m.task[s] != p
    ensures var n := Drop(m, p); Inv(n) && Layout(n) == Layout(m) && Space(n) == Space(m)
  {
    HeldUnreferenced(m, p);
    Quiet(m, Drop(m, p), p, -1);
  }

  /** A cleared page the kernel holds becomes the page table of directory entry d. */
  function AddTable(m: Mm, d: int, p: nat): Mm
    requires Shape(m) && SLOT_DIRS <= d < NR_DIR
  {
    Mm(m.mem, m.dir[d := Rwx(p)], m.phys, m.task, m.kernel - multiset{p})
  }

  ghost predicate FreshPage(m: Mm, p: int)
    requires Shape(m)
  {
    && LOW_PAGE <= p < NR_PHYS && m.mem[p - LOW_PAGE] == 1 && m.kernel[p] >= 1
    && forall s :: 1 <= s < NR_TASKS ==> m.task[s] != p
  }

  lemma AddTableKeeps(m: Mm, d: int, p: nat)
    requires Inv(m) && SLOT_DIRS <= d < NR_DIR && !m.dir[d].present && FreshPage(m, p) && m.phys[p] == ZeroFrame()
    ensures var n := AddTable(m, d, p); Inv(n) && Layout(n) == Layout(m) && Space(n) == Space(m)
  {
    var n := AddTable(m, d, p);
    HeldUnreferenced(m, p);
    AddTableCounts(m, d, p);
    assert forall q :: q != p ==> n.kernel[q] == m.kernel[q];
    hide Entry, Counted;
  }

  lemma AddTableCounts(m: Mm, d: int, p: nat)
    requires Inv(m) && SLOT_DIRS <= d < NR_DIR && !m.dir[d].present && FreshPage(m, p) && m.phys[p] == ZeroFrame()
    ensures var n := AddTable(m, d, p);
      && Shape(n)
      && (forall e, j :: IsSpot(e, j) ==> Entry(n, e, j) == Entry(m, e, j))
      && (forall q :: LOW_PAGE <= q < NR_PHYS ==> Counted(n, q))
  {
    var n := AddTable(m, d, p);
    HeldUnreferenced(m, p);
    assert forall e, j :: IsSpot(e, j) ==> Entry(n, e, j) == Entry(m, e, j);
    hide Entry;
    forall q | LOW_PAGE <= q < NR_PHYS ensures Counted(n, q) {
      assert Counted(m, q);
      SameRefs(m, n, q);
      assert DirRefs(n, q) == if q == p then {d} else DirRefs(m, q);
    }
  }

  // ----- steps that change one table entry

  function B(b: bool): int { if b then 1 else 0 }

  /** The state after entry (d, i) becomes w, with new counts and kernel holders. */
  function Rewrite(m: Mm, d: int, i: int, w: Word, mem: seq<int>, kernel: multiset<int>): Mm
    requires Shape(m) && IsSpot(d, i) && m.dir[d].present
  {
    Mm(mem, m.dir, SetEntry(m, d, i, w).phys, m.task, kernel)
  }

  /** The bookkeeping that a changed entry needs: every count moves with its references. */
  ghost predicate Balanced(m: Mm, d: int, i: int, w: Word, mem: seq<int>, kernel: multiset<int>)
    requires Shape(m) && IsSpot(d, i)
  {
    && |mem| == PAGING_PAGES
    && (forall q :: LOW_PAGE <= q < NR_PHYS ==>
         mem[q - LOW_PAGE] == m.mem[q - LOW_PAGE] + B(w.present && w.page == q) - B(Maps(m, d, i, q)) + kernel[q] - m.kernel[q])
    && (forall q :: kernel[q] <= USED)
    && (forall s :: 1 <= s < NR_TASKS && LOW_PAGE <= m.task[s] < NR_PHYS ==> kernel[m.task[s]] >= 1 && mem[m.task[s] - LOW_PAGE] == 1)
    && (forall e :: SLOT_DIRS <= e < NR_DIR && m.dir[e].present ==> mem[m.dir[e].page - LOW_PAGE] == 1)
  }

  predicate WritableAbove(m: Mm, d: int, i: int)
    requires Shape(m) && IsSpot(d, i)
  {
    Entry(m, d, i).present && Entry(m, d, i).writable && LOW_PAGE <= Entry(m, d, i).page < NR_PHYS
  }

  /** What may be put into an entry: it points to no table, is writable only when it is the
      sole reference, and sits at the offset where the page is mapped elsewhere. */
  ghost predicate Admissible(m: Mm, d: int, i: int, w: Word, mem: seq<int>)
    requires Shape(m) && IsSpot(d, i) && |mem| == PAGING_PAGES
  {
    && (w.present ==> w.page < NR_PHYS)
    && (w.present && w.writable ==> LOW_PAGE <= w.page && mem[w.page - LOW_PAGE] == 1)
    && (forall e :: w.present && SLOT_DIRS <= e < NR_DIR && m.dir[e].present ==> m.dir[e].page != w.page)
    && (forall e, j :: w.present && LOW_PAGE <= w.page && IsSpot(e, j) && (e, j) != (d, i) && Maps(m, e, j, w.page)
         ==> j == i && e % SLOT_DIRS == d % SLOT_DIRS)
    && (forall e, j :: IsSpot(e, j) && (e, j) != (d, i) && WritableAbove(m, e, j) ==> mem[Entry(m, e, j).page - LOW_PAGE] == 1)
  }

  lemma RewriteKeeps(m: Mm, d: int, i: int, w: Word, mem: seq<int>, kernel: multiset<int>)
    requires Inv(m) && IsSpot(d, i) && m.dir[d].present
    requires Balanced(m, d, i, w, mem, kernel) && Admissible(m, d, i, w, mem)
    ensures var n := Rewrite(m, d, i, w, mem, kernel);
      && Inv(n) && n.dir == m.dir && n.mem == mem && n.kernel == kernel && n.task == m.task
      && (w.present ==> n.phys[w.page] == m.phys[w.page])
      && (forall e, j :: IsSpot(e, j) ==> Entry(n, e, j) == if (e, j) == (d, i) then w else Entry(m, e, j))
      && Layout(n) == (if w.present then Layout(m)[(d, i) := Mapping(w.page, w.dirty)] else Layout(m) - {(d, i)})
      && Space(n) == (if w.present then Space(m)[(d, i) := m.phys[w.page]] else Space(m) - {(d, i)})
  {
    var n := Rewrite(m, d, i, w, mem, kernel);
    RewriteEntries(m, d, i, w, mem, kernel);
    RewriteCounts(m, d, i, w, mem, kernel);
    assert Inv(n) by { hide Entry, Counted, SameOffset, EntriesSound, Admissible; }
    assert w.present ==> m.phys[w.page] == n.phys[w.page];
    hide Entry, Space, Layout, Inv, Counted, SameOffset, EntriesSound, Balanced;
    LayoutAfterSet(m, n, d, i, w);
    SpaceAfterSet(m, n, d, i, w);
  }

  lemma RewriteEntries(m: Mm, d: int, i: int, w: Word, mem: seq<int>, kernel: multiset<int>)
    requires Inv(m) && IsSpot(d, i) && m.dir[d].present && |mem| == PAGING_PAGES && Admissible(m, d, i, w, mem)
    ensures var n := Rewrite(m, d, i, w, mem, kernel);
      && Shape(n)
      && (forall e, j :: IsSpot(e, j) ==> Entry(n, e, j) == if (e, j) == (d, i) then w else Entry(m, e, j))
      && EntriesSound(n) && SameOffset(n)
      && (forall e, j :: IsSpot(e, j) && Entry(m, e, j).present && Entry(m, e, j).page < NR_PHYS
               ==> n.phys[Entry(m, e, j).page] == m.phys[Entry(m, e, j).page])
  {
    var n := Rewrite(m, d, i, w, mem, kernel);
    TableExclusive(m, d);
    EntryAfterSet(m, d, i, w);
    assert forall e, j :: IsSpot(e, j) ==> Entry(n, e, j) == if (e, j) == (d, i) then w else Entry(m, e, j);
    hide Entry;
    EntriesSoundAfterSet(m, n, d, i, w);
    SameOffsetAfterSet(m, n, d, i, w);
  }

  lemma RewriteCounts(m: Mm, d: int, i: int, w: Word, mem: seq<int>, kernel: multiset<int>)
    requires Inv(m) && IsSpot(d, i) && m.dir[d].present && Balanced(m, d, i, w, mem, kernel)
    ensures var n := Rewrite(m, d, i, w, mem, kernel); Shape(n) && forall q :: LOW_PAGE <= q < NR_PHYS ==> Counted(n, q)
  {
    var n := Rewrite(m, d, i, w, mem, kernel);
    forall q | LOW_PAGE <= q < NR_PHYS ensures Counted(n, q) {
      assert Counted(m, q);
      RefsAfterSet(m, d, i, w, q);
      SameRefs(n, SetEntry(m, d, i, w), q);
    }
  }

  /** A page the kernel holds is mapped at an empty spot (put_page, its last store). */
  function MapPage(m: Mm, d: int, i: int, p: nat): Mm
    requires Shape(m) && IsSpot(d, i) && m.dir[d].present
  {
    Rewrite(m, d, i, Rwx(p), m.mem, m.kernel - multiset{p})
  }

  lemma MapPageKeeps(m: Mm, d: int, i: int, p: nat)
    requires Inv(m) && IsSpot(d, i) && m.dir[d].present && !Entry(m, d, i).present && FreshPage(m, p)
    ensures var n := MapPage(m, d, i, p);
            Inv(n) && Layout(n) == Layout(m)[(d, i) := Mapping(p, false)] && Space(n) == Space(m)[(d, i) := m.phys[p]]
  {
    HeldUnreferenced(m, p);
    RewriteKeeps(m, d, i, Rwx(p), m.mem, m.kernel - multiset{p});
  }

  /** mem_map after a present entry stops referring to its page. */
  function Released(m: Mm, p: int): seq<int>
    requires Shape(m) && p < NR_PHYS && (LOW_PAGE <= p ==> m.mem[p - LOW_PAGE] > 0)
  {
    if LOW_PAGE <= p then m.mem[p - LOW_PAGE := m.mem[p - LOW_PAGE] - 1] else m.mem
  }

  lemma MappedIsCounted(m: Mm, d: int, i: int)
    requires Inv(m) && IsSpot(d, i) && Entry(m, d, i).present
    ensures var p := Entry(m, d, i).page; p < NR_PHYS && (LOW_PAGE <= p ==> m.mem[p - LOW_PAGE] > 0)
  {
    HasRef(m, d, i);
    assert LOW_PAGE <= Entry(m, d, i).page ==> Counted(m, Entry(m, d, i).page);
  }

  /** free_page_tables on one entry. */
  function Clear(m: Mm, d: int, i: int): Mm
    requires Shape(m) && IsSpot(d, i) && m.dir[d].present
    requires var p := Entry(m, d, i).page; Entry(m, d, i).present ==> p < NR_PHYS && (LOW_PAGE <= p ==> m.mem[p - LOW_PAGE] > 0)
  {
    Rewrite(m, d, i, ZERO, if Entry(m, d, i).present then Released(m, Entry(m, d, i).page) else m.mem, m.kernel)
  }

  lemma ReleaseAdmissible(m: Mm, d: int, i: int)
    requires Inv(m) && IsSpot(d, i) && m.dir[d].present && Entry(m, d, i).present
    ensures var p := Entry(m, d, i).page;
      && p < NR_PHYS && (LOW_PAGE <= p ==> m.mem[p - LOW_PAGE] > 0)
      && Balanced(m, d, i, ZERO, Released(m, p), m.kernel) && Admissible(m, d, i, ZERO, Released(m, p))
  {
    MappedIsCounted(m, d, i);
    TaskPageUnmapped(m);
    var p := Entry(m, d, i).page;
    assert Maps(m, d, i, p);
    forall e | SLOT_DIRS <= e < NR_DIR && m.dir[e].present ensures m.dir[e].page != p { TableExclusive(m, e); }
    forall e, j | IsSpot(e, j) && (e, j) != (d, i) && Entry(m, e, j).present && Entry(m, e, j).writable
      ensures Entry(m, e, j).page != p
    {
      if Entry(m, e, j).page == p { SoleMapping(m, e, j); }
    }
  }

  lemma ClearKeeps(m: Mm, d: int, i: int)
    requires Inv(m) && IsSpot(d, i) && m.dir[d].present
    ensures var p := Entry(m, d, i).page; Entry(m, d, i).present ==> p < NR_PHYS && (LOW_PAGE <= p ==> m.mem[p - LOW_PAGE] > 0)
    ensures Inv(Clear(m, d, i)) && Layout(Clear(m, d, i)) == Layout(m) - {(d, i)} && Space(Clear(m, d, i)) == Space(m) - {(d, i)}
  {
    if Entry(m, d, i).present {
      ReleaseAdmissible(m, d, i);
      RewriteKeeps(m, d, i, ZERO, Released(m, Entry(m, d, i).page), m.kernel);
    } else {
      RewriteKeeps(m, d, i, ZERO, m.mem, m.kernel);
    }
  }

  /** free_page_tables on an emptied table. */
  function DropTable(m: Mm, d: int): Mm
    requires Shape(m) && SLOT_DIRS <= d < NR_DIR && m.dir[d].present && m.mem[m.dir[d].page - LOW_PAGE] > 0
  {
    Mm(Released(m, m.dir[d].page), m.dir[d := ZERO], m.phys, m.task, m.kernel)
  }

  lemma DropTableKeeps(m: Mm, d: int)
    requires Inv(m) && SLOT_DIRS <= d < NR_DIR && m.dir[d].present
    requires forall i :: 0 <= i < NR_ENTRY ==> !Entry(m, d, i).present
    ensures m.mem[m.dir[d].page - LOW_PAGE] > 0
    ensures var n := DropTable(m, d); Inv(n) && Layout(n) == Layout(m) && Space(n) == Space(m)
  {
    hide Entry, Refs, DirRefs;
    TaskPageUnmapped(m);
    DropTableEntries(m, d);
    DropTableCounts(m, d);
  }

  lemma DropTableEntries(m: Mm, d: int)
    requires Inv(m) && SLOT_DIRS <= d < NR_DIR && m.dir[d].present && m.mem[m.dir[d].page - LOW_PAGE] > 0
    requires forall i :: 0 <= i < NR_ENTRY ==> !Entry(m, d, i).present
    ensures var n := DropTable(m, d);
      && Shape(n)
      && (forall e, j :: IsSpot(e, j) ==> Entry(n, e, j).present == Entry(m, e, j).present && (e != d ==> Entry(n, e, j) == Entry(m, e, j)))
      && (forall e, j :: IsSpot(e, j) && Entry(m, e, j).present ==> e != d && Entry(m, e, j).page != m.dir[d].page)
  {
    TableExclusive(m, d);
    forall e, j | IsSpot(e, j) && Entry(m, e, j).present ensures Entry(m, e, j).page != m.dir[d].page {
      assert !Maps(m, e, j, m.dir[d].page);
    }
  }

  lemma DropTableCounts(m: Mm, d: int)
    requires Inv(m) && SLOT_DIRS <= d < NR_DIR && m.dir[d].present && m.mem[m.dir[d].page - LOW_PAGE] > 0
    requires forall i :: 0 <= i < NR_ENTRY ==> !Entry(m, d, i).present
    ensures var n := DropTable(m, d); Shape(n) && forall q :: LOW_PAGE <= q < NR_PHYS ==> Counted(n, q)
  {
    var n := DropTable(m, d);
    DropTableEntries(m, d);
    hide Entry;
    forall q | LOW_PAGE <= q < NR_PHYS ensures Counted(n, q) {
      assert Counted(m, q);
      assert Refs(n, q) == Refs(m, q);
      DropTableDirRefs(m, d, q);
    }
  }

  lemma DropTableDirRefs(m: Mm, d: int, q: int)
    requires Shape(m) && SLOT_DIRS <= d < NR_DIR && m.dir[d].present && m.mem[m.dir[d].page - LOW_PAGE] > 0
    requires Shape(DropTable(m, d))
    ensures var n := DropTable(m, d); |DirRefs(n, q)| == |DirRefs(m, q)| - B(q == m.dir[d].page)
  {
    var n := DropTable(m, d);
    CardWithout(DirRefs(m, q), d);
    assert DirRefs(n, q) == DirRefs(m, q) - {d};
  }

  // ----- sharing and splitting pages

  function Acquired(m: Mm, p: int): seq<int>
    requires Shape(m) && p < NR_PHYS
  {
    if LOW_PAGE <= p then m.mem[p - LOW_PAGE := m.mem[p - LOW_PAGE] + 1] else m.mem
  }

  /** copy_page_tables and try_to_share on one entry: both spots end up with the same
      write-protected entry and the page gains one reference. */
  function Share(m: Mm, fd: int, td: int, i: int): Mm
    requires Shape(m) && IsSpot(fd, i) && IsSpot(td, i) && m.dir[fd].present && m.dir[td].present && Entry(m, fd, i).page < NR_PHYS
  {
    var w := Entry(m, fd, i).(writable := false);
    var n := Rewrite(m, fd, i, w, m.mem, m.kernel);
    Rewrite(n, td, i, w, Acquired(m, w.page), m.kernel)
  }

  lemma ShareKeeps(m: Mm, fd: int, td: int, i: int)
    requires Inv(m) && IsSpot(fd, i) && IsSpot(td, i) && fd != td && m.dir[fd].present && m.dir[td].present
    requires Entry(m, fd, i).present && !Entry(m, td, i).present && fd % SLOT_DIRS == td % SLOT_DIRS
    ensures Entry(m, fd, i).page < NR_PHYS
    ensures var n := Share(m, fd, td, i);
      && Inv(n) && Layout(n) == Layout(m)[(td, i) := Layout(m)[(fd, i)]] && Space(n) == Space(m)[(td, i) := Space(m)[(fd, i)]]
  {
    hide Inv, Rewrite, Layout, Space, Entry, Acquired, Share;
    var w := Entry(m, fd, i).(writable := false);
    RewriteFlags(m, fd, i, w);
    ReadAt(m, fd, i);
    UpdateSame(Layout(m), (fd, i), Mapping(w.page, w.dirty));
    var n := Rewrite(m, fd, i, w, m.mem, m.kernel);
    ShareSecond(n, fd, td, i);
    ShareIsRewrite(m, n, fd, td, i);
    var r := Share(m, fd, td, i);
    CopyVia(Layout(m), Layout(n), Layout(r), (fd, i), (td, i));
    CopyVia(Space(m), Space(n), Space(r), (fd, i), (td, i));
  }

  lemma ShareIsRewrite(m: Mm, n: Mm, fd: int, td: int, i: int)
    requires Shape(m) && Shape(n) && IsSpot(fd, i) && IsSpot(td, i) && m.dir[fd].present && m.dir[td].present && n.dir == m.dir
    requires Entry(m, fd, i).page < NR_PHYS
    requires n == Rewrite(m, fd, i, Entry(m, fd, i).(writable := false), m.mem, m.kernel)
    ensures var w := Entry(m, fd, i).(writable := false);
            Share(m, fd, td, i) == Rewrite(n, td, i, w, Acquired(n, w.page), n.kernel)
  {
  }

  lemma ShareSecond(m: Mm, fd: int, td: int, i: int)
    requires Inv(m) && IsSpot(fd, i) && IsSpot(td, i) && m.dir[fd].present && m.dir[td].present && fd % SLOT_DIRS == td % SLOT_DIRS
    requires Entry(m, fd, i).present && !Entry(m, fd, i).writable && !Entry(m, td, i).present
    ensures Entry(m, fd, i).page < NR_PHYS
    ensures var w := Entry(m, fd, i); var n := Rewrite(m, td, i, w, Acquired(m, w.page), m.kernel);
      && Inv(n) && Layout(n) == Layout(m)[(td, i) := Layout(m)[(fd, i)]] && Space(n) == Space(m)[(td, i) := Space(m)[(fd, i)]]
  {
    var w := Entry(m, fd, i);
    ShareAdmissible(m, fd, td, i);
    ReadAt(m, fd, i);
    hide Entry, Inv, Layout, Space, Balanced, Admissible, Acquired;
    RewriteKeeps(m, td, i, w, Acquired(m, w.page), m.kernel);
  }

  /** Changing only the flags of an entry changes no view. */
  lemma RewriteFlags(m: Mm, d: int, i: int, w: Word)
    requires Inv(m) && IsSpot(d, i) && m.dir[d].present && Entry(m, d, i).present
    requires w.present && w.page == Entry(m, d, i).page
    requires w.writable ==> LOW_PAGE <= w.page < NR_PHYS && m.mem[w.page - LOW_PAGE] == 1
    ensures w.page < NR_PHYS
    ensures var n := Rewrite(m, d, i, w, m.mem, m.kernel);
      && Inv(n) && n.dir == m.dir && n.mem == m.mem && n.kernel == m.kernel && n.task == m.task
      && Layout(n) == Layout(m)[(d, i) := Mapping(w.page, w.dirty)] && Space(n) == Space(m) && n.phys[w.page] == m.phys[w.page]
      && (forall e, j :: IsSpot(e, j) ==> Entry(n, e, j) == if (e, j) == (d, i) then w else Entry(m, e, j))
  {
    FlagsAdmissible(m, d, i, w);
    ReadAt(m, d, i);
    UpdateSame(Space(m), (d, i), m.phys[w.page]);
    hide Entry, Inv, Balanced, Admissible, Layout, Space, Rewrite;
    RewriteKeeps(m, d, i, w, m.mem, m.kernel);
  }

  lemma FlagsAdmissible(m: Mm, d: int, i: int, w: Word)
    requires Inv(m) && IsSpot(d, i) && m.dir[d].present && Entry(m, d, i).present
    requires w.present && w.page == Entry(m, d, i).page
    requires w.writable ==> LOW_PAGE <= w.page < NR_PHYS && m.mem[w.page - LOW_PAGE] == 1
    ensures Balanced(m, d, i, w, m.mem, m.kernel) && Admissible(m, d, i, w, m.mem)
  {
    NotATable(m, d, i);
  }

  lemma ReadAt(m: Mm, d: int, i: int)
    requires Inv(m) && IsSpot(d, i) && Entry(m, d, i).present
    ensures Entry(m, d, i).page < NR_PHYS
    ensures (d, i) in Layout(m) && Layout(m)[(d, i)] == Mapping(Entry(m, d, i).page, Entry(m, d, i).dirty)
    ensures (d, i) in Space(m) && Space(m)[(d, i)] == m.phys[Entry(m, d, i).page]
  {
  }

  lemma NotATable(m: Mm, d: int, i: int)
    requires Inv(m) && IsSpot(d, i) && Entry(m, d, i).present
    ensures forall e :: SLOT_DIRS <= e < NR_DIR && m.dir[e].present ==> m.dir[e].page != Entry(m, d, i).page
  {
    forall e | SLOT_DIRS <= e < NR_DIR && m.dir[e].present ensures m.dir[e].page != Entry(m, d, i).page {
      TableExclusive(m, e);
      assert !Maps(m, d, i, m.dir[e].page);
    }
  }

  lemma ShareAdmissible(m: Mm, fd: int, td: int, i: int)
    requires Inv(m) && IsSpot(fd, i) && IsSpot(td, i) && m.dir[fd].present && m.dir[td].present && fd % SLOT_DIRS == td % SLOT_DIRS
    requires Entry(m, fd, i).present && !Entry(m, fd, i).writable && !Entry(m, td, i).present
    ensures var w := Entry(m, fd, i);
            && Balanced(m, td, i, w, Acquired(m, w.page), m.kernel) && Admissible(m, td, i, w, Acquired(m, w.page))
  {
    var w := Entry(m, fd, i);
    NotATable(m, fd, i);
    TaskPageUnmapped(m);
    assert Maps(m, fd, i, w.page);
    forall e, j | IsSpot(e, j) && WritableAbove(m, e, j) ensures Entry(m, e, j).page != w.page {
      if Entry(m, e, j).page == w.page { SoleMapping(m, e, j); }
    }
  }

  /** un_wp_page on a page referred to once: it only becomes writable. */
  function Unprotect(m: Mm, d: int, i: int): Mm
    requires Shape(m) && IsSpot(d, i) && m.dir[d].present
  {
    Rewrite(m, d, i, Entry(m, d, i).(writable := true), m.mem, m.kernel)
  }

  lemma UnprotectKeeps(m: Mm, d: int, i: int)
    requires Inv(m) && IsSpot(d, i) && m.dir[d].present && Entry(m, d, i).present
    requires LOW_PAGE <= Entry(m, d, i).page && m.mem[Entry(m, d, i).page - LOW_PAGE] == 1
    ensures var n := Unprotect(m, d, i); Inv(n) && Layout(n) == Layout(m) && Space(n) == Space(m)
  {
    RewriteFlags(m, d, i, Entry(m, d, i).(writable := true));
    ReadAt(m, d, i);
    UpdateSame(Layout(m), (d, i), Mapping(Entry(m, d, i).page, Entry(m, d, i).dirty));
  }

  /** The CPU's dirty bit. */
  function Touch(m: Mm, d: int, i: int): Mm
    requires Shape(m) && IsSpot(d, i) && m.dir[d].present
  {
    Rewrite(m, d, i, Entry(m, d, i).(dirty := true), m.mem, m.kernel)
  }

  lemma TouchKeeps(m: Mm, d: int, i: int)
    requires Inv(m) && IsSpot(d, i) && m.dir[d].present && Entry(m, d, i).present
    ensures var n := Touch(m, d, i);
      Inv(n) && Layout(n) == Layout(m)[(d, i) := Mapping(Entry(m, d, i).page, true)] && Space(n) == Space(m)
  {
    RewriteFlags(m, d, i, Entry(m, d, i).(dirty := true));
  }

  function WithFrame(m: Mm, p: int, f: Frame): Mm
    requires Shape(m) && 0 <= p < NR_PHYS
  {
    Mm(m.mem, m.dir, m.phys[p := f], m.task, m.kernel)
  }

  /** Writing to a page that is mapped once changes one task's view at one spot. */
  lemma WriteFrameKeeps(m: Mm, d: int, i: int, f: Frame)
    requires |f| == NR_ENTRY
    requires Inv(m) && IsSpot(d, i) && Entry(m, d, i).present
    requires LOW_PAGE <= Entry(m, d, i).page && m.mem[Entry(m, d, i).page - LOW_PAGE] == 1
    ensures Entry(m, d, i).page < NR_PHYS
    ensures var n := WithFrame(m, Entry(m, d, i).page, f); Inv(n) && Layout(n) == Layout(m) && Space(n) == Space(m)[(d, i) := f]
  {
    var p := Entry(m, d, i).page;
    SoleMapping(m, d, i);
    FrameKeeps(m, p, f);
    var n := WithFrame(m, p, f);
    EntryAfterData(m, p, f);
    hide Entry, Inv;
    assert forall e, j :: IsSpot(e, j) ==> Entry(n, e, j) == Entry(m, e, j);
    SpaceAfterSet(m, n, d, i, Entry(m, d, i));
  }

  /** Filling a page that only the kernel holds changes no view. */
  lemma FillFrameKeeps(m: Mm, p: int, f: Frame)
    requires |f| == NR_ENTRY
    requires Inv(m) && FreshPage(m, p)
    ensures var n := WithFrame(m, p, f); Inv(n) && Layout(n) == Layout(m) && Space(n) == Space(m)
  {
    HeldUnreferenced(m, p);
    FrameKeeps(m, p, f);
    var n := WithFrame(m, p, f);
    EntryAfterData(m, p, f);
    hide Entry, Inv;
    assert forall e, j :: IsSpot(e, j) ==> Entry(n, e, j) == Entry(m, e, j);
  }

  lemma FrameKeeps(m: Mm, p: int, f: Frame)
    requires |f| == NR_ENTRY
    requires Inv(m) && LOW_PAGE <= p < NR_PHYS
    requires forall e :: SLOT_DIRS <= e < NR_DIR && m.dir[e].present ==> m.dir[e].page != p
    ensures var n := WithFrame(m, p, f); Inv(n) && Layout(n) == Layout(m)
  {
    var n := WithFrame(m, p, f);
    EntryAfterData(m, p, f);
    assert forall e, j :: IsSpot(e, j) ==> Entry(n, e, j) == Entry(m, e, j);
    hide Entry;
    forall q | LOW_PAGE <= q < NR_PHYS ensures Counted(n, q) {
      assert Counted(m, q);
      SameRefs(m, n, q);
    }
  }

  /** un_wp_page on a shared page: the spot moves to the new page, the old one loses a reference. */
  function MoveTo(m: Mm, d: int, i: int, p: nat): Mm
    requires Shape(m) && IsSpot(d, i) && m.dir[d].present && Entry(m, d, i).page < NR_PHYS
    requires LOW_PAGE <= Entry(m, d, i).page ==> m.mem[Entry(m, d, i).page - LOW_PAGE] > 0
  {
    Rewrite(m, d, i, Rwx(p), Released(m, Entry(m, d, i).page), m.kernel - multiset{p})
  }

  /** un_wp_page on a shared page, all of it: move to the new page, then copy_page. */
  function Split(m: Mm, d: int, i: int, p: nat): Mm
    requires Shape(m) && IsSpot(d, i) && m.dir[d].present && Entry(m, d, i).page < NR_PHYS && p < NR_PHYS
    requires LOW_PAGE <= Entry(m, d, i).page ==> m.mem[Entry(m, d, i).page - LOW_PAGE] > 0
  {
    Mm(Released(m, Entry(m, d, i).page), m.dir, SetEntry(m, d, i, Rwx(p)).phys[p := m.phys[Entry(m, d, i).page]],
       m.task, m.kernel - multiset{p})
  }

  lemma SplitKeeps(m: Mm, d: int, i: int, p: nat)
    requires Inv(m) && IsSpot(d, i) && m.dir[d].present && Entry(m, d, i).present && FreshPage(m, p)
    ensures Entry(m, d, i).page < NR_PHYS && (LOW_PAGE <= Entry(m, d, i).page ==> m.mem[Entry(m, d, i).page - LOW_PAGE] > 0)
    ensures Inv(Split(m, d, i, p))
    ensures Layout(Split(m, d, i, p)) == Layout(m)[(d, i) := Mapping(p, false)]
    ensures Space(Split(m, d, i, p)) == Space(m)
  {
    hide Inv, Layout, Space, Entry, MoveTo, Split, WithFrame;
    MoveToFirst(m, d, i, p);
    SplitIsWrite(m, d, i, p);
    ReadAt(m, d, i);
    var f, n := m.phys[Entry(m, d, i).page], MoveTo(m, d, i, p);
    WriteFrameKeeps(n, d, i, f);
    UpdateBack(Space(m), Space(n), Space(Split(m, d, i, p)), (d, i), m.phys[p], f);
  }

  lemma SplitIsWrite(m: Mm, d: int, i: int, p: nat)
    requires Shape(m) && IsSpot(d, i) && m.dir[d].present && Entry(m, d, i).page < NR_PHYS && LOW_PAGE <= p < NR_PHYS
    requires LOW_PAGE <= Entry(m, d, i).page ==> m.mem[Entry(m, d, i).page - LOW_PAGE] > 0
    ensures Shape(MoveTo(m, d, i, p)) && Split(m, d, i, p) == WithFrame(MoveTo(m, d, i, p), p, m.phys[Entry(m, d, i).page])
    ensures |m.phys[Entry(m, d, i).page]| == NR_ENTRY && LOW_PAGE <= Rwx(p).page == p
  {
  }

  lemma MoveToFirst(m: Mm, d: int, i: int, p: nat)
    requires Inv(m) && IsSpot(d, i) && m.dir[d].present && Entry(m, d, i).present && FreshPage(m, p)
    ensures var o := Entry(m, d, i).page;
      && o < NR_PHYS && o != p && (LOW_PAGE <= o ==> m.mem[o - LOW_PAGE] > 0)
      && var n := MoveTo(m, d, i, p);
      && Inv(n) && n.dir == m.dir && Entry(n, d, i) == Rwx(p) && n.mem[p - LOW_PAGE] == 1
      && Layout(n) == Layout(m)[(d, i) := Mapping(p, false)] && Space(n) == Space(m)[(d, i) := m.phys[p]]
  {
    var o := Entry(m, d, i).page;
    HeldUnreferenced(m, p);
    assert o != p by { assert Maps(m, d, i, o); }
    ReleaseAdmissible(m, d, i);
    var mem, kernel := Released(m, o), m.kernel - multiset{p};
    assert mem[p - LOW_PAGE] == 1;
    assert Balanced(m, d, i, Rwx(p), mem, kernel);
    assert Admissible(m, d, i, Rwx(p), mem);
    EntryAfterSet(m, d, i, Rwx(p));
    hide Entry, Inv, Balanced, Admissible, Layout, Space, FreshPage;
    RewriteKeeps(m, d, i, Rwx(p), mem, kernel);
    EntryAfterSet(m, d, i, Rwx(p));
  }

  // ----- how many pages are free

  ghost function Free(mem: seq<int>): nat {
    if mem == [] then 0 else Free(mem[..|mem| - 1]) + if mem[|mem| - 1] == 0 then 1 else 0
  }

  lemma {:induction false} FreeTaken(mem: seq<int>, k: int, v: int)
    requires 0 <= k < |mem| && mem[k] == 0 && v != 0
    ensures Free(mem[k := v]) == Free(mem) - 1
  {
    var l := |mem| - 1;
    if k == l {
      assert mem[k := v][..l] == mem[..l];
    } else {
      FreeTaken(mem[..l], k, v);
      assert mem[k := v][..l] == mem[..l][k := v];
    }
  }

  lemma {:induction false} FreeSame(mem: seq<int>, now: seq<int>)
    requires |mem| == |now| && forall k :: 0 <= k < |mem| ==> (mem[k] == 0 <==> now[k] == 0)
    ensures Free(now) == Free(mem)
  {
    if mem != [] {
      FreeSame(mem[..|mem| - 1], now[..|mem| - 1]);
    }
  }

  lemma {:induction false} FreeNone(mem: seq<int>)
    requires forall k :: 0 <= k < |mem| ==> mem[k] != 0
    ensures Free(mem) == 0
  {
    if mem != [] {
      FreeNone(mem[..|mem| - 1]);
    }
  }

  /** How many page tables directory entries d0..d1 have. */
  ghost function Tables(dir: seq<Word>, d0: int, d1: int): nat
    requires 0 <= d0 && d1 <= |dir|
    decreases d1 - d0
  {
    if d1 <= d0 then 0 else Tables(dir, d0, d1 - 1) + if dir[d1 - 1].present then 1 else 0
  }

  lemma {:induction false} TablesAtMost(dir: seq<Word>, d0: int, d: int, d1: int)
    requires 0 <= d0 <= d <= d1 <= |dir|
    ensures Tables(dir, d0, d) <= Tables(dir, d0, d1) <= Tables(dir, d0, d) + d1 - d
    decreases d1
  {
    if d < d1 {
      TablesAtMost(dir, d0, d, d1 - 1);
    }
  }
}
