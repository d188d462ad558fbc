/**
 Directory entries and link counts: the create, mknod, link, unlink, mkdir and rmdir calls of
 fs/namei.c and the freeing of an inode by iput (fs/inode.c).  A directory is the list of its
 16-byte entries; entry 0 is "." and entry 1 is "..", an entry of inode 0 is empty.
 */
module Links {

  const ROOT: int := 1
  const NAME_LEN: int := 14

  datatype Entry = Entry(ino: int, name: string)

  /** A regular or device file has no entries. */
  datatype Inode = Free | File(nlinks: int) | Dir(nlinks: int, entries: seq<Entry>)

  type Inodes = seq<Inode>

  /** Entry k of directory d names inode n. */
  predicate Named(fs: Inodes, d: int, k: int, n: int) {
    0 <= d < |fs| && fs[d].Dir? && 0 <= k < |fs[d].entries| && fs[d].entries[k].ino == n
  }

  // ----- counting the entries that name an inode

  function One(e: Entry, n: int): int {
    if e.ino == n then 1 else 0
  }

  function CountIn(s: seq<Entry>, n: int): nat {
    if s == [] then 0 else CountIn(s[..|s| - 1], n) + One(s[|s| - 1], n)
  }

  function Of(i: Inode, n: int): nat {
    if i.Dir? then CountIn(i.entries, n) else 0
  }

  function Names(fs: Inodes, n: int): nat {
    if fs == [] then 0 else Names(fs[..|fs| - 1], n) + Of(fs[|fs| - 1], n)
  }

  lemma {:induction false} CountSet(s: seq<Entry>, k: int, e: Entry, n: int)
    requires 0 <= k < |s|
    ensures CountIn(s[k := e], n) == CountIn(s, n) + One(e, n) - One(s[k], n)
  {
    var last := |s| - 1;
    if k < last {
      assert s[k := e][..last] == s[..last][k := e];
      CountSet(s[..last], k, e, n);
    } else {
      assert s[k := e][..last] == s[..last];
    }
  }

  lemma CountAppend(s: seq<Entry>, e: Entry, n: int)
    ensures CountIn(s + [e], n) == CountIn(s, n) + One(e, n)
  {
    assert (s + [e])[..|s|] == s;
  }

  lemma {:induction false} NamesSet(fs: Inodes, d: int, i: Inode, n: int)
    requires 0 <= d < |fs|
    ensures Names(fs[d := i], n) == Names(fs, n) + Of(i, n) - Of(fs[d], n)
  {
    var last := |fs| - 1;
    if d < last {
      assert fs[d := i][..last] == fs[..last][d := i];
      NamesSet(fs[..last], d, i, n);
    } else {
      assert fs[d := i][..last] == fs[..last];
    }
  }

  lemma {:induction false} NoneIn(s: seq<Entry>, n: int)
    requires forall k :: 0 <= k < |s| ==> s[k].ino != n
    ensures CountIn(s, n) == 0
  {
    if s != [] { NoneIn(s[..|s| - 1], n); }
  }

  lemma {:induction false} NoneNamed(fs: Inodes, n: int)
    requires forall d, k :: !Named(fs, d, k, n)
    ensures Names(fs, n) == 0
  {
    if fs != [] {
      var last := |fs| - 1;
      if fs[last].Dir? {
        forall k | 0 <= k < |fs[last].entries| ensures fs[last].entries[k].ino != n { assert !Named(fs, last, k, n); }
        NoneIn(fs[last].entries, n);
      }
      forall d, k ensures !Named(fs[..last], d, k, n) { assert !Named(fs, d, k, n); }
      NoneNamed(fs[..last], n);
    }
  }

  lemma {:induction false} SomeIn(s: seq<Entry>, k: int, n: int)
    requires 0 <= k < |s| && s[k].ino == n
    ensures CountIn(s, n) > 0
  {
    if k < |s| - 1 { SomeIn(s[..|s| - 1], k, n); }
  }

  lemma {:induction false} SomeNamed(fs: Inodes, d: int, k: int, n: int)
    requires Named(fs, d, k, n)
    ensures Names(fs, n) > 0
  {
    if d < |fs| - 1 { SomeNamed(fs[..|fs| - 1], d, k, n); } else { SomeIn(fs[d].entries, k, n); }
  }

  // ----- what holds between calls

  predicate Used(fs: Inodes, n: int) {
    0 < n < |fs| && !fs[n].Free?
  }

  predicate IsDir(fs: Inodes, n: int) {
    0 < n < |fs| && fs[n].Dir?
  }

  /** "." and ".." come first and every entry names an inode in use. */
  predicate DirOk(fs: Inodes, d: int)
    requires IsDir(fs, d)
    ensures DirOk(fs, d) ==> |fs[d].entries| >= 2
  {
    var s := fs[d].entries;
    |s| >= 2 && s[0] == Entry(d, ".") && s[1].name == ".." && IsDir(fs, s[1].ino) && forall k :: 0 <= k < |s| ==> s[k].ino == 0 || Used(fs, s[k].ino)
  }

  ghost predicate DirsOk(fs: Inodes) {
    && |fs| > ROOT && fs[0].Free? && IsDir(fs, ROOT) && (forall d :: IsDir(fs, d) ==> DirOk(fs, d))
    && DirOk(fs, ROOT) && fs[ROOT].entries[1].ino == ROOT
  }

  function Parent(fs: Inodes, c: int): int
    requires IsDir(fs, c) && |fs[c].entries| >= 2
  {
    fs[c].entries[1].ino
  }

  /** Entry k of d is an ordinary name of the directory c. */
  predicate Child(fs: Inodes, d: int, k: int, c: int)
    ensures Child(fs, d, k, c) ==> IsDir(fs, c)
  {
    Named(fs, d, k, c) && k >= 2 && IsDir(fs, c)
  }

  ghost predicate HasChild(fs: Inodes, d: int, c: int) {
    exists k :: Child(fs, d, k, c)
  }

  /** Each directory but the root has one ordinary name, in its parent. */
  ghost predicate Tree(fs: Inodes)
    requires DirsOk(fs)
  {
    && (forall d, k, c :: Child(fs, d, k, c) ==> c != ROOT && Parent(fs, c) == d)
    && (forall d, k, l, c :: Child(fs, d, k, c) && Child(fs, d, l, c) ==> k == l)
    && (forall c :: IsDir(fs, c) && c != ROOT ==> HasChild(fs, Parent(fs, c), c))
  }

  /** Every link count is the number of entries that name the inode. */
  ghost predicate Counted(fs: Inodes) {
    forall n :: Used(fs, n) ==> fs[n].nlinks == Names(fs, n)
  }

  ghost predicate Inv(fs: Inodes)
    ensures Inv(fs) ==> |fs| > ROOT && IsDir(fs, ROOT)
  {
    DirsOk(fs) && Tree(fs) && Counted(fs)
  }

  // ----- changes of one entry

  /** Entry k, at most one behind the last, becomes e. */
  function PutIn(s: seq<Entry>, k: int, e: Entry): seq<Entry>
    requires 0 <= k <= |s|
  {
    if k == |s| then s + [e] else s[k := e]
  }

  function Put(fs: Inodes, d: int, k: int, e: Entry): Inodes
    requires IsDir(fs, d) && 0 <= k <= |fs[d].entries|
  {
    fs[d := fs[d].(entries := PutIn(fs[d].entries, k, e))]
  }

  function At(fs: Inodes, d: int, k: int): int
    requires IsDir(fs, d) && 0 <= k <= |fs[d].entries|
  {
    if k == |fs[d].entries| then 0 else fs[d].entries[k].ino
  }

  lemma PutNames(fs: Inodes, d: int, k: int, e: Entry, n: int)
    requires IsDir(fs, d) && 0 <= k <= |fs[d].entries| && n != 0
    ensures Names(Put(fs, d, k, e), n) == Names(fs, n) + One(e, n) - if At(fs, d, k) == n then 1 else 0
  {
    var s := fs[d].entries;
    NamesSet(fs, d, fs[d].(entries := PutIn(s, k, e)), n);
    if k == |s| { CountAppend(s, e, n); } else { CountSet(s, k, e, n); }
  }

  function WithLinks(fs: Inodes, n: int, links: int): Inodes
    requires Used(fs, n)
  {
    fs[n := fs[n].(nlinks := links)]
  }

  lemma LinksNames(fs: Inodes, n: int, links: int, m: int)
    requires Used(fs, n)
    ensures Names(WithLinks(fs, n, links), m) == Names(fs, m)
  {
    NamesSet(fs, n, fs[n].(nlinks := links), m);
  }

  /** The link count as the unsigned char it is stored in. */
  function AsByte(fs: Inodes, n: int): Inodes
    requires Used(fs, n)
  {
    WithLinks(fs, n, fs[n].nlinks % 256)
  }

  // ----- the calls

  predicate FreeEntry(fs: Inodes, d: int, k: int) {
    IsDir(fs, d) && 2 <= k <= |fs[d].entries| && At(fs, d, k) == 0
  }

  /** open_namei with O_CREAT and sys_mknod: a new file and its first name. */
  function Created(fs: Inodes, n: int, d: int, k: int, name: string): Inodes
    requires 0 < n < |fs| && fs[n].Free? && FreeEntry(fs, d, k)
  {
    Put(fs[n := File(1)], d, k, Entry(n, name))
  }

  /** sys_link: another name of a file. */
  function Linked(fs: Inodes, n: int, d: int, k: int, name: string): Inodes
    requires Used(fs, n) && fs[n].File? && FreeEntry(fs, d, k)
  {
    WithLinks(Put(fs, d, k, Entry(n, name)), n, fs[n].nlinks + 1)
  }

  /** sys_unlink of a file, without the freeing. */
  function Unlinked(fs: Inodes, d: int, k: int): Inodes
    requires IsDir(fs, d) && 0 <= k < |fs[d].entries| && Used(fs, fs[d].entries[k].ino) && fs[fs[d].entries[k].ino].File?
  {
    var n := fs[d].entries[k].ino;
    WithLinks(Put(fs, d, k, Entry(0, fs[d].entries[k].name)), n, fs[n].nlinks - 1)
  }

  /** sys_mkdir: a directory with "." and "..", its name, and one more link to the parent. */
  function MadeDir(fs: Inodes, n: int, d: int, k: int, name: string): Inodes
    requires 0 < n < |fs| && fs[n].Free? && FreeEntry(fs, d, k)
  {
    var made := fs[n := Dir(2, [Entry(n, "."), Entry(d, "..")])];
    WithLinks(Put(made, d, k, Entry(n, name)), d, fs[d].nlinks + 1)
  }

  /** sys_rmdir of an empty directory, which iput frees at once. */
  function RemovedDir(fs: Inodes, d: int, k: int): Inodes
    requires IsDir(fs, d) && 2 <= k < |fs[d].entries| && IsDir(fs, fs[d].entries[k].ino) && fs[d].entries[k].ino != d
  {
    var n := fs[d].entries[k].ino;
    WithLinks(Put(fs, d, k, Entry(0, fs[d].entries[k].name)), d, fs[d].nlinks - 1)[n := Free]
  }

  /** iput of an inode without links. */
  function Freed(fs: Inodes, n: int): Inodes
    requires 0 <= n < |fs|
  {
    fs[n := Free]
  }

  /** The directories of e are those of fs but for entry k of d, which does not name one, before
      or after. */
  ghost predicate FileEntryOnly(fs: Inodes, e: Inodes, d: int, k: int) {
    && |e| == |fs| && IsDir(fs, d) && 2 <= k <= |fs[d].entries| && e[0] == fs[0]
    && (forall m :: 0 <= m < |fs| ==> (e[m].Dir? <==> fs[m].Dir?) && (Used(fs, m) ==> Used(e, m)))
    && (forall m :: IsDir(fs, m) && m != d ==> e[m].entries == fs[m].entries)
    && |e[d].entries| > k && e[d].entries == PutIn(fs[d].entries, k, e[d].entries[k])
    && !IsDir(fs, e[d].entries[k].ino) && !IsDir(fs, At(fs, d, k))
    && (e[d].entries[k].ino == 0 || Used(e, e[d].entries[k].ino))
  }

  lemma EntryUsed(fs: Inodes, d: int, k: int, n: int)
    requires DirsOk(fs) && Named(fs, d, k, n)
    ensures n == 0 || Used(fs, n)
  {
    assert DirOk(fs, d);
  }

  /** The same directories with the same children and parents form a tree again. */
  lemma TreeSame(fs: Inodes, e: Inodes)
    requires DirsOk(fs) && Tree(fs) && DirsOk(e) && |e| == |fs|
    requires forall c :: IsDir(e, c) <==> IsDir(fs, c)
    requires forall c :: IsDir(fs, c) ==> DirOk(e, c) && DirOk(fs, c) && Parent(e, c) == Parent(fs, c)
    requires forall a, j, c :: Child(e, a, j, c) <==> Child(fs, a, j, c)
    ensures Tree(e)
  {
    hide Child;
    forall c | IsDir(e, c) && c != ROOT ensures HasChild(e, Parent(e, c), c) {
      var j :| Child(fs, Parent(fs, c), j, c);
      assert Child(e, Parent(e, c), j, c);
    }
  }

  lemma FileEntryDir(fs: Inodes, e: Inodes, d: int, k: int, m: int)
    requires DirsOk(fs) && FileEntryOnly(fs, e, d, k) && IsDir(e, m)
    ensures IsDir(fs, m) && DirOk(fs, m) && DirOk(e, m) && Parent(e, m) == Parent(fs, m)
  {
    hide PutIn, DirsOk;
    DirOf(fs, m);
    if m == d {
      PutFirst(fs[m].entries, k, e[m].entries[k]);
      EntriesStay(fs, e, fs[m].entries, e[m].entries, k);
    } else {
      EntriesStay(fs, e, fs[m].entries, e[m].entries, -1);
    }
  }

  predicate OneChange(s: seq<Entry>, t: seq<Entry>, k: int) {
    forall j :: 0 <= j < |t| && j != k ==> j < |s| && t[j] == s[j]
  }

  lemma PutFirst(s: seq<Entry>, k: int, e: Entry)
    requires 2 <= k <= |s|
    ensures var t := PutIn(s, k, e); |t| >= |s| && k < |t| && t[0] == s[0] && t[1] == s[1] && t[k] == e
    ensures OneChange(s, PutIn(s, k, e), k)
  {
  }

  lemma EntriesStay(fs: Inodes, e: Inodes, s: seq<Entry>, t: seq<Entry>, k: int)
    requires |e| == |fs| && forall m :: 0 <= m < |fs| ==> (Used(fs, m) ==> Used(e, m))
    requires forall j :: 0 <= j < |s| ==> s[j].ino == 0 || Used(fs, s[j].ino)
    requires OneChange(s, t, k)
    requires 0 <= k < |t| ==> t[k].ino == 0 || Used(e, t[k].ino)
    ensures forall j :: 0 <= j < |t| ==> t[j].ino == 0 || Used(e, t[j].ino)
  {
  }

  lemma FileEntryDirs(fs: Inodes, e: Inodes, d: int, k: int)
    requires DirsOk(fs) && FileEntryOnly(fs, e, d, k)
    ensures DirsOk(e)
  {
    hide DirOk, FileEntryOnly;
    FileEntryShape(fs, e, d, k);
    forall m | IsDir(e, m) ensures DirOk(e, m) { FileEntryDir(fs, e, d, k, m); }
    FileEntryDir(fs, e, d, k, ROOT);
  }

  lemma FileEntryShape(fs: Inodes, e: Inodes, d: int, k: int)
    requires DirsOk(fs) && FileEntryOnly(fs, e, d, k)
    ensures |e| == |fs| && e[0] == fs[0] && (forall m :: IsDir(e, m) <==> IsDir(fs, m))
  {
  }

  lemma FileEntryKeeps(fs: Inodes, e: Inodes, d: int, k: int)
    requires DirsOk(fs) && Tree(fs) && FileEntryOnly(fs, e, d, k)
    ensures DirsOk(e) && Tree(e)
  {
    hide Tree, DirOk, FileEntryOnly;
    FileEntryShape(fs, e, d, k);
    FileEntryDirs(fs, e, d, k);
    forall c | IsDir(fs, c) ensures DirOk(e, c) && DirOk(fs, c) && |fs[c].entries| >= 2 && |e[c].entries| >= 2 && Parent(e, c) == Parent(fs, c) {
      FileEntryDir(fs, e, d, k, c);
      Two(fs, c);
      Two(e, c);
    }
    forall a, j, c ensures Child(e, a, j, c) <==> Child(fs, a, j, c) { FileEntryChild(fs, e, d, k, a, j, c); }
    TreeSame(fs, e);
  }

  lemma Two(fs: Inodes, c: int)
    requires IsDir(fs, c) && DirOk(fs, c)
    ensures |fs[c].entries| >= 2
  {
  }

  lemma FileEntryChild(fs: Inodes, e: Inodes, d: int, k: int, a: int, j: int, c: int)
    requires fs != [] && fs[0].Free? && FileEntryOnly(fs, e, d, k)
    ensures Child(e, a, j, c) <==> Child(fs, a, j, c)
  {
    if 0 <= a < |fs| && a != d { assert IsDir(fs, a) ==> e[a].entries == fs[a].entries; }
  }

  lemma CreateKeeps(fs: Inodes, n: int, d: int, k: int, name: string)
    requires Inv(fs) && 0 < n < |fs| && fs[n].Free? && FreeEntry(fs, d, k)
    ensures Inv(Created(fs, n, d, k, name))
  {
    hide DirsOk, Tree, DirOk, CountIn, Names;
    var mid, e := fs[n := File(1)], Created(fs, n, d, k, name);
    EmptyZero(fs);
    FileEntryKeeps(fs, e, d, k);
    FreeIsUnnamed(fs, n);
    forall m | Used(e, m) ensures e[m].nlinks == Names(e, m) {
      PutNames(mid, d, k, Entry(n, name), m);
      NamesSet(fs, n, File(1), m);
    }
  }

  lemma EmptyZero(fs: Inodes)
    requires DirsOk(fs)
    ensures |fs| > ROOT && fs[0].Free?
  {
  }

  lemma FreeIsUnnamed(fs: Inodes, n: int)
    requires DirsOk(fs) && 0 < n < |fs| && fs[n].Free?
    ensures Names(fs, n) == 0
  {
    forall d, k ensures !Named(fs, d, k, n) {
      if Named(fs, d, k, n) { EntryUsed(fs, d, k, n); }
    }
    NoneNamed(fs, n);
  }

  lemma LinkKeeps(fs: Inodes, n: int, d: int, k: int, name: string)
    requires Inv(fs) && Used(fs, n) && fs[n].File? && FreeEntry(fs, d, k)
    ensures Inv(Linked(fs, n, d, k, name))
  {
    hide DirsOk, Tree, DirOk, CountIn, Names;
    var mid, e := Put(fs, d, k, Entry(n, name)), Linked(fs, n, d, k, name);
    EmptyZero(fs);
    FileEntryKeeps(fs, e, d, k);
    forall m | Used(e, m) ensures e[m].nlinks == Names(e, m) {
      PutNames(fs, d, k, Entry(n, name), m);
      LinksNames(mid, n, fs[n].nlinks + 1, m);
    }
  }

  lemma UnlinkKeeps(fs: Inodes, d: int, k: int)
    requires Inv(fs) && IsDir(fs, d) && 2 <= k < |fs[d].entries| && Used(fs, fs[d].entries[k].ino) && fs[fs[d].entries[k].ino].File?
    ensures Inv(Unlinked(fs, d, k))
  {
    hide DirsOk, Tree, DirOk, CountIn, Names;
    var n, e := fs[d].entries[k].ino, Unlinked(fs, d, k);
    var mid := Put(fs, d, k, Entry(0, fs[d].entries[k].name));
    EmptyZero(fs);
    FileEntryKeeps(fs, e, d, k);
    forall m | Used(e, m) ensures e[m].nlinks == Names(e, m) {
      PutNames(fs, d, k, Entry(0, fs[d].entries[k].name), m);
      LinksNames(mid, n, fs[n].nlinks - 1, m);
    }
  }

  /** iput frees an inode with no links: it is a file, no entry names it, and the rest stays as
      it was. */
  lemma FreeKeeps(fs: Inodes, n: int)
    requires Inv(fs) && Used(fs, n) && fs[n].nlinks == 0
    ensures fs[n].File? && (forall d, k :: !Named(fs, d, k, n)) && Inv(Freed(fs, n))
  {
    hide Tree, CountIn, Names;
    forall d, k ensures !Named(fs, d, k, n) {
      if Named(fs, d, k, n) { SomeNamed(fs, d, k, n); }
    }
    assert fs[n].Dir? ==> DirOk(fs, n) && Named(fs, n, 0, n);
    var e := Freed(fs, n);
    FreedDirs(fs, n);
    forall c | IsDir(fs, c) ensures DirOk(e, c) && DirOk(fs, c) && Parent(e, c) == Parent(fs, c) {}
    forall a, j, c ensures Child(e, a, j, c) <==> Child(fs, a, j, c) {}
    TreeSame(fs, e);
    forall m | Used(e, m) ensures e[m].nlinks == Names(e, m) { NamesSet(fs, n, Free, m); }
  }

  lemma FreedDirs(fs: Inodes, n: int)
    requires DirsOk(fs) && Used(fs, n) && fs[n].File? && forall d, k :: !Named(fs, d, k, n)
    ensures DirsOk(Freed(fs, n))
  {
    var e := Freed(fs, n);
    forall m | IsDir(e, m) ensures DirOk(e, m) {
      assert DirOk(fs, m);
      forall k | 0 <= k < |e[m].entries| ensures e[m].entries[k].ino == 0 || Used(e, e[m].entries[k].ino) { assert !Named(fs, m, k, n); }
    }
    assert DirOk(e, ROOT);
  }

  // ----- directories come and go

  lemma TwoEntries(a: Entry, b: Entry, n: int)
    ensures CountIn([a, b], n) == One(a, n) + One(b, n)
  {
    assert [a, b][..1] == [a];
    assert [a][..0] == [];
    assert CountIn([a], n) == CountIn([], n) + One(a, n);
  }

  lemma {:induction false} EmptyCount(s: seq<Entry>, n: int)
    requires |s| >= 2 && n != 0 && forall j :: 2 <= j < |s| ==> s[j].ino == 0
    ensures CountIn(s, n) == One(s[0], n) + One(s[1], n)
  {
    if |s| == 2 {
      assert s == [s[0], s[1]];
      TwoEntries(s[0], s[1], n);
    } else {
      EmptyCount(s[..|s| - 1], n);
    }
  }

  lemma MadeShape(fs: Inodes, n: int, d: int, k: int, name: string)
    requires DirsOk(fs) && 0 < n < |fs| && fs[n].Free? && FreeEntry(fs, d, k)
    ensures var e := MadeDir(fs, n, d, k, name);
      |e| == |fs| && e[n] == Dir(2, [Entry(n, "."), Entry(d, "..")]) && n != d && n != ROOT && e[d].Dir?
      && e[d].entries == PutIn(fs[d].entries, k, Entry(n, name)) && forall m :: 0 <= m < |fs| && m != n && m != d ==> e[m] == fs[m]
  {
  }

  lemma DirOf(fs: Inodes, m: int)
    requires DirsOk(fs) && IsDir(fs, m)
    ensures DirOk(fs, m)
  {
  }

  lemma MadeDirOk(fs: Inodes, n: int, d: int, k: int, name: string, m: int)
    requires DirsOk(fs) && 0 < n < |fs| && fs[n].Free? && FreeEntry(fs, d, k) && IsDir(MadeDir(fs, n, d, k, name), m)
    ensures DirOk(MadeDir(fs, n, d, k, name), m)
    ensures m != n ==> IsDir(fs, m) && DirOk(fs, m) && Parent(MadeDir(fs, n, d, k, name), m) == Parent(fs, m)
  {
    hide PutIn, MadeDir, DirsOk;
    MadeShape(fs, n, d, k, name);
    var e := MadeDir(fs, n, d, k, name);
    assert forall x :: 0 <= x < |fs| ==> (Used(fs, x) ==> Used(e, x));
    if m != n { DirOf(fs, m); }
    if m == d {
      var s, t := fs[d].entries, e[d].entries;
      PutFirst(s, k, Entry(n, name));
      assert t[k] == Entry(n, name) && Used(e, n);
      EntriesStay(fs, e, s, t, k);
    } else if m != n {
      EntriesStay(fs, e, fs[m].entries, e[m].entries, -1);
    }
  }

  lemma MadeDirs(fs: Inodes, n: int, d: int, k: int, name: string)
    requires DirsOk(fs) && 0 < n < |fs| && fs[n].Free? && FreeEntry(fs, d, k)
    ensures DirsOk(MadeDir(fs, n, d, k, name))
    ensures forall m :: IsDir(fs, m) ==> DirOk(fs, m) && DirOk(MadeDir(fs, n, d, k, name), m) && Parent(MadeDir(fs, n, d, k, name), m) == Parent(fs, m)
  {
    hide PutIn, MadeDir, DirOk;
    MadeShape(fs, n, d, k, name);
    var e := MadeDir(fs, n, d, k, name);
    forall m | IsDir(e, m) ensures DirOk(e, m) && (m != n ==> DirOk(fs, m) && Parent(e, m) == Parent(fs, m)) {
      MadeDirOk(fs, n, d, k, name, m);
    }
    assert IsDir(fs, ROOT) && IsDir(e, ROOT);
  }

  lemma MadeChild(fs: Inodes, n: int, d: int, k: int, name: string, a: int, j: int, c: int)
    requires DirsOk(fs) && 0 < n < |fs| && fs[n].Free? && FreeEntry(fs, d, k)
    ensures Child(MadeDir(fs, n, d, k, name), a, j, c) <==> (Child(fs, a, j, c) || (a == d && j == k && c == n))
  {
    hide PutIn, MadeDir;
    MadeShape(fs, n, d, k, name);
    PutFirst(fs[d].entries, k, Entry(n, name));
    var e := MadeDir(fs, n, d, k, name);
    if c > 0 && a != n && !(a == d && j == k) {
      assert Named(e, a, j, c) <==> Named(fs, a, j, c) by {
        if a == d { assert j < |fs[d].entries| && 0 <= j ==> e[d].entries[j] == fs[d].entries[j]; }
      }
      if Named(fs, a, j, c) {
        EntryUsed(fs, a, j, c);
        assert IsDir(e, c) <==> IsDir(fs, c);
      }
    } else if a == d && j == k {
      assert Named(e, a, j, c) <==> c == n;
      assert c > 0 ==> !Named(fs, a, j, c);
    } else if a == n {
      assert !Child(e, a, j, c);
    }
  }

  lemma MkdirKeeps(fs: Inodes, n: int, d: int, k: int, name: string)
    requires Inv(fs) && 0 < n < |fs| && fs[n].Free? && FreeEntry(fs, d, k)
    ensures Inv(MadeDir(fs, n, d, k, name))
  {
    hide DirOk, Child, CountIn, Names, PutIn, MadeDir;
    var e := MadeDir(fs, n, d, k, name);
    MadeShape(fs, n, d, k, name);
    MadeDirs(fs, n, d, k, name);
    forall a, j, c ensures Child(e, a, j, c) <==> (Child(fs, a, j, c) || (a == d && j == k && c == n)) { MadeChild(fs, n, d, k, name, a, j, c); }
    assert forall a, j, c :: Child(fs, a, j, c) ==> IsDir(fs, c) && c != n;
    forall c | IsDir(e, c) && c != ROOT ensures HasChild(e, Parent(e, c), c) {
      if c == n {
        assert Child(e, d, k, n);
      } else {
        assert IsDir(fs, c);
        var j :| Child(fs, Parent(fs, c), j, c);
        assert Child(e, Parent(e, c), j, c);
      }
    }
    forall m | Used(e, m) ensures e[m].nlinks == Names(e, m) { MadeNames(fs, n, d, k, name, m); }
  }

  lemma MadeNames(fs: Inodes, n: int, d: int, k: int, name: string, m: int)
    requires Inv(fs) && 0 < n < |fs| && fs[n].Free? && FreeEntry(fs, d, k) && Used(MadeDir(fs, n, d, k, name), m)
    ensures MadeDir(fs, n, d, k, name)[m].nlinks == Names(MadeDir(fs, n, d, k, name), m)
  {
    hide CountIn, Names, Tree, DirOk;
    var new_ := Dir(2, [Entry(n, "."), Entry(d, "..")]);
    var made := fs[n := new_];
    NamesSet(fs, n, new_, m);
    TwoEntries(Entry(n, "."), Entry(d, ".."), m);
    PutNames(made, d, k, Entry(n, name), m);
    LinksNames(Put(made, d, k, Entry(n, name)), d, fs[d].nlinks + 1, m);
    FreeIsUnnamed(fs, n);
  }

  /** Nothing but "." and "..". */
  predicate Empty(fs: Inodes, n: int) {
    IsDir(fs, n) && |fs[n].entries| >= 2 && forall j :: 2 <= j < |fs[n].entries| ==> fs[n].entries[j].ino == 0
  }

  predicate Removable(fs: Inodes, d: int, k: int, n: int) {
    IsDir(fs, d) && Child(fs, d, k, n) && n != d && Empty(fs, n)
  }

  /** An empty directory is named by its own "." and by one entry of its parent. */
  lemma OnlyNames(fs: Inodes, d: int, k: int, n: int, a: int, j: int)
    requires DirsOk(fs) && Tree(fs) && Removable(fs, d, k, n) && Named(fs, a, j, n)
    ensures (a == n && j == 0) || (a == d && j == k)
  {
    hide Empty;
    if j >= 2 {
      assert Child(fs, a, j, n);
    } else {
      assert IsDir(fs, a) && DirOk(fs, a);
      if j == 1 && a != n { NoChildOf(fs, n, a); }
      assert Child(fs, d, k, n);
    }
  }

  lemma NoChildOf(fs: Inodes, n: int, a: int)
    requires DirsOk(fs) && Tree(fs) && Empty(fs, n) && n != ROOT && IsDir(fs, a)
    ensures DirOk(fs, a) && Parent(fs, a) != n
  {
    assert DirOk(fs, a);
    if a != ROOT { assert HasChild(fs, Parent(fs, a), a); }
  }

  lemma RemovedShape(fs: Inodes, d: int, k: int, n: int)
    requires DirsOk(fs) && Tree(fs) && Removable(fs, d, k, n)
    ensures IsDir(fs, d) && IsDir(fs, n) && n != d && 2 <= k < |fs[d].entries| && fs[d].entries[k].ino == n
    ensures n != ROOT && DirOk(fs, n) && Parent(fs, n) == d
    ensures var e := RemovedDir(fs, d, k);
      |e| == |fs| && e[n] == Free && e[d].Dir? && e[d].entries == fs[d].entries[k := Entry(0, fs[d].entries[k].name)]
      && e[d].nlinks == fs[d].nlinks - 1 && forall m :: 0 <= m < |fs| && m != n && m != d ==> e[m] == fs[m]
  {
    assert Child(fs, d, k, n);
  }

  lemma RemovedDirs(fs: Inodes, d: int, k: int, n: int)
    requires DirsOk(fs) && Tree(fs) && Removable(fs, d, k, n)
    ensures DirsOk(RemovedDir(fs, d, k))
    ensures forall m :: IsDir(fs, m) && m != n ==> DirOk(RemovedDir(fs, d, k), m) && Parent(RemovedDir(fs, d, k), m) == Parent(fs, m)
  {
    hide RemovedDir, Removable, DirOk, Tree;
    RemovedShape(fs, d, k, n);
    var e := RemovedDir(fs, d, k);
    forall m | IsDir(e, m) ensures DirOk(e, m) && Parent(e, m) == Parent(fs, m) { RemovedDirOk(fs, d, k, n, m); }
    assert IsDir(e, ROOT);
  }

  lemma RemovedDirOk(fs: Inodes, d: int, k: int, n: int, m: int)
    requires DirsOk(fs) && Tree(fs) && Removable(fs, d, k, n) && RemovedDir.requires(fs, d, k) && IsDir(RemovedDir(fs, d, k), m)
    ensures IsDir(fs, m) && DirOk(fs, m) && DirOk(RemovedDir(fs, d, k), m) && Parent(RemovedDir(fs, d, k), m) == Parent(fs, m)
  {
    hide RemovedDir, Removable, DirsOk, Tree;
    RemovedShape(fs, d, k, n);
    var e := RemovedDir(fs, d, k);
    DirOf(fs, m);
    forall j | 0 <= j < |e[m].entries| ensures e[m].entries[j].ino == 0 || Used(e, e[m].entries[j].ino) {
      if !(m == d && j == k) && Named(fs, m, j, n) { OnlyNames(fs, d, k, n, m, j); }
    }
    NoParent(fs, d, k, n, m);
  }

  lemma NoParent(fs: Inodes, d: int, k: int, n: int, m: int)
    requires DirsOk(fs) && Tree(fs) && Removable(fs, d, k, n) && IsDir(fs, m)
    ensures DirOk(fs, m) && Parent(fs, m) != n
  {
    assert Child(fs, d, k, n);
    NoChildOf(fs, n, m);
  }

  lemma RmdirKeeps(fs: Inodes, d: int, k: int, n: int)
    requires Inv(fs) && Removable(fs, d, k, n)
    ensures 2 <= k < |fs[d].entries| && fs[d].entries[k].ino == n && fs[n].nlinks == 2
    ensures Inv(RemovedDir(fs, d, k))
  {
    hide DirOk, CountIn, Names, RemovedDir, Empty;
    RemovedShape(fs, d, k, n);
    var e := RemovedDir(fs, d, k);
    RemovedDirs(fs, d, k, n);
    forall a, j, c ensures Child(e, a, j, c) <==> (Child(fs, a, j, c) && !(a == d && j == k)) { RemovedChild(fs, d, k, n, a, j, c); }
    forall c | IsDir(e, c) && c != ROOT ensures HasChild(e, Parent(e, c), c) {
      var j :| Child(fs, Parent(fs, c), j, c);
      assert Child(e, Parent(e, c), j, c);
    }
    forall m | Used(e, m) ensures e[m].nlinks == Names(e, m) { RemovedNames(fs, d, k, n, m); }
    ItsNames(fs, d, k, n);
  }

  lemma RemovedChild(fs: Inodes, d: int, k: int, n: int, a: int, j: int, c: int)
    requires DirsOk(fs) && Tree(fs) && Removable(fs, d, k, n)
    ensures RemovedDir.requires(fs, d, k) && (Child(RemovedDir(fs, d, k), a, j, c) <==> Child(fs, a, j, c) && !(a == d && j == k))
  {
    hide RemovedDir;
    RemovedShape(fs, d, k, n);
    if Child(fs, a, j, c) && c == n { OnlyNames(fs, d, k, n, a, j); }
  }

  lemma RemovedNames(fs: Inodes, d: int, k: int, n: int, m: int)
    requires Inv(fs) && Removable(fs, d, k, n) && RemovedDir.requires(fs, d, k) && Used(RemovedDir(fs, d, k), m)
    ensures RemovedDir(fs, d, k)[m].nlinks == Names(RemovedDir(fs, d, k), m)
  {
    hide CountIn, Names, Tree;
    var put := Put(fs, d, k, Entry(0, fs[d].entries[k].name));
    var less := WithLinks(put, d, fs[d].nlinks - 1);
    PutNames(fs, d, k, Entry(0, fs[d].entries[k].name), m);
    LinksNames(put, d, fs[d].nlinks - 1, m);
    NamesSet(less, n, Free, m);
    assert less[n] == fs[n] && DirOk(fs, n);
    EmptyCount(fs[n].entries, m);
    RemovedShape(fs, d, k, n);
  }

  lemma ItsNames(fs: Inodes, d: int, k: int, n: int)
    requires Inv(fs) && Removable(fs, d, k, n)
    ensures Names(fs, n) == 2
  {
    hide CountIn, Names;
    RemovedShape(fs, d, k, n);
    assert DirOk(fs, n);
    PutNames(fs, d, k, Entry(0, fs[d].entries[k].name), n);
    var put := Put(fs, d, k, Entry(0, fs[d].entries[k].name));
    NamesSet(put, n, Free, n);
    EmptyCount(fs[n].entries, n);
    var last := put[n := Free];
    forall a, j ensures !Named(last, a, j, n) {
      if Named(last, a, j, n) {
        assert Named(fs, a, j, n);
        OnlyNames(fs, d, k, n, a, j);
      }
    }
    NoneNamed(last, n);
  }

  /** i_nlinks is an unsigned char: a 256th name makes it 0, and iput would then free an inode
      that entries still name. */
  lemma LinkWraps(fs: Inodes, n: int, d: int, k: int, name: string)
    requires Inv(fs) && Used(fs, n) && fs[n].File? && fs[n].nlinks == 255 && FreeEntry(fs, d, k)
    ensures var e := WithLinks(Put(fs, d, k, Entry(n, name)), n, (fs[n].nlinks + 1) % 256);
      e[n].nlinks == 0 && Names(e, n) == 256
  {
    PutNames(fs, d, k, Entry(n, name), n);
    LinksNames(Put(fs, d, k, Entry(n, name)), n, 0, n);
  }

  // ----- the calls

  datatype Answer = Done | EExist | ENoEnt | ENoSpc | EPerm | ENotDir | ENotEmpty

  /** The answer of a call, the inode and the entry it is about. */
  datatype Outcome = Outcome(a: Answer, n: int, k: int)

  function Short(name: string): string {
    if |name| > NAME_LEN then name[..NAME_LEN] else name
  }

  /** The name a search compares with: in the root ".." is taken for ".". */
  function Key(d: int, name: string): string {
    if d == ROOT && name == ".." then "." else Short(name)
  }

  /** Entry k of d is the one a search for the name finds. */
  predicate Hit(fs: Inodes, d: int, name: string, k: int) {
    IsDir(fs, d) && name != "" && 0 <= k < |fs[d].entries| && fs[d].entries[k].ino != 0 && fs[d].entries[k].name == Key(d, name)
  }

  ghost predicate Absent(fs: Inodes, d: int, name: string) {
    forall k :: !Hit(fs, d, name, k)
  }

  /** What a search should find: ".." leads to the parent directory, and the root is its own; any
      other name leads to the entry of that name, of which the first 14 characters count. */
  ghost predicate Finds(fs: Inodes, d: int, name: string, k: int)
    requires Inv(fs) && IsDir(fs, d)
  {
    var s := fs[d].entries;
    if name == "" then k == -1
    else if name == ".." then k == (if d == ROOT then 0 else 1) && k < |s| && 2 <= |s| && s[k].ino == Parent(fs, d)
    else
      var wanted := if |name| <= 14 then name else name[..14];
      if k == -1 then forall j :: 0 <= j < |s| && s[j].ino != 0 ==> s[j].name != wanted
      else 0 <= k < |s| && s[k].ino != 0 && s[k].name == wanted
  }

  lemma FindsRight(fs: Inodes, d: int, name: string, k: int)
    requires Inv(fs) && NamesApart(fs) && IsDir(fs, d) && if k == -1 then Absent(fs, d, name) else Hit(fs, d, name, k)
    ensures Finds(fs, d, name, k)
  {
    hide Tree, Counted;
    assert DirOk(fs, d) && DistinctNames(fs[d].entries);
    if k == -1 {
      forall j | 0 <= j < |fs[d].entries| && fs[d].entries[j].ino != 0 ensures name != "" ==> fs[d].entries[j].name != Key(d, name) {
        assert !Hit(fs, d, name, j);
      }
      assert !Hit(fs, d, name, 0) && !Hit(fs, d, name, 1);
    }
  }

  ghost predicate DistinctNames(s: seq<Entry>) {
    forall i, j :: 0 <= i < j < |s| && s[i].ino != 0 && s[j].ino != 0 ==> s[i].name != s[j].name
  }

  /** No directory has two entries of one name. */
  ghost predicate NamesApart(fs: Inodes) {
    forall d :: IsDir(fs, d) ==> DistinctNames(fs[d].entries)
  }

  lemma ApartAfter(fs: Inodes, e: Inodes, d: int, k: int, x: Entry)
    requires NamesApart(fs) && IsDir(fs, d) && IsDir(e, d) && 0 <= k <= |fs[d].entries| && e[d].entries == PutIn(fs[d].entries, k, x)
    requires x.ino == 0 || forall j :: 0 <= j < |fs[d].entries| && j != k && fs[d].entries[j].ino != 0 ==> fs[d].entries[j].name != x.name
    requires forall m :: IsDir(e, m) && m != d ==> (IsDir(fs, m) && e[m].entries == fs[m].entries) || DistinctNames(e[m].entries)
    ensures NamesApart(e)
  {
    forall m | IsDir(e, m) ensures DistinctNames(e[m].entries) {
      if m == d {
        assert DistinctNames(fs[d].entries);
        var s, t := fs[d].entries, e[d].entries;
        assert forall i :: 0 <= i < |t| && i != k ==> i < |s| && t[i] == s[i];
      } else if IsDir(fs, m) {
        assert DistinctNames(fs[m].entries);
      }
    }
  }

  /** What is absent is not the name of a used entry. */
  lemma AbsentNames(fs: Inodes, d: int, name: string)
    requires DirsOk(fs) && IsDir(fs, d) && name != "" && Absent(fs, d, name)
    ensures Key(d, name) == Short(name)
    ensures forall j :: 0 <= j < |fs[d].entries| && fs[d].entries[j].ino != 0 ==> fs[d].entries[j].name != Short(name)
  {
    assert DirOk(fs, d);
    assert !Hit(fs, d, name, 0);
    forall j | 0 <= j < |fs[d].entries| && fs[d].entries[j].ino != 0 ensures fs[d].entries[j].name != Key(d, name) {
      assert !Hit(fs, d, name, j);
    }
  }

  /** Emptying the entry of a name makes the name absent. */
  lemma GoneAfter(fs: Inodes, e: Inodes, d: int, name: string, k: int)
    requires NamesApart(fs) && Hit(fs, d, name, k) && IsDir(e, d)
    requires e[d].entries == fs[d].entries[k := Entry(0, fs[d].entries[k].name)]
    ensures Absent(e, d, name)
  {
    assert DistinctNames(fs[d].entries);
  }

  lemma PutHit(fs: Inodes, e: Inodes, d: int, name: string, n: int, k: int)
    requires Inv(fs) && NamesApart(fs) && IsDir(fs, d) && IsDir(e, d) && name != "" && Absent(fs, d, name) && FreeEntry(fs, d, k) && n != 0
    requires e[d].entries == PutIn(fs[d].entries, k, Entry(n, Short(name)))
    requires forall m :: IsDir(e, m) && m != d ==> (IsDir(fs, m) && e[m].entries == fs[m].entries) || DistinctNames(e[m].entries)
    ensures NamesApart(e) && Hit(e, d, name, k)
  {
    hide Absent, Names, Tree, NamesApart;
    AbsentNames(fs, d, name);
    ApartAfter(fs, e, d, k, Entry(n, Short(name)));
  }

  lemma NamesOf(fs: Inodes, n: int)
    requires Inv(fs) && Used(fs, n)
    ensures 0 <= fs[n].nlinks
  {
  }

  lemma CreateIs(fs: Inodes, d: int, name: string, n: int, k: int)
    requires Inv(fs) && NamesApart(fs) && IsDir(fs, d) && name != "" && Absent(fs, d, name) && FirstInode(fs, n) && FirstFree(fs, d, k)
    ensures var e := Created(fs, n, d, k, Short(name));
      && Inv(e) && NamesApart(e) && Hit(e, d, name, k)
      && (forall m :: Used(e, m) <==> Used(fs, m) || m == n) && (forall m :: Used(fs, m) ==> e[m].nlinks == fs[m].nlinks) && e[n].nlinks == 1
      && Put(Put(fs, d, k, Entry(0, Short(name)))[n := File(1)], d, k, Entry(n, Short(name))) == e
  {
    hide Absent, Tree, Counted, DirsOk, NamesApart, DistinctNames, Short, Hit;
    PutTwice(fs, n, File(1), d, k, Entry(0, Short(name)), Entry(n, Short(name)));
    CreateKeeps(fs, n, d, k, Short(name));
    PutHit(fs, Created(fs, n, d, k, Short(name)), d, name, n, k);
  }

  lemma LinkIs(fs: Inodes, n: int, d: int, name: string, k: int)
    requires Inv(fs) && NamesApart(fs) && IsDir(fs, d) && name != "" && Absent(fs, d, name) && Used(fs, n) && fs[n].File? && FirstFree(fs, d, k)
    ensures 0 <= fs[n].nlinks
    ensures var e := Linked(fs, n, d, k, Short(name));
      && Inv(e) && NamesApart(e) && Hit(e, d, name, k)
      && (forall m :: Used(e, m) <==> Used(fs, m)) && (forall m :: Used(fs, m) ==> e[m].nlinks >= fs[m].nlinks)
      && Put(Put(fs, d, k, Entry(0, Short(name))), d, k, Entry(n, Short(name))) == Put(fs, d, k, Entry(n, Short(name)))
  {
    hide Absent, Tree, Counted, DirsOk, NamesApart, DistinctNames, Short, Hit;
    EmptyZero(fs);
    NamesOf(fs, n);
    PutAgain(fs, d, k, Entry(0, Short(name)), Entry(n, Short(name)));
    LinkKeeps(fs, n, d, k, Short(name));
    PutHit(fs, Linked(fs, n, d, k, Short(name)), d, name, n, k);
  }

  lemma MkdirIs(fs: Inodes, d: int, name: string, n: int, k: int)
    requires Inv(fs) && NamesApart(fs) && IsDir(fs, d) && name != "" && Absent(fs, d, name) && FirstInode(fs, n) && FirstFree(fs, d, k)
    ensures 0 <= fs[d].nlinks
    ensures var e := MadeDir(fs, n, d, k, Short(name)); var i := Dir(2, [Entry(n, "."), Entry(d, "..")]);
      && Inv(e) && NamesApart(e) && Hit(e, d, name, k)
      && (forall m :: Used(e, m) <==> Used(fs, m) || m == n) && (forall m :: Used(fs, m) ==> e[m].nlinks >= fs[m].nlinks) && e[n].nlinks == 2
      && var p := Put(Put(fs, d, k, Entry(0, Short(name)))[n := i], d, k, Entry(n, Short(name)));
      Used(p, d) && p[d].nlinks == fs[d].nlinks && WithLinks(p, d, fs[d].nlinks + 1) == e
  {
    hide Absent, Tree, Counted, DirsOk, NamesApart, Short, Hit;
    NamesOf(fs, d);
    PutTwice(fs, n, Dir(2, [Entry(n, "."), Entry(d, "..")]), d, k, Entry(0, Short(name)), Entry(n, Short(name)));
    MkdirKeeps(fs, n, d, k, Short(name));
    DotsApart(n, d);
    PutHit(fs, MadeDir(fs, n, d, k, Short(name)), d, name, n, k);
  }

  /** A stored count is the count below 256; 256 is stored as 0. The entries do not depend on it. */
  lemma ByteKeeps(fs: Inodes, n: int, d: int, name: string, k: int)
    requires Inv(fs) && Used(fs, n) && IsDir(fs, d) && Hit(fs, d, name, k)
    ensures Hit(AsByte(fs, n), d, name, k)
    ensures fs[n].nlinks < 256 ==> AsByte(fs, n) == fs
    ensures fs[n].nlinks == 256 ==> AsByte(fs, n)[n].nlinks == 0 && Names(AsByte(fs, n), n) == 256
  {
    hide Names, Tree, DirsOk, Short;
    LinksNames(fs, n, fs[n].nlinks % 256, n);
  }

  /** sys_unlink before the freeing. */
  lemma UnlinkIs(fs: Inodes, d: int, name: string, k: int)
    requires Inv(fs) && NamesApart(fs) && Hit(fs, d, name, k) && Used(fs, fs[d].entries[k].ino) && fs[fs[d].entries[k].ino].File?
    ensures k >= 2 && fs[fs[d].entries[k].ino].nlinks > 0
    ensures Inv(Unlinked(fs, d, k)) && NamesApart(Unlinked(fs, d, k))
  {
    hide Tree, Counted, NamesApart, DistinctNames;
    assert DirOk(fs, d);
    UnlinkKeeps(fs, d, k);
    HasLinks(fs, d, k, fs[d].entries[k].ino);
    hide DirsOk;
    ApartAfter(fs, Unlinked(fs, d, k), d, k, Entry(0, fs[d].entries[k].name));
  }

  lemma UnlinkedShape(fs: Inodes, d: int, k: int, n: int)
    requires IsDir(fs, d) && 2 <= k < |fs[d].entries| && fs[d].entries[k].ino == n && Used(fs, n) && fs[n].File?
    ensures var e := Unlinked(fs, d, k);
      && (forall m :: Used(e, m) <==> Used(fs, m)) && (forall m :: Used(fs, m) && m != n ==> e[m].nlinks == fs[m].nlinks)
      && WithLinks(Put(fs, d, k, Entry(0, fs[d].entries[k].name)), n, fs[n].nlinks - 1) == e
      && e[n].File? && e[n].nlinks == fs[n].nlinks - 1
      && IsDir(e, d) && e[d].entries == fs[d].entries[k := Entry(0, fs[d].entries[k].name)]
  {
  }

  lemma RmdirIs(fs: Inodes, d: int, name: string, k: int, n: int)
    requires Inv(fs) && NamesApart(fs) && Hit(fs, d, name, k) && fs[d].entries[k].ino == n && n != d && Empty(fs, n)
    ensures Removable(fs, d, k, n) && 2 <= k < |fs[d].entries| && IsDir(fs, d) && IsDir(fs, n)
    ensures var e := RemovedDir(fs, d, k);
      && Inv(e) && NamesApart(e) && Absent(e, d, name) && IsDir(e, d) && e[d].nlinks > 0
      && (forall m :: Used(e, m) <==> Used(fs, m) && m != n) && (forall m :: Used(fs, m) && m != n && m != d ==> e[m].nlinks == fs[m].nlinks)
      && WithLinks(Put(fs, d, k, Entry(0, fs[d].entries[k].name)), d, fs[d].nlinks - 1)[n := Free] == e
  {
    hide Counted, NamesApart, DistinctNames, Absent;
    OrdinaryName(fs, d, k, n);
    RmdirKeeps(fs, d, k, n);
    StillNamed(fs, d, k, n);
    ApartAfter(fs, RemovedDir(fs, d, k), d, k, Entry(0, fs[d].entries[k].name));
    GoneAfter(fs, RemovedDir(fs, d, k), d, name, k);
  }

  // ----- what each call answers and does

  ghost predicate NoInode(fs: Inodes) {
    forall m :: 0 < m < |fs| ==> !fs[m].Free?
  }

  /** n is the lowest free inode number. */
  ghost predicate FirstInode(fs: Inodes, n: int) {
    0 < n < |fs| && fs[n].Free? && forall m :: 0 < m < n ==> !fs[m].Free?
  }

  ghost predicate FullDir(fs: Inodes, d: int)
    requires IsDir(fs, d)
  {
    forall j :: 0 <= j < |fs[d].entries| ==> fs[d].entries[j].ino != 0
  }

  /** k is the first empty entry, or one behind the last. */
  ghost predicate FirstFree(fs: Inodes, d: int, k: int) {
    FreeEntry(fs, d, k) && forall j :: 0 <= j < k ==> fs[d].entries[j].ino != 0
  }

  ghost predicate Creates(fs: Inodes, d: int, name: string, room: bool, o: Outcome, e: Inodes)
    requires IsDir(fs, d)
  {
    && o.a == (if name == "" then ENoEnt else if !Absent(fs, d, name) then EExist
               else if NoInode(fs) || (!room && FullDir(fs, d)) then ENoSpc else Done)
    && (o.a != Done ==> e == fs)
    && (o.a == Done ==> FirstInode(fs, o.n) && FirstFree(fs, d, o.k) && e == Created(fs, o.n, d, o.k, Short(name)) && Hit(e, d, name, o.k))
  }

  ghost predicate Links(fs: Inodes, n: int, d: int, name: string, room: bool, o: Outcome, e: Inodes)
    requires Used(fs, n) && IsDir(fs, d)
  {
    && o.a == (if fs[n].Dir? || name == "" then EPerm else if !Absent(fs, d, name) then EExist
               else if !room && FullDir(fs, d) then ENoSpc else Done)
    && (o.a != Done ==> e == fs)
    && (o.a == Done ==> FirstFree(fs, d, o.k) && e == AsByte(Linked(fs, n, d, o.k, Short(name)), n) && Hit(e, d, name, o.k))
  }

  ghost predicate Unlinks(fs: Inodes, held: set<int>, d: int, name: string, o: Outcome, e: Inodes)
    requires IsDir(fs, d)
  {
    && (o.a == ENoEnt <==> Absent(fs, d, name))
    && (o.a != ENoEnt ==> Hit(fs, d, name, o.k) && fs[d].entries[o.k].ino == o.n && Used(fs, o.n) && o.a == if fs[o.n].Dir? then EPerm else Done)
    && (o.a != Done ==> e == fs)
    && (o.a == Done ==> o.k >= 2 && Absent(e, d, name))
    && (o.a == Done ==> e == if fs[o.n].nlinks == 1 && o.n !in held then Freed(Unlinked(fs, d, o.k), o.n) else Unlinked(fs, d, o.k))
  }

  ghost predicate MakesDir(fs: Inodes, d: int, name: string, room: bool, o: Outcome, e: Inodes)
    requires IsDir(fs, d)
  {
    && o.a == (if name == "" then ENoEnt else if !Absent(fs, d, name) then EExist
               else if NoInode(fs) || (!room && FullDir(fs, d)) then ENoSpc else Done)
    && (o.a != Done ==> e == fs)
    && (o.a == Done ==> FirstInode(fs, o.n) && FirstFree(fs, d, o.k) && e == AsByte(MadeDir(fs, o.n, d, o.k, Short(name)), d) && Hit(e, d, name, o.k))
  }

  ghost predicate RemovesDir(fs: Inodes, held: set<int>, d: int, name: string, o: Outcome, e: Inodes)
    requires IsDir(fs, d)
  {
    && (o.a == ENoEnt <==> Absent(fs, d, name))
    && (o.a != ENoEnt ==> Hit(fs, d, name, o.k) && fs[d].entries[o.k].ino == o.n && Used(fs, o.n))
    && (o.a != ENoEnt ==> o.a == if o.n in held || o.n == d then EPerm else if !fs[o.n].Dir? then ENotDir else if !Empty(fs, o.n) then ENotEmpty else Done)
    && (o.a != Done ==> e == fs)
    && (o.a == Done ==> Removable(fs, d, o.k, o.n) && e == RemovedDir(fs, d, o.k) && Absent(e, d, name))
  }

  class FileNames {
    var inodes: Inodes
    var held: set<int>               // inodes with users besides the call: i_count > 1

    ghost predicate Valid()
      reads this
    {
      && Inv(inodes) && NamesApart(inodes) && (forall n :: n in held ==> Used(inodes, n))
      && (forall n :: Used(inodes, n) && n !in held ==> inodes[n].nlinks > 0)
    }

    /** A new file system: only the root directory. */
    constructor (count: int)
      requires count > ROOT
      ensures Valid() && |inodes| == count && held == {} && forall n :: 0 <= n < count && n != ROOT ==> inodes[n].Free?
    {
      inodes := seq(count, n => if n == ROOT then Dir(2, [Entry(ROOT, "."), Entry(ROOT, "..")]) else Free);
      held := {};
      new;
      NewRoot(inodes);
    }

    /** find_entry, without mount points. */
    method FindEntry(d: int, name: string) returns (k: int)
      requires IsDir(inodes, d)
      ensures if k == -1 then Absent(inodes, d, name) else Hit(inodes, d, name, k)
      ensures Valid() ==> Finds(inodes, d, name, k)
    {
      hide Valid, Inv, NamesApart, Finds;
      var key := Short(name);
      if name == "" {
        Found(d, name, -1);
        return -1;
      }
      if key == ".." && d == ROOT { key := "."; }
      k := 0;
      while k < |inodes[d].entries|
        invariant 0 <= k <= |inodes[d].entries|
        invariant forall j :: 0 <= j < k && inodes[d].entries[j].ino != 0 ==> inodes[d].entries[j].name != key
      {
        if inodes[d].entries[k].ino != 0 && inodes[d].entries[k].name == key {
          Found(d, name, k);
          return;
        }
        k := k + 1;
      }
      k := -1;
      Found(d, name, k);
    }

    lemma Found(d: int, name: string, k: int)
      requires IsDir(inodes, d) && if k == -1 then Absent(inodes, d, name) else Hit(inodes, d, name, k)
      ensures Valid() ==> Finds(inodes, d, name, k)
    {
      if Valid() { FindsRight(inodes, d, name, k); }
    }

    /** add_entry: the first empty entry, else a new one at the end if the directory can grow;
        the name is put there and the inode number left at 0. */
    method AddEntry(d: int, name: string, room: bool) returns (k: int)
      requires DirsOk(inodes) && IsDir(inodes, d) && name != ""
      modifies `inodes
      ensures k == -1 <==> !room && FullDir(old(inodes), d)
      ensures k == -1 ==> inodes == old(inodes)
      ensures k != -1 ==> FirstFree(old(inodes), d, k) && inodes == Put(old(inodes), d, k, Entry(0, Short(name)))
    {
      assert DirOk(inodes, d);
      k := 0;
      while k < |inodes[d].entries| && inodes[d].entries[k].ino != 0
        invariant unchanged(this) && 0 <= k <= |inodes[d].entries|
        invariant forall j :: 0 <= j < k ==> inodes[d].entries[j].ino != 0
      {
        k := k + 1;
      }
      if k == |inodes[d].entries| && !room { return -1; }
      inodes := Put(inodes, d, k, Entry(0, Short(name)));
    }

    /** new_inode's search: the lowest free inode number, 0 if there is none. */
    method FindInode() returns (n: int)
      requires |inodes| > 0
      ensures if n == 0 then NoInode(inodes) else FirstInode(inodes, n)
    {
      n := 1;
      while n < |inodes| && !inodes[n].Free?
        invariant 1 <= n <= |inodes| && forall m :: 0 < m < n ==> !inodes[m].Free?
      {
        n := n + 1;
      }
      if n == |inodes| { n := 0; }
    }

    /** iput of the last user of an inode: without links it is freed. */
    method Iput(n: int)
      requires Inv(inodes) && NamesApart(inodes) && Used(inodes, n) && (forall m :: m in held ==> Used(inodes, m))
      requires forall m :: Used(inodes, m) && m !in held && m != n ==> inodes[m].nlinks > 0
      modifies `inodes
      ensures Valid() && inodes == if n !in held && old(inodes)[n].nlinks == 0 then Freed(old(inodes), n) else old(inodes)
    {
      hide DirsOk, Tree, Names, DistinctNames;
      if n in held { return; }
      if inodes[n].nlinks == 0 {
        FreeKeeps(inodes, n);
        inodes := inodes[n := Free];
      }
    }

    /** open_namei with O_CREAT, and sys_mknod of anything but a directory */
    method Create(d: int, name: string, room: bool) returns (ghost o: Outcome, a: Answer)
      requires Valid() && IsDir(inodes, d)
      modifies `inodes
      ensures Valid() && o.a == a && Creates(old(inodes), d, name, room, o, inodes)
    {
      hide Tree, Counted, DirsOk, NamesApart, Absent, Hit, Short, Finds;
      if name == "" { return Outcome(ENoEnt, 0, 0), ENoEnt; }
      var k := FindEntry(d, name);
      if k != -1 {
        Present(inodes, d, name, k);
        return Outcome(EExist, 0, 0), EExist;
      }
      var n := FindInode();
      if n == 0 { return Outcome(ENoSpc, 0, 0), ENoSpc; }
      k := AddEntry(d, name, room);
      if k == -1 { return Outcome(ENoSpc, 0, 0), ENoSpc; }
      CreateIs(old(inodes), d, name, n, k);
      inodes := inodes[n := File(1)];
      inodes := Put(inodes, d, k, Entry(n, Short(name)));
      assert inodes == Created(old(inodes), n, d, k, Short(name));
      return Outcome(Done, n, k), Done;
    }

    /** sys_link. The 256th name of a file makes its count 0, and the names outnumber it. */
    method Link(n: int, d: int, name: string, room: bool) returns (ghost o: Outcome, a: Answer)
      requires Valid() && Used(inodes, n) && IsDir(inodes, d) && inodes[n].nlinks <= 255
      modifies `inodes
      ensures o.a == a && Links(old(inodes), n, d, name, room, o, inodes)
      ensures a != Done || old(inodes[n].nlinks) < 255 ==> Valid()
      ensures a == Done && old(inodes[n].nlinks) == 255 ==> inodes[n].nlinks == 0 && Names(inodes, n) == 256
    {
      hide Tree, Counted, DirsOk, NamesApart, Absent, Hit, Short, Finds;
      if inodes[n].Dir? { return Outcome(EPerm, 0, 0), EPerm; }
      if name == "" { return Outcome(EPerm, 0, 0), EPerm; }
      var k := FindEntry(d, name);
      if k != -1 {
        Present(inodes, d, name, k);
        return Outcome(EExist, 0, 0), EExist;
      }
      k := AddEntry(d, name, room);
      if k == -1 { return Outcome(ENoSpc, 0, 0), ENoSpc; }
      LinkIs(old(inodes), n, d, name, k);
      inodes := Put(inodes, d, k, Entry(n, Short(name)));
      inodes := WithLinks(inodes, n, (inodes[n].nlinks + 1) % 256);
      ByteKeeps(Linked(old(inodes), n, d, k, Short(name)), n, d, name, k);
      assert inodes == AsByte(Linked(old(inodes), n, d, k, Short(name)), n);
      return Outcome(Done, n, k), Done;
    }

    /** sys_unlink: the file is freed when that was its last name and nobody else holds it. */
    method Unlink(d: int, name: string) returns (ghost o: Outcome, a: Answer)
      requires Valid() && IsDir(inodes, d)
      modifies `inodes
      ensures Valid() && o.a == a && Unlinks(old(inodes), held, d, name, o, inodes)
    {
      hide Tree, Counted, Absent, NamesApart, Finds;
      var k := FindEntry(d, name);
      if k == -1 { return Outcome(ENoEnt, 0, 0), ENoEnt; }
      Present(inodes, d, name, k);
      assert DirOk(inodes, d);
      var n := inodes[d].entries[k].ino;
      if inodes[n].Dir? { return Outcome(EPerm, n, k), EPerm; }
      DropName(d, name, k);
      return Outcome(Done, n, k), Done;
    }

    /** The end of sys_unlink: the entry is emptied, the count goes down, and iput. */
    method DropName(d: int, name: string, k: int)
      requires Valid() && Hit(inodes, d, name, k) && Used(inodes, inodes[d].entries[k].ino) && inodes[inodes[d].entries[k].ino].File?
      modifies `inodes
      ensures Valid() && k >= 2 && Absent(inodes, d, name)
      ensures var n := old(inodes)[d].entries[k].ino;
        inodes == if old(inodes)[n].nlinks == 1 && n !in held then Freed(Unlinked(old(inodes), d, k), n) else Unlinked(old(inodes), d, k)
    {
      hide Tree, Counted, Absent, NamesApart;
      var n := inodes[d].entries[k].ino;
      UnlinkIs(inodes, d, name, k);
      UnlinkedShape(inodes, d, k, n);
      inodes := Put(inodes, d, k, Entry(0, inodes[d].entries[k].name));
      inodes := WithLinks(inodes, n, inodes[n].nlinks - 1);
      assert inodes == Unlinked(old(inodes), d, k);
      Iput(n);
      GoneAfter(old(inodes), inodes, d, name, k);
    }

    /** sys_mkdir, its successful path and the failures before anything is changed */
    method Mkdir(d: int, name: string, room: bool) returns (ghost o: Outcome, a: Answer)
      requires Valid() && IsDir(inodes, d) && inodes[d].nlinks <= 255
      modifies `inodes
      ensures o.a == a && MakesDir(old(inodes), d, name, room, o, inodes)
      ensures a != Done || old(inodes[d].nlinks) < 255 ==> Valid()
      ensures a == Done && old(inodes[d].nlinks) == 255 ==> inodes[d].nlinks == 0 && Names(inodes, d) == 256
      ensures a == Done ==> inodes[o.n] == Dir(2, [Entry(o.n, "."), Entry(d, "..")])
    {
      hide Tree, Counted, DirsOk, NamesApart, Absent, Hit, Short, Finds;
      if name == "" { return Outcome(ENoEnt, 0, 0), ENoEnt; }
      var k := FindEntry(d, name);
      if k != -1 {
        Present(inodes, d, name, k);
        return Outcome(EExist, 0, 0), EExist;
      }
      var n := FindInode();
      if n == 0 { return Outcome(ENoSpc, 0, 0), ENoSpc; }
      k := AddEntry(d, name, room);
      if k == -1 { return Outcome(ENoSpc, 0, 0), ENoSpc; }
      MkdirIs(old(inodes), d, name, n, k);
      inodes := inodes[n := Dir(2, [Entry(n, "."), Entry(d, "..")])];
      inodes := Put(inodes, d, k, Entry(n, Short(name)));
      inodes := WithLinks(inodes, d, (inodes[d].nlinks + 1) % 256);
      ByteKeeps(MadeDir(old(inodes), n, d, k, Short(name)), d, d, name, k);
      assert inodes == AsByte(MadeDir(old(inodes), n, d, k, Short(name)), d);
      return Outcome(Done, n, k), Done;
    }

    /** empty_dir */
    method EmptyDir(n: int) returns (empty: bool)
      requires DirsOk(inodes) && IsDir(inodes, n)
      ensures empty <==> Empty(inodes, n)
    {
      var s := inodes[n].entries;
      assert DirOk(inodes, n);
      if |s| < 2 || s[0].ino != n || s[1].ino == 0 || s[0].name != "." || s[1].name != ".." { return false; }
      var nr := 2;
      while nr < |s|
        invariant 2 <= nr <= |s| && forall j :: 2 <= j < nr ==> s[j].ino == 0
      {
        if s[nr].ino != 0 { return false; }
        nr := nr + 1;
      }
      empty := true;
    }

    /** sys_rmdir: an empty directory nobody else uses disappears with its "." and "..". */
    method Rmdir(d: int, name: string) returns (ghost o: Outcome, a: Answer)
      requires Valid() && IsDir(inodes, d)
      modifies `inodes
      ensures Valid() && o.a == a && RemovesDir(old(inodes), held, d, name, o, inodes)
    {
      hide Tree, Counted, Absent, NamesApart, Removable, Empty, Short, Key;
      var k := FindEntry(d, name);
      if k == -1 { return Outcome(ENoEnt, 0, 0), ENoEnt; }
      Present(inodes, d, name, k);
      assert DirOk(inodes, d);
      var n := inodes[d].entries[k].ino;
      if n in held { return Outcome(EPerm, n, k), EPerm; }
      if n == d { return Outcome(EPerm, n, k), EPerm; }
      if !inodes[n].Dir? { return Outcome(ENotDir, n, k), ENotDir; }
      var empty := EmptyDir(n);
      if !empty { return Outcome(ENotEmpty, n, k), ENotEmpty; }
      DropDir(d, name, k, n);
      return Outcome(Done, n, k), Done;
    }

    /** The stores of sys_rmdir, and the freeing of the directory by its iput. */
    method DropDir(d: int, name: string, k: int, n: int)
      requires Valid() && Hit(inodes, d, name, k) && inodes[d].entries[k].ino == n && n != d && n !in held && Empty(inodes, n)
      modifies `inodes
      ensures Valid() && Removable(old(inodes), d, k, n) && inodes == RemovedDir(old(inodes), d, k) && Absent(inodes, d, name)
    {
      hide Tree, Counted, DirsOk, Absent, NamesApart, Removable, Empty, Short, Key;
      RmdirIs(inodes, d, name, k, n);
      inodes := Put(inodes, d, k, Entry(0, inodes[d].entries[k].name));
      inodes := WithLinks(inodes, d, inodes[d].nlinks - 1);
      inodes := inodes[n := Free];
      assert inodes == RemovedDir(old(inodes), d, k);
    }

    /** A run of calls, each to completion, with inodes held and released in between; a call that
        would need a 256th link is skipped.  Every call does what Calls says, and link counts
        equal names throughout. */
    method Run(calls: seq<Call>) returns (ghost trace: seq<Inodes>, ghost holds: seq<set<int>>, ghost outs: seq<Outcome>)
      requires Valid()
      modifies this
      ensures Valid() && |outs| == |calls| && |trace| == |holds| == |calls| + 1
      ensures trace[0] == old(inodes) && holds[0] == old(held) && trace[|calls|] == inodes && holds[|calls|] == held
      ensures forall i :: 0 <= i <= |calls| ==> Inv(trace[i])
      ensures forall i :: 0 <= i < |calls| ==> Calls(trace[i], holds[i], calls[i], outs[i], trace[i + 1], holds[i + 1])
    {
      hide Inv, NamesApart, Calls;
      trace, holds, outs := [inodes], [held], [];
      var i := 0;
      while i < |calls|
        invariant Valid() && 0 <= i <= |calls| && |outs| == i && |trace| == |holds| == i + 1
        invariant trace[0] == old(inodes) && holds[0] == old(held) && trace[i] == inodes && holds[i] == held
        invariant forall j :: 0 <= j <= i ==> Inv(trace[j])
        invariant forall j :: 0 <= j < i ==> Calls(trace[j], holds[j], calls[j], outs[j], trace[j + 1], holds[j + 1])
      {
        ghost var o := Perform(calls[i]);
        trace, holds, outs := trace + [inodes], holds + [held], outs + [o];
        i := i + 1;
      }
    }

    method Perform(c: Call) returns (ghost o: Outcome)
      requires Valid()
      modifies this
      ensures Valid() && Calls(old(inodes), old(held), c, o, inodes, held)
    {
      hide Inv, NamesApart, Creates, Links, Unlinks, MakesDir, RemovesDir;
      o := Outcome(Done, 0, 0);
      var a;
      match c
      case Creat(d, name, room) =>
        if IsDir(inodes, d) { o, a := Create(d, name, room); }
      case Ln(n, d, name, room) =>
        if Used(inodes, n) && IsDir(inodes, d) && inodes[n].nlinks < 255 { o, a := Link(n, d, name, room); }
      case Rm(d, name) =>
        if IsDir(inodes, d) { o, a := Unlink(d, name); }
      case MkDir(d, name, room) =>
        if IsDir(inodes, d) && inodes[d].nlinks < 255 { o, a := Mkdir(d, name, room); }
      case RmDir(d, name) =>
        if IsDir(inodes, d) { o, a := Rmdir(d, name); }
      case Hold(n) =>
        if Used(inodes, n) { held := held + {n}; }
      case Release(n) =>
        if n in held {
          held := held - {n};
          Iput(n);
        }
    }
  }

  datatype Call =
    | Creat(d: int, name: string, room: bool)
    | Ln(n: int, d: int, name: string, room: bool)
    | Rm(d: int, name: string)
    | MkDir(d: int, name: string, room: bool)
    | RmDir(d: int, name: string)
    | Hold(n: int)
    | Release(n: int)

  /** One step of a run. */
  ghost predicate Calls(fs: Inodes, held: set<int>, c: Call, o: Outcome, e: Inodes, now: set<int>) {
    match c
    case Creat(d, name, room) => now == held && if IsDir(fs, d) then Creates(fs, d, name, room, o, e) else e == fs
    case Ln(n, d, name, room) =>
      now == held && if Used(fs, n) && IsDir(fs, d) && fs[n].nlinks < 255 then Links(fs, n, d, name, room, o, e) else e == fs
    case Rm(d, name) => now == held && if IsDir(fs, d) then Unlinks(fs, held, d, name, o, e) else e == fs
    case MkDir(d, name, room) => now == held && if IsDir(fs, d) && fs[d].nlinks < 255 then MakesDir(fs, d, name, room, o, e) else e == fs
    case RmDir(d, name) => now == held && if IsDir(fs, d) then RemovesDir(fs, held, d, name, o, e) else e == fs
    case Hold(n) => e == fs && now == if Used(fs, n) then held + {n} else held
    case Release(n) => now == held - {n} && e == if n in held && Used(fs, n) && fs[n].nlinks == 0 then Freed(fs, n) else fs
  }

  lemma Present(fs: Inodes, d: int, name: string, k: int)
    requires Hit(fs, d, name, k)
    ensures !Absent(fs, d, name)
  {
  }

  lemma DotsApart(n: int, d: int)
    ensures DistinctNames([Entry(n, "."), Entry(d, "..")])
  {
  }

  lemma NewRoot(fs: Inodes)
    requires |fs| > ROOT && fs[ROOT] == Dir(2, [Entry(ROOT, "."), Entry(ROOT, "..")])
    requires forall n :: 0 <= n < |fs| && n != ROOT ==> fs[n] == Free
    ensures Inv(fs) && NamesApart(fs)
  {
    var none := fs[ROOT := Free];
    forall d, k ensures !Named(none, d, k, ROOT) {}
    NoneNamed(none, ROOT);
    NamesSet(fs, ROOT, Free, ROOT);
    TwoEntries(Entry(ROOT, "."), Entry(ROOT, ".."), ROOT);
    assert IsDir(fs, ROOT) && DirOk(fs, ROOT);
  }

  /** add_entry's empty entry is filled in, after another inode was set up. */
  lemma PutTwice(fs: Inodes, n: int, i: Inode, d: int, k: int, a: Entry, b: Entry)
    requires IsDir(fs, d) && 0 <= k <= |fs[d].entries| && 0 <= n < |fs| && n != d
    ensures Put(Put(fs, d, k, a)[n := i], d, k, b) == Put(fs[n := i], d, k, b)
  {
    assert PutIn(PutIn(fs[d].entries, k, a), k, b) == PutIn(fs[d].entries, k, b);
  }

  lemma PutAgain(fs: Inodes, d: int, k: int, a: Entry, b: Entry)
    requires IsDir(fs, d) && 0 <= k <= |fs[d].entries|
    ensures Put(Put(fs, d, k, a), d, k, b) == Put(fs, d, k, b)
  {
    assert PutIn(PutIn(fs[d].entries, k, a), k, b) == PutIn(fs[d].entries, k, b);
  }

  lemma HasLinks(fs: Inodes, d: int, k: int, n: int)
    requires Inv(fs) && Named(fs, d, k, n) && Used(fs, n)
    ensures fs[n].nlinks > 0
  {
    SomeNamed(fs, d, k, n);
  }

  /** The entry that leads to an empty directory other than d itself is an ordinary one: behind
      ".." there is always a directory that is not empty. */
  lemma OrdinaryName(fs: Inodes, d: int, k: int, n: int)
    requires DirsOk(fs) && Tree(fs) && IsDir(fs, d) && Named(fs, d, k, n) && n != d && Empty(fs, n)
    ensures Removable(fs, d, k, n)
  {
    assert DirOk(fs, d);
    assert d != ROOT ==> HasChild(fs, Parent(fs, d), d);
  }

  lemma StillNamed(fs: Inodes, d: int, k: int, n: int)
    requires Inv(fs) && Removable(fs, d, k, n) && RemovedDir.requires(fs, d, k) && Inv(RemovedDir(fs, d, k))
    ensures RemovedDir(fs, d, k)[d].nlinks > 0
  {
    var e := RemovedDir(fs, d, k);
    RemovedShape(fs, d, k, n);
    DirOf(e, d);
    SomeNamed(e, d, 0, d);
  }
}
