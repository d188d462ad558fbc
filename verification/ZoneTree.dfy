/**
 The block trees of a MINIX file system as a value: the zone bitmap, the contents of the
 zones and the nine zone numbers of every regular file or directory inode.  A location is a
 place where a zone number is stored; Ptr reads it through the index blocks.
 */
module ZoneTree {

  const BLOCK_SIZE: int := 1024
  const ENTRIES: int := 512                  // zone numbers per index block
  const MAX_BLOCK: int := 7 + 512 + 512 * 512

  type Block = seq<int>                      // 1024 bytes

  function Zeros(): (b: Block)
    ensures |b| == BLOCK_SIZE && forall i :: 0 <= i < BLOCK_SIZE ==> b[i] == 0
  {
    seq(BLOCK_SIZE, _ => 0)
  }

  /** ((unsigned short *) b)[i] */
  function U16(b: Block, i: int): int
    requires |b| == BLOCK_SIZE && 0 <= i < ENTRIES
  {
    b[2 * i] + 256 * b[2 * i + 1]
  }

  function Put16(b: Block, i: int, v: int): (r: Block)
    requires |b| == BLOCK_SIZE && 0 <= i < ENTRIES && 0 <= v
    ensures |r| == BLOCK_SIZE
    ensures U16(r, i) == v && forall j :: 0 <= j < ENTRIES && j != i ==> U16(r, j) == U16(b, j)
  {
    b[2 * i := v % 256][2 * i + 1 := v / 256]
  }

  /** bits[k] is bit k of the zone bitmap; zone z has bit z - first + 1. */
  datatype Disk = Disk(first: int, nzones: int, bits: seq<bool>, blocks: seq<Block>, zones: seq<seq<int>>)

  datatype Loc =
    | Direct(n: int, k: int)
    | Ind(n: int)
    | IndLeaf(n: int, k: int)
    | Dind(n: int)
    | DindMid(n: int, k: int)
    | DindLeaf(n: int, k: int, j: int)

  predicate Shape(d: Disk) {
    && 1 <= d.first <= d.nzones == |d.blocks| <= 65535 && d.nzones - d.first < |d.bits|
    && (forall z :: 0 <= z < |d.blocks| ==> |d.blocks[z]| == BLOCK_SIZE)
    && (forall n :: 0 <= n < |d.zones| ==> |d.zones[n]| == 9)
  }

  predicate IsLoc(d: Disk, l: Loc) {
    && 0 <= l.n < |d.zones|
    && match l
       case Direct(_, k) => 0 <= k < 7
       case Ind(_) => true
       case IndLeaf(_, k) => 0 <= k < ENTRIES
       case Dind(_) => true
       case DindMid(_, k) => 0 <= k < ENTRIES
       case DindLeaf(_, k, j) => 0 <= k < ENTRIES && 0 <= j < ENTRIES
  }

  /** Entry k of index block z, 0 when there is no such block. */
  function At(d: Disk, z: int, k: int): int
    requires Shape(d) && 0 <= k < ENTRIES
  {
    if 0 < z < d.nzones then U16(d.blocks[z], k) else 0
  }

  function Ptr(d: Disk, l: Loc): int
    requires Shape(d) && IsLoc(d, l)
  {
    match l
    case Direct(n, k) => d.zones[n][k]
    case Ind(n) => d.zones[n][7]
    case IndLeaf(n, k) => At(d, d.zones[n][7], k)
    case Dind(n) => d.zones[n][8]
    case DindMid(n, k) => At(d, d.zones[n][8], k)
    case DindLeaf(n, k, j) => At(d, At(d, d.zones[n][8], k), j)
  }

  predicate InZone(d: Disk, z: int) {
    d.first <= z < d.nzones
  }

  predicate Bit(d: Disk, z: int)
    requires Shape(d) && InZone(d, z)
  {
    d.bits[z - d.first + 1]
  }

  ghost predicate PointersInRange(d: Disk)
    requires Shape(d)
  {
    forall l :: IsLoc(d, l) && Ptr(d, l) != 0 ==> InZone(d, Ptr(d, l))
  }

  /** No zone is referred to twice. */
  ghost predicate NoSharing(d: Disk)
    requires Shape(d)
  {
    forall l, m :: IsLoc(d, l) && IsLoc(d, m) && Ptr(d, l) == Ptr(d, m) != 0 ==> l == m
  }

  ghost predicate Owned(d: Disk, z: int)
    requires Shape(d)
  {
    exists l :: IsLoc(d, l) && Ptr(d, l) == z
  }

  /** A zone's bit is set exactly when a pointer refers to it. */
  ghost predicate BitsOwned(d: Disk)
    requires Shape(d)
  {
    forall z :: InZone(d, z) ==> (Bit(d, z) <==> Owned(d, z))
  }

  ghost predicate Inv(d: Disk)
    ensures Inv(d) ==> Shape(d)
  {
    Shape(d) && d.bits[0] && PointersInRange(d) && NoSharing(d) && BitsOwned(d)
  }

  lemma ZoneOf(d: Disk, l: Loc)
    requires Inv(d) && IsLoc(d, l) && Ptr(d, l) != 0
    ensures InZone(d, Ptr(d, l)) && 0 <= Ptr(d, l) < |d.blocks| && |d.blocks[Ptr(d, l)]| == BLOCK_SIZE
  {
  }

  // ----- storing a zone number

  /** The index block that holds a location, 0 for the inode itself. */
  function Parent(d: Disk, l: Loc): int
    requires Shape(d) && IsLoc(d, l)
  {
    match l
    case Direct(_, _) => 0
    case Ind(_) => 0
    case IndLeaf(n, _) => d.zones[n][7]
    case Dind(_) => 0
    case DindMid(n, _) => d.zones[n][8]
    case DindLeaf(n, k, _) => At(d, d.zones[n][8], k)
  }

  predicate InInode(l: Loc) {
    l.Direct? || l.Ind? || l.Dind?
  }

  function Slot(l: Loc): int {
    match l
    case Direct(_, k) => k
    case Ind(_) => 7
    case IndLeaf(_, k) => k
    case Dind(_) => 8
    case DindMid(_, k) => k
    case DindLeaf(_, _, j) => j
  }

  /** Location l now says z. */
  function Store(d: Disk, l: Loc, z: int): Disk
    requires Shape(d) && IsLoc(d, l) && 0 <= z && (InInode(l) || 0 < Parent(d, l) < d.nzones)
  {
    if InInode(l) then d.(zones := d.zones[l.n := d.zones[l.n][Slot(l) := z]])
    else d.(blocks := d.blocks[Parent(d, l) := Put16(d.blocks[Parent(d, l)], Slot(l), z)])
  }

  /** new_block's share: the zone's bit is set and its contents are cleared. */
  function Claim(d: Disk, z: int): Disk
    requires Shape(d) && InZone(d, z)
  {
    d.(bits := d.bits[z - d.first + 1 := true], blocks := d.blocks[z := Zeros()])
  }

  lemma ClaimPtr(d: Disk, z: int)
    requires Inv(d) && InZone(d, z) && !Bit(d, z)
    ensures Shape(Claim(d, z)) && forall l :: IsLoc(d, l) ==> IsLoc(Claim(d, z), l) && Ptr(Claim(d, z), l) == Ptr(d, l)
  {
    var e := Claim(d, z);
    forall l | IsLoc(d, l) ensures Ptr(e, l) == Ptr(d, l) {
      NotOwned(d, l, z);
      match l
      case IndLeaf(n, k) => NotOwned(d, Ind(n), z);
      case DindMid(n, k) => NotOwned(d, Dind(n), z);
      case DindLeaf(n, k, j) => NotOwned(d, Dind(n), z); NotOwned(d, DindMid(n, k), z);
      case _ =>
    }
  }

  lemma NotOwned(d: Disk, l: Loc, z: int)
    requires Inv(d) && InZone(d, z) && !Bit(d, z) && IsLoc(d, l)
    ensures Ptr(d, l) != z
  {
    assert !Owned(d, z);
  }

  function Up(l: Loc): Loc
    requires !InInode(l)
  {
    match l
    case IndLeaf(n, _) => Ind(n)
    case DindMid(n, _) => Dind(n)
    case DindLeaf(n, k, _) => DindMid(n, k)
    case _ => l
  }

  lemma ParentIsPtr(d: Disk, l: Loc)
    requires Shape(d) && IsLoc(d, l) && !InInode(l)
    ensures IsLoc(d, Up(l)) && Parent(d, l) == Ptr(d, Up(l))
    ensures Ptr(d, l) == At(d, Parent(d, l), Slot(l))
  {
  }

  /** Storing a fresh zone number at an empty location changes that location and no other. */
  lemma StorePtr(d: Disk, l: Loc, z: int)
    requires Inv(d) && InZone(d, z) && !Bit(d, z) && IsLoc(d, l) && Ptr(d, l) == 0 && (InInode(l) || Parent(d, l) != 0)
    ensures var c := Claim(d, z); Shape(c) && IsLoc(c, l) && (InInode(l) || (0 < Parent(c, l) < d.nzones && Parent(c, l) == Parent(d, l)))
    ensures var e := Store(Claim(d, z), l, z);
      Shape(e) && forall m :: IsLoc(d, m) ==> IsLoc(e, m) && Ptr(e, m) == if m == l then z else Ptr(d, m)
  {
    ClaimPtr(d, z);
    var c := Claim(d, z);
    if InInode(l) {
      StoreInInode(c, l, z);
    } else {
      ParentIsPtr(d, l);
      ParentIsPtr(c, l);
      StoreInBlock(c, l, z);
    }
  }

  lemma StoreInInode(c: Disk, l: Loc, z: int)
    requires Shape(c) && InZone(c, z) && IsLoc(c, l) && InInode(l) && Ptr(c, l) == 0 && c.blocks[z] == Zeros()
    ensures var e := Store(c, l, z);
      Shape(e) && forall m :: IsLoc(c, m) ==> IsLoc(e, m) && Ptr(e, m) == if m == l then z else Ptr(c, m)
  {
    assert forall k :: 0 <= k < ENTRIES ==> U16(c.blocks[z], k) == 0;
  }

  lemma StoreInBlock(c: Disk, l: Loc, z: int)
    requires Shape(c) && PointersInRange(c) && NoSharing(c) && InZone(c, z) && IsLoc(c, l) && !InInode(l) && Ptr(c, l) == 0
    requires 0 < Parent(c, l) < c.nzones && c.blocks[z] == Zeros() && forall m :: IsLoc(c, m) ==> Ptr(c, m) != z
    ensures var e := Store(c, l, z);
      Shape(e) && forall m :: IsLoc(c, m) ==> IsLoc(e, m) && Ptr(e, m) == if m == l then z else Ptr(c, m)
  {
    var e, p := Store(c, l, z), Parent(c, l);
    ParentIsPtr(c, l);
    assert e.blocks[z] == c.blocks[z];
    assert forall k :: 0 <= k < ENTRIES ==> U16(c.blocks[z], k) == 0;
    forall m | IsLoc(c, m) ensures Ptr(e, m) == if m == l then z else Ptr(c, m) {
      match m
      case IndLeaf(n, k) => OneEntry(c, l, z, Ind(n), k);
      case DindMid(n, k) => OneEntry(c, l, z, Dind(n), k);
      case DindLeaf(n, k, j) =>
        OneEntry(c, l, z, Dind(n), k);
        if DindMid(n, k) != l { OneEntry(c, l, z, DindMid(n, k), j); }
      case _ =>
    }
  }

  /** Entry k of the block that location u refers to. */
  lemma OneEntry(c: Disk, l: Loc, z: int, u: Loc, k: int)
    requires Shape(c) && PointersInRange(c) && NoSharing(c) && InZone(c, z) && IsLoc(c, l) && !InInode(l) && 0 < Parent(c, l) < c.nzones
    requires IsLoc(c, u) && 0 <= k < ENTRIES
    ensures var e := Store(c, l, z);
      Shape(e) && At(e, Ptr(c, u), k) == if u == Up(l) && k == Slot(l) then z else At(c, Ptr(c, u), k)
  {
    ParentIsPtr(c, l);
    if u != Up(l) {
      assert Ptr(c, u) != Parent(c, l);
    }
  }

  /** new_block followed by the store keeps the ownership of every zone. */
  lemma StoreKeeps(d: Disk, l: Loc, z: int)
    requires Inv(d) && InZone(d, z) && !Bit(d, z) && IsLoc(d, l) && Ptr(d, l) == 0 && (InInode(l) || Parent(d, l) != 0)
    ensures var c := Claim(d, z); Shape(c) && IsLoc(c, l) && (InInode(l) || 0 < Parent(c, l) < d.nzones)
    ensures Inv(Store(Claim(d, z), l, z))
  {
    StorePtr(d, l, z);
    var e := Store(Claim(d, z), l, z);
    forall m | IsLoc(e, m) ensures IsLoc(d, m) && Ptr(e, m) == if m == l then z else Ptr(d, m) { assert IsLoc(d, m); }
    forall m, o | IsLoc(e, m) && IsLoc(e, o) && Ptr(e, m) == Ptr(e, o) != 0 ensures m == o {
      NotOwned(d, m, z);
      NotOwned(d, o, z);
    }
    assert Ptr(e, l) == z;
    forall y | InZone(e, y) ensures Bit(e, y) <==> Owned(e, y) {
      assert Bit(e, y) <==> (y == z || Bit(d, y));
      if y != z && Owned(d, y) {
        var m :| IsLoc(d, m) && Ptr(d, m) == y;
        assert Ptr(e, m) == y;
      }
    }
  }

  /** Equal on bit 0 and on the bits of the zones: bits beyond the device may differ. */
  predicate SameZoneBits(d: Disk, bits: seq<bool>)
    requires Shape(d)
  {
    |bits| == |d.bits| && forall k :: 0 <= k <= d.nzones - d.first ==> bits[k] == d.bits[k]
  }

  /** A bit beyond the device's zones, which new_block may set, belongs to no zone. */
  lemma SpareBitsKeep(d: Disk, bits: seq<bool>)
    requires Inv(d) && SameZoneBits(d, bits)
    ensures Inv(d.(bits := bits))
  {
    var e := d.(bits := bits);
    assert forall m :: IsLoc(d, m) ==> Ptr(e, m) == Ptr(d, m);
    forall y | InZone(e, y) ensures Bit(e, y) <==> Owned(e, y) {
      if Owned(d, y) {
        var m :| IsLoc(d, m) && Ptr(d, m) == y;
        assert Ptr(e, m) == y;
      }
    }
  }

  // ----- truncation

  ghost predicate InTree(d: Disk, n: int, z: int)
    requires Shape(d)
  {
    z != 0 && exists l :: IsLoc(d, l) && l.n == n && Ptr(d, l) == z
  }

  /** d after inode n has been truncated while others use the buffers of the busy zones. */
  ghost predicate Truncated(d: Disk, n: int, busy: set<int>, e: Disk)
    requires Shape(d) && 0 <= n < |d.zones|
  {
    && Shape(e) && e.first == d.first && e.nzones == d.nzones && e.blocks == d.blocks && |e.bits| == |d.bits| && e.bits[0]
    && e.zones == d.zones[n := [0, 0, 0, 0, 0, 0, 0, 0, 0]]
    && forall z :: InZone(d, z) ==> (Bit(e, z) <==> Bit(d, z) && !(InTree(d, n, z) && z !in busy))
  }

  lemma TruncatedPtr(d: Disk, n: int, busy: set<int>, e: Disk)
    requires Shape(d) && 0 <= n < |d.zones| && Truncated(d, n, busy, e)
    ensures forall m :: IsLoc(d, m) <==> IsLoc(e, m)
    ensures forall m :: IsLoc(d, m) ==> Ptr(e, m) == if m.n == n then 0 else Ptr(d, m)
  {
  }

  /** truncate keeps zone ownership exactly when nobody else uses a buffer of the file: a busy
      zone keeps its bit although nothing refers to it any more. */
  lemma TruncateKeeps(d: Disk, n: int, busy: set<int>, e: Disk)
    requires Inv(d) && 0 <= n < |d.zones| && Truncated(d, n, busy, e)
    ensures Inv(e) <==> forall z :: InTree(d, n, z) ==> z !in busy
  {
    TruncatedPtr(d, n, busy, e);
    forall y | InZone(e, y) ensures Owned(e, y) <==> Owned(d, y) && !InTree(d, n, y) {
      if Owned(e, y) {
        var m :| IsLoc(e, m) && Ptr(e, m) == y;
        assert Ptr(d, m) == y;
      }
      if Owned(d, y) && !InTree(d, n, y) {
        var m :| IsLoc(d, m) && Ptr(d, m) == y;
        assert Ptr(e, m) == y;
      }
    }
    if z :| InTree(d, n, z) && z in busy {
      assert InZone(d, z) && Owned(d, z) && !Owned(e, z) && Bit(e, z);
    }
  }

  /** The bitmap while a file is being freed: the zones at the done locations have lost their
      bits, except the busy ones. */
  ghost predicate Progress(d: Disk, bits: seq<bool>, busy: set<int>, done: iset<Loc>)
    requires Inv(d)
    ensures Progress(d, bits, busy, done) ==> |bits| == |d.bits|
  {
    && |bits| == |d.bits| && bits[0]
    && (forall l :: IsLoc(d, l) && Ptr(d, l) != 0 ==> (bits[Ptr(d, l) - d.first + 1] <==> !(l in done && Ptr(d, l) !in busy)))
    && (forall z :: InZone(d, z) && !Owned(d, z) ==> !bits[z - d.first + 1])
  }

  lemma ProgressStart(d: Disk, busy: set<int>)
    requires Inv(d)
    ensures Progress(d, d.bits, busy, iset{})
  {
    forall l | IsLoc(d, l) && Ptr(d, l) != 0 ensures d.bits[Ptr(d, l) - d.first + 1] {
      assert Bit(d, Ptr(d, l));
    }
    forall z | InZone(d, z) && !Owned(d, z) ensures !d.bits[z - d.first + 1] {
      assert !Bit(d, z);
    }
  }

  function Without(d: Disk, bits: seq<bool>, busy: set<int>, z: int): seq<bool>
    requires Inv(d) && |bits| == |d.bits| && (z == 0 || InZone(d, z))
  {
    if z == 0 || z in busy then bits else bits[z - d.first + 1 := false]
  }

  /** Freeing the zone at one more location. */
  lemma ProgressStep(d: Disk, bits: seq<bool>, busy: set<int>, done: iset<Loc>, l: Loc)
    requires Inv(d) && Progress(d, bits, busy, done) && IsLoc(d, l) && l !in done
    ensures var z := Ptr(d, l); z == 0 || (InZone(d, z) && (z !in busy ==> bits[z - d.first + 1]))
    ensures Progress(d, Without(d, bits, busy, Ptr(d, l)), busy, done + iset{l})
  {
    var z := Ptr(d, l);
    var after := Without(d, bits, busy, z);
    forall m | IsLoc(d, m) && Ptr(d, m) != 0
      ensures after[Ptr(d, m) - d.first + 1] <==> !(m in done + iset{l} && Ptr(d, m) !in busy)
    {
      assert bits[Ptr(d, m) - d.first + 1] <==> !(m in done && Ptr(d, m) !in busy);
    }
  }

  /** Only locations that hold a zone matter. */
  lemma ProgressSame(d: Disk, bits: seq<bool>, busy: set<int>, done: iset<Loc>, also: iset<Loc>)
    requires Inv(d) && Progress(d, bits, busy, done)
    requires forall l :: IsLoc(d, l) && Ptr(d, l) != 0 ==> (l in done <==> l in also)
    ensures Progress(d, bits, busy, also)
  {
  }

  lemma ProgressEnd(d: Disk, n: int, busy: set<int>, bits: seq<bool>)
    requires Inv(d) && 0 <= n < |d.zones| && Progress(d, bits, busy, iset l: Loc | l.n == n)
    ensures Truncated(d, n, busy, d.(bits := bits, zones := d.zones[n := [0, 0, 0, 0, 0, 0, 0, 0, 0]]))
  {
    var e := d.(bits := bits, zones := d.zones[n := [0, 0, 0, 0, 0, 0, 0, 0, 0]]);
    forall z | InZone(d, z) ensures Bit(e, z) <==> Bit(d, z) && !(InTree(d, n, z) && z !in busy) {
      if Owned(d, z) {
        var l :| IsLoc(d, l) && Ptr(d, l) == z;
        assert Bit(d, z);
        assert bits[Ptr(d, l) - d.first + 1] <==> !(l.n == n && z !in busy);
        assert InTree(d, n, z) <==> l.n == n;
      }
    }
  }

  ghost function Directs(n: int, k: int): iset<Loc> {
    iset l: Loc | l.n == n && l.Direct? && l.k < k
  }

  /** The first k entries of the index block that location u refers to. */
  ghost function Kids(u: Loc, k: int): iset<Loc> {
    iset l: Loc | !InInode(l) && Up(l) == u && Slot(l) < k
  }

  /** All below the first k entries of the double-indirect block of inode n. */
  ghost function Grandkids(n: int, k: int): iset<Loc> {
    iset l: Loc | l.n == n && ((l.DindMid? || l.DindLeaf?) && l.k < k)
  }

  function Kid(u: Loc, k: int): Loc
    requires u.Ind? || u.DindMid?
  {
    if u.Ind? then IndLeaf(u.n, k) else DindLeaf(u.n, u.k, k)
  }

  lemma KidStep(d: Disk, bits: seq<bool>, busy: set<int>, done: iset<Loc>, u: Loc, k: int)
    requires Inv(d) && 0 <= k < ENTRIES && Progress(d, bits, busy, done + Kids(u, k))
    requires (u.Ind? || u.DindMid?) && IsLoc(d, u) && Ptr(d, u) != 0 && done !! Kids(u, ENTRIES)
    ensures var z := At(d, Ptr(d, u), k); z == 0 || (InZone(d, z) && (z !in busy ==> bits[z - d.first + 1]))
    ensures Progress(d, Without(d, bits, busy, At(d, Ptr(d, u), k)), busy, done + Kids(u, k + 1))
  {
    hide Inv, Progress;
    var l := Kid(u, k);
    assert IsLoc(d, l) && Ptr(d, l) == At(d, Ptr(d, u), k);
    assert l in Kids(u, ENTRIES) && l !in Kids(u, k);
    ProgressStep(d, bits, busy, done + Kids(u, k), l);
    assert done + Kids(u, k) + iset{l} == done + Kids(u, k + 1);
  }

  lemma NoKids(d: Disk, bits: seq<bool>, busy: set<int>, done: iset<Loc>, u: Loc)
    requires Inv(d) && Progress(d, bits, busy, done) && (u.Ind? || u.DindMid?) && IsLoc(d, u)
    ensures Progress(d, bits, busy, done + Kids(u, 0))
    ensures Ptr(d, u) == 0 ==> Progress(d, bits, busy, done + Kids(u, ENTRIES) + iset{u})
  {
    ProgressSame(d, bits, busy, done, done + Kids(u, 0));
    if Ptr(d, u) == 0 { ProgressSame(d, bits, busy, done, done + Kids(u, ENTRIES) + iset{u}); }
  }

  lemma GrandkidStep(d: Disk, done: iset<Loc>, n: int, k: int)
    requires Inv(d) && 0 <= k < ENTRIES && IsLoc(d, Dind(n)) && Dind(n) !in done && done !! Grandkids(n, ENTRIES)
    ensures var u := DindMid(n, k); IsLoc(d, u) && u !in done + Grandkids(n, k) && (done + Grandkids(n, k)) !! Kids(u, ENTRIES)
    ensures var u := DindMid(n, k);
      forall l :: IsLoc(d, l) ==> (l in done + Grandkids(n, k) + Kids(u, ENTRIES) + iset{u} <==> l in done + Grandkids(n, k + 1))
  {
    var u := DindMid(n, k);
    forall l | l in Kids(u, ENTRIES) ensures l !in done + Grandkids(n, k) {
      assert l.n == n && l.DindLeaf? && l.k == k;
      assert l in Grandkids(n, ENTRIES);
    }
    assert u in Grandkids(n, ENTRIES);
  }

  // ----- file contents

  predicate IsBlock(k: int) {
    0 <= k < MAX_BLOCK
  }

  /** Where the zone number of file block k is stored. */
  function Leaf(n: int, k: int): (l: Loc)
    requires IsBlock(k)
    ensures l.n == n
  {
    if k < 7 then Direct(n, k)
    else if k - 7 < ENTRIES then IndLeaf(n, k - 7)
    else DindLeaf(n, (k - 7 - ENTRIES) / ENTRIES, (k - 7 - ENTRIES) % ENTRIES)
  }

  lemma LeafLoc(d: Disk, n: int, k: int)
    requires 0 <= n < |d.zones| && IsBlock(k)
    ensures IsLoc(d, Leaf(n, k))
  {
  }

  lemma LeafInjective(n: int, k: int, m: int, j: int)
    requires IsBlock(k) && IsBlock(j) && Leaf(n, k) == Leaf(m, j)
    ensures n == m && k == j
  {
  }

  /** Byte i of file block k: what is not mapped reads as zero. */
  function ByteIn(d: Disk, n: int, k: int, i: int): int
    requires Shape(d) && 0 <= n < |d.zones| && IsBlock(k) && 0 <= i < BLOCK_SIZE
  {
    LeafLoc(d, n, k);
    var z := Ptr(d, Leaf(n, k));
    if 0 < z < d.nzones then d.blocks[z][i] else 0
  }

  ghost predicate SameBytes(d: Disk, e: Disk)
    requires Shape(d) && Shape(e) && |d.zones| == |e.zones|
  {
    forall n, k, i :: 0 <= n < |d.zones| && IsBlock(k) && 0 <= i < BLOCK_SIZE ==> ByteIn(e, n, k, i) == ByteIn(d, n, k, i)
  }

  /** Growing a tree by a cleared zone, index block or data block, changes no byte of any file. */
  lemma StoreBytes(d: Disk, l: Loc, z: int)
    requires Inv(d) && InZone(d, z) && !Bit(d, z) && IsLoc(d, l) && Ptr(d, l) == 0 && (InInode(l) || Parent(d, l) != 0)
    ensures var c := Claim(d, z); Shape(c) && IsLoc(c, l) && (InInode(l) || 0 < Parent(c, l) < d.nzones)
    ensures var e := Store(Claim(d, z), l, z); Shape(e) && |e.zones| == |d.zones| && SameBytes(d, e)
  {
    StorePtr(d, l, z);
    var e := Store(Claim(d, z), l, z);
    forall n, k, i | 0 <= n < |d.zones| && IsBlock(k) && 0 <= i < BLOCK_SIZE
      ensures ByteIn(e, n, k, i) == ByteIn(d, n, k, i)
    {
      StoreByte(d, l, z, n, k, i);
    }
  }

  lemma StoreByte(d: Disk, l: Loc, z: int, n: int, k: int, i: int)
    requires Inv(d) && InZone(d, z) && !Bit(d, z) && IsLoc(d, l) && Ptr(d, l) == 0 && (InInode(l) || Parent(d, l) != 0)
    requires 0 <= n < |d.zones| && IsBlock(k) && 0 <= i < BLOCK_SIZE
    ensures var c := Claim(d, z); Shape(c) && IsLoc(c, l) && (InInode(l) || 0 < Parent(c, l) < d.nzones)
    ensures var e := Store(Claim(d, z), l, z); Shape(e) && |e.zones| == |d.zones| && ByteIn(e, n, k, i) == ByteIn(d, n, k, i)
  {
    StorePtr(d, l, z);
    LeafLoc(d, n, k);
    NotOwned(d, Leaf(n, k), z);
    if !InInode(l) {
      ParentIsPtr(d, l);
      NotOwned(d, Up(l), z);
      assert Up(l) != Leaf(n, k);
      assert Parent(Claim(d, z), l) == Parent(d, l);
    }
  }

  /** copying data into the zone of one file block */
  function Overwrite(b: Block, c: int, data: seq<int>): Block
    requires |b| == BLOCK_SIZE && 0 <= c && c + |data| <= BLOCK_SIZE
  {
    b[..c] + data + b[c + |data|..]
  }

  lemma WriteBytes(d: Disk, n: int, k: int, c: int, data: seq<int>)
    requires Inv(d) && 0 <= n < |d.zones| && IsBlock(k) && 0 <= c && c + |data| <= BLOCK_SIZE
    requires IsLoc(d, Leaf(n, k)) && Ptr(d, Leaf(n, k)) != 0
    ensures InZone(d, Ptr(d, Leaf(n, k)))
    ensures var z := Ptr(d, Leaf(n, k)); var e := d.(blocks := d.blocks[z := Overwrite(d.blocks[z], c, data)]);
      && Inv(e)
      && (forall m :: IsLoc(d, m) ==> Ptr(e, m) == Ptr(d, m))
      && (forall m, j, i :: 0 <= m < |d.zones| && IsBlock(j) && 0 <= i < BLOCK_SIZE ==>
           ByteIn(e, m, j, i) == if m == n && j == k && c <= i < c + |data| then data[i - c] else ByteIn(d, m, j, i))
  {
    WritePtr(d, n, k, Overwrite(d.blocks[Ptr(d, Leaf(n, k))], c, data));
    var z := Ptr(d, Leaf(n, k));
    var e := d.(blocks := d.blocks[z := Overwrite(d.blocks[z], c, data)]);
    forall m, j, i | 0 <= m < |d.zones| && IsBlock(j) && 0 <= i < BLOCK_SIZE
      ensures ByteIn(e, m, j, i) == if m == n && j == k && c <= i < c + |data| then data[i - c] else ByteIn(d, m, j, i)
    {
      LeafLoc(d, m, j);
      if Ptr(d, Leaf(m, j)) == z { LeafInjective(m, j, n, k); }
    }
  }

  lemma WritePtr(d: Disk, n: int, k: int, b: Block)
    requires Inv(d) && 0 <= n < |d.zones| && IsBlock(k) && |b| == BLOCK_SIZE
    requires IsLoc(d, Leaf(n, k)) && Ptr(d, Leaf(n, k)) != 0
    ensures InZone(d, Ptr(d, Leaf(n, k)))
    ensures var e := d.(blocks := d.blocks[Ptr(d, Leaf(n, k)) := b]);
      Inv(e) && forall m :: IsLoc(d, m) ==> Ptr(e, m) == Ptr(d, m)
  {
    var z := Ptr(d, Leaf(n, k));
    var e := d.(blocks := d.blocks[z := b]);
    forall m | IsLoc(d, m) ensures Ptr(e, m) == Ptr(d, m) {
      match m
      case IndLeaf(q, _) => assert Ptr(d, Ind(q)) != z;
      case DindMid(q, _) => assert Ptr(d, Dind(q)) != z;
      case DindLeaf(q, i, _) => assert Ptr(d, Dind(q)) != z && Ptr(d, DindMid(q, i)) != z;
      case _ =>
    }
    forall y | InZone(e, y) ensures Bit(e, y) <==> Owned(e, y) {
      if Owned(d, y) {
        var m :| IsLoc(d, m) && Ptr(d, m) == y;
        assert Ptr(e, m) == y;
      }
    }
  }

  // ----- growing a tree

  /** The index blocks a location hangs from, and itself. */
  predicate OnPath(m: Loc, l: Loc) {
    m == l || (!InInode(l) && (m == Up(l) || (!InInode(Up(l)) && m == Up(Up(l)))))
  }

  /** e is d after zones were added on the way to l: nothing else changed. */
  ghost predicate Grown(d: Disk, e: Disk, l: Loc)
    requires Inv(d)
    ensures Grown(d, e, l) ==> Inv(e) && |e.zones| == |d.zones|
  {
    && Inv(e) && e.first == d.first && e.nzones == d.nzones && |e.zones| == |d.zones| && |e.bits| == |d.bits|
    && SameBytes(d, e)
    && forall m :: IsLoc(d, m) ==> Ptr(e, m) == Ptr(d, m) || (Ptr(d, m) == 0 && OnPath(m, l))
  }

  ghost predicate Full(d: Disk)
    requires Shape(d)
  {
    forall z :: InZone(d, z) ==> Bit(d, z)
  }

  lemma GrownBy(d: Disk, l: Loc, z: int)
    requires Inv(d) && InZone(d, z) && !Bit(d, z) && IsLoc(d, l) && Ptr(d, l) == 0 && (InInode(l) || Parent(d, l) != 0)
    ensures var c := Claim(d, z); Shape(c) && IsLoc(c, l) && (InInode(l) || (0 < Parent(c, l) < d.nzones && Parent(c, l) == Parent(d, l)))
    ensures var e := Store(Claim(d, z), l, z); Grown(d, e, l) && IsLoc(e, l) && Ptr(e, l) == z
  {
    StorePtr(d, l, z);
    StoreKeeps(d, l, z);
    StoreBytes(d, l, z);
  }

  lemma GrownSpare(d: Disk, bits: seq<bool>, l: Loc)
    requires Inv(d) && SameZoneBits(d, bits)
    ensures Grown(d, d.(bits := bits), l) && (Full(d) ==> Full(d.(bits := bits)))
  {
    SpareBitsKeep(d, bits);
    var e := d.(bits := bits);
    assert forall y :: InZone(d, y) ==> Bit(e, y) == Bit(d, y);
    assert forall m :: IsLoc(d, m) ==> Ptr(e, m) == Ptr(d, m);
  }

  lemma GrownOn(d: Disk, e: Disk, m: Loc, l: Loc)
    requires Inv(d) && Grown(d, e, m) && OnPath(m, l)
    ensures Grown(d, e, l)
  {
    forall q | IsLoc(d, q) ensures Ptr(e, q) == Ptr(d, q) || (Ptr(d, q) == 0 && OnPath(q, l)) {
      if OnPath(q, m) { PathUp(q, m, l); }
    }
  }

  lemma GrownTwice(d: Disk, e: Disk, f: Disk, m: Loc, l: Loc)
    requires Inv(d) && Grown(d, e, m) && Grown(e, f, l) && OnPath(m, l)
    ensures Grown(d, f, l)
  {
    forall n, k, i | 0 <= n < |d.zones| && IsBlock(k) && 0 <= i < BLOCK_SIZE ensures ByteIn(f, n, k, i) == ByteIn(d, n, k, i) {
      assert ByteIn(e, n, k, i) == ByteIn(d, n, k, i);
    }
    forall q | IsLoc(d, q) ensures Ptr(f, q) == Ptr(d, q) || (Ptr(d, q) == 0 && OnPath(q, l)) {
      assert IsLoc(e, q);
      if OnPath(q, m) { PathUp(q, m, l); }
    }
  }

  lemma PathUp(q: Loc, m: Loc, l: Loc)
    requires OnPath(q, m) && OnPath(m, l)
    ensures OnPath(q, l)
  {
  }

  // ----- which zones a growing file takes

  /** A location and the index blocks it hangs from. */
  function Above(l: Loc): (s: set<Loc>)
    ensures forall m :: m in s <==> OnPath(m, l)
  {
    if InInode(l) then {l} else if InInode(Up(l)) then {l, Up(l)} else {l, Up(l), Up(Up(l))}
  }

  /** Where the zone numbers of file blocks a up to b, and of the index blocks above them, are stored. */
  ghost function Paths(n: int, a: int, b: int): set<Loc>
    requires 0 <= a && b <= MAX_BLOCK
  {
    set k, m | a <= k < b && m in Above(Leaf(n, k)) :: m
  }

  lemma PathsLoc(d: Disk, n: int, a: int, b: int)
    requires 0 <= n < |d.zones| && 0 <= a && b <= MAX_BLOCK
    ensures forall l :: l in Paths(n, a, b) ==> IsLoc(d, l)
  {
    forall l | l in Paths(n, a, b) ensures IsLoc(d, l) {
      var k :| a <= k < b && l in Above(Leaf(n, k));
      LeafLoc(d, n, k);
    }
  }

  /** The locations of these paths that hold no zone yet. */
  ghost function Missing(d: Disk, n: int, a: int, b: int): set<Loc>
    requires Shape(d) && 0 <= n < |d.zones| && 0 <= a && b <= MAX_BLOCK
  {
    PathsLoc(d, n, a, b);
    set l | l in Paths(n, a, b) && Ptr(d, l) == 0
  }

  ghost function FreeZones(d: Disk): set<int>
    requires Shape(d)
  {
    set z | d.first <= z < d.nzones && !Bit(d, z)
  }

  /** What was mapped still is. */
  ghost predicate Extends(d: Disk, e: Disk)
    requires Shape(d)
  {
    && Shape(e) && e.first == d.first && e.nzones == d.nzones && |e.zones| == |d.zones|
    && forall l :: IsLoc(d, l) && Ptr(d, l) != 0 ==> Ptr(e, l) == Ptr(d, l)
  }

  /** What is newly mapped is on the way to file blocks a up to b. */
  ghost predicate MapsOn(d: Disk, e: Disk, n: int, a: int, b: int)
    requires Shape(d) && Shape(e) && |e.zones| == |d.zones| && 0 <= a && b <= MAX_BLOCK
  {
    forall l :: IsLoc(d, l) && Ptr(d, l) == 0 && Ptr(e, l) != 0 ==> l in Paths(n, a, b)
  }

  /** File blocks a up to b are mapped. */
  ghost predicate Reached(e: Disk, n: int, a: int, b: int)
    requires Shape(e) && 0 <= n < |e.zones| && 0 <= a && b <= MAX_BLOCK
  {
    forall k :: a <= k < b ==> Ptr(e, LeafOf(e, n, k)) != 0
  }

  ghost function LeafOf(d: Disk, n: int, k: int): (l: Loc)
    requires 0 <= n < |d.zones| && IsBlock(k)
    ensures l == Leaf(n, k) && IsLoc(d, l)
  {
    LeafLoc(d, n, k);
    Leaf(n, k)
  }

  /** The zones that the given locations refer to. */
  ghost function ZonesAt(e: Disk, s: set<Loc>): set<int>
    requires Shape(e) && forall l :: l in s ==> IsLoc(e, l)
  {
    set l | l in s :: Ptr(e, l)
  }

  lemma {:induction false} AsManyZones(e: Disk, s: set<Loc>)
    requires Shape(e) && forall l :: l in s ==> IsLoc(e, l)
    requires forall l, m :: l in s && m in s && Ptr(e, l) == Ptr(e, m) ==> l == m
    ensures |ZonesAt(e, s)| == |s|
    decreases |s|
  {
    if l :| l in s {
      AsManyZones(e, s - {l});
      assert s == s - {l} + {l};
      assert ZonesAt(e, s) == ZonesAt(e, s - {l}) + {Ptr(e, l)};
    }
  }

  /** Zones are neither lost nor made: every newly mapped location took one free zone. */
  lemma ZonesConserved(d: Disk, e: Disk, n: int, a: int, b: int)
    requires Inv(d) && Inv(e) && Extends(d, e) && 0 <= n < |d.zones| && 0 <= a && b <= MAX_BLOCK && MapsOn(d, e, n, a, b)
    ensures Missing(e, n, a, b) <= Missing(d, n, a, b)
    ensures |Missing(d, n, a, b)| + |FreeZones(e)| == |Missing(e, n, a, b)| + |FreeZones(d)|
  {
    MissingLess(d, e, n, a, b);
    NoNewFree(d, e);
    TakenZones(d, e, n, a, b);
    hide Inv, Missing, FreeZones, ZonesAt, Extends, MapsOn;
    var s, t := Missing(d, n, a, b) - Missing(e, n, a, b), FreeZones(d) - FreeZones(e);
    AsManyZones(e, s);
    assert Missing(d, n, a, b) == s + Missing(e, n, a, b) && FreeZones(d) == t + FreeZones(e);
  }

  lemma MissingLess(d: Disk, e: Disk, n: int, a: int, b: int)
    requires Shape(d) && Extends(d, e) && 0 <= n < |d.zones| && 0 <= a && b <= MAX_BLOCK
    ensures Missing(e, n, a, b) <= Missing(d, n, a, b)
  {
    PathsLoc(d, n, a, b);
  }

  lemma NoNewFree(d: Disk, e: Disk)
    requires Inv(d) && Inv(e) && Extends(d, e)
    ensures FreeZones(e) <= FreeZones(d)
  {
    hide Inv;
    forall z | z in FreeZones(e) ensures z in FreeZones(d) { StillFree(d, e, z); }
  }

  lemma TakenZones(d: Disk, e: Disk, n: int, a: int, b: int)
    requires Inv(d) && Inv(e) && Extends(d, e) && 0 <= n < |d.zones| && 0 <= a && b <= MAX_BLOCK && MapsOn(d, e, n, a, b)
    ensures var s := Missing(d, n, a, b) - Missing(e, n, a, b);
      && (forall l :: l in s ==> IsLoc(e, l)) && (forall l, m :: l in s && m in s && Ptr(e, l) == Ptr(e, m) ==> l == m)
      && ZonesAt(e, s) == FreeZones(d) - FreeZones(e)
  {
    PathsLoc(d, n, a, b);
    PathsLoc(e, n, a, b);
    var s, t := Missing(d, n, a, b) - Missing(e, n, a, b), FreeZones(d) - FreeZones(e);
    forall l | l in s ensures Ptr(e, l) in t { TakenWasFree(d, e, l); }
    forall z | z in t ensures exists l :: l in s && Ptr(e, l) == z { TakenByOne(d, e, n, a, b, z); }
    assert ZonesAt(e, s) == t;
  }

  lemma TakenWasFree(d: Disk, e: Disk, l: Loc)
    requires Inv(d) && Inv(e) && Extends(d, e) && IsLoc(d, l) && Ptr(d, l) == 0 && Ptr(e, l) != 0
    ensures Ptr(e, l) in FreeZones(d) && Ptr(e, l) !in FreeZones(e)
  {
    var z := Ptr(e, l);
    assert IsLoc(e, l) && Owned(e, z);
    forall m | IsLoc(d, m) ensures Ptr(d, m) != z { assert Ptr(d, m) != 0 ==> Ptr(e, m) == Ptr(d, m); }
    assert Bit(d, z) <==> Owned(d, z);
  }

  lemma TakenByOne(d: Disk, e: Disk, n: int, a: int, b: int, z: int)
    requires Inv(d) && Inv(e) && Extends(d, e) && 0 <= n < |d.zones| && 0 <= a && b <= MAX_BLOCK && MapsOn(d, e, n, a, b)
    requires z in FreeZones(d) && z !in FreeZones(e)
    ensures exists l :: l in Missing(d, n, a, b) && l !in Missing(e, n, a, b) && IsLoc(e, l) && Ptr(e, l) == z
  {
    var l :| IsLoc(e, l) && Ptr(e, l) == z;
    assert IsLoc(d, l);
    NotOwned(d, l, z);
    assert l in Paths(n, a, b);
  }

  lemma StillFree(d: Disk, e: Disk, z: int)
    requires Inv(d) && Inv(e) && Extends(d, e) && InZone(d, z)
    ensures Bit(d, z) ==> Bit(e, z)
  {
    if Bit(d, z) {
      var m :| IsLoc(d, m) && Ptr(d, m) == z;
      assert IsLoc(e, m) && Ptr(e, m) == z;
      assert Owned(e, z);
    }
  }

  /** Blocks that are mapped have mapped index blocks above them. */
  lemma ReachedAll(e: Disk, n: int, a: int, b: int)
    requires Shape(e) && 0 <= n < |e.zones| && 0 <= a && b <= MAX_BLOCK && Reached(e, n, a, b)
    ensures Missing(e, n, a, b) == {}
  {
    PathsLoc(e, n, a, b);
    forall l | l in Paths(n, a, b) ensures Ptr(e, l) != 0 {
      var k :| a <= k < b && l in Above(Leaf(n, k));
      assert Ptr(e, LeafOf(e, n, k)) != 0;
    }
  }
}
