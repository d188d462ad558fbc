/**
 The file system operations on the block trees: fs/bitmap.c, _bmap of fs/inode.c,
 fs/truncate.c and fs/file_dev.c, against the value model of ZoneTree.
 */
module FileSystem {
  import opened ZoneTree

  const MAP_BITS: int := 8192
  const MAX_SIZE: int := MAX_BLOCK * BLOCK_SIZE

  /** struct file: the position and the O_APPEND flag. */
  class OpenFile {
    var pos: int
    const append: bool

    constructor (pos: int, append: bool)
      ensures this.pos == pos && this.append == append
    {
      this.pos := pos;
      this.append := append;
    }
  }

  /** Byte p of file n. */
  function FileByte(d: Disk, n: int, p: int): int
    requires Shape(d) && 0 <= n < |d.zones| && 0 <= p < MAX_SIZE
  {
    ByteIn(d, n, p / BLOCK_SIZE, p % BLOCK_SIZE)
  }

  class FileSystem {
    const first: int                 // s_firstdatazone
    const nzones: int                // s_nzones
    var bits: seq<bool>              // the loaded blocks s_zmap[], one after the other
    var blocks: seq<Block>
    var zones: seq<seq<int>>         // i_zone of every regular file and directory
    var size: seq<int>               // i_size

    ghost function D(): Disk
      reads this
    {
      Disk(first, nzones, bits, blocks, zones)
    }

    ghost predicate Valid()
      reads this
      ensures Valid() ==> Inv(D())
    {
      Inv(D()) && |size| == |zones| && |bits| % MAP_BITS == 0 && |bits| <= 8 * MAP_BITS
    }

    /** A file system without files: only bit 0, which belongs to no zone, is set. */
    constructor (first: int, nzones: int, maps: int, inodes: nat)
      requires 1 <= first <= nzones <= 65535 && 0 <= maps <= 8 && nzones - first < maps * MAP_BITS
      ensures Valid() && this.first == first && this.nzones == nzones && |zones| == inodes
      ensures forall n :: 0 <= n < inodes ==> size[n] == 0 && zones[n] == [0, 0, 0, 0, 0, 0, 0, 0, 0]
    {
      this.first, this.nzones := first, nzones;
      bits := seq(maps * MAP_BITS, k => k == 0);
      blocks := seq(nzones, _ => Zeros());
      zones := seq(inodes, _ => [0, 0, 0, 0, 0, 0, 0, 0, 0]);
      size := seq(inodes, _ => 0);
      new;
      EmptyDisk(D());
    }

    // ----- bitmap.c

    /** find_first_zero on bitmap block i, one 32-bit word after the other. */
    method FindFirstZero(i: int) returns (j: int)
      requires 0 <= i && (i + 1) * MAP_BITS <= |bits|
      ensures 0 <= j <= MAP_BITS && (j < MAP_BITS ==> !bits[i * MAP_BITS + j])
      ensures forall k :: i * MAP_BITS <= k < i * MAP_BITS + j ==> bits[k]
    {
      j := 0;
      while j < MAP_BITS
        invariant 0 <= j <= MAP_BITS && j % 32 == 0
        invariant forall k :: i * MAP_BITS <= k < i * MAP_BITS + j ==> bits[k]
      {
        var b := 0;
        while b < 32 && bits[i * MAP_BITS + j + b]
          invariant 0 <= b <= 32
          invariant forall k :: i * MAP_BITS <= k < i * MAP_BITS + j + b ==> bits[k]
        {
          b := b + 1;
        }
        if b < 32 {
          j := j + b;
          return;
        }
        j := j + 32;
      }
    }

    /** The lowest free zone, now claimed and cleared; 0 exactly when no zone is free. */
    method NewBlock() returns (z: int)
      requires Valid()
      modifies `bits, `blocks
      ensures z == 0 <==> old(Full(D()))
      ensures z != 0 ==> InZone(old(D()), z) && !Bit(old(D()), z) && D() == Claim(old(D()), z)
      ensures z != 0 ==> forall y :: InZone(old(D()), y) && y < z ==> Bit(old(D()), y)
      ensures z == 0 ==> blocks == old(blocks) && SameZoneBits(old(D()), bits)
    {
      var i, j := 0, MAP_BITS;
      ghost var maps := |bits| / MAP_BITS;
      assert |bits| == maps * MAP_BITS;
      while i < 8
        invariant unchanged(this) && 0 <= i <= 8 && j == MAP_BITS
        invariant forall k :: 0 <= k < i * MAP_BITS && k < |bits| ==> bits[k]
      {
        if i * MAP_BITS < |bits| {
          j := FindFirstZero(i);
          if j < MAP_BITS { break; }
        }
        i := i + 1;
      }
      if i >= 8 || j >= MAP_BITS {
        assert forall y :: InZone(D(), y) ==> Bit(D(), y);
        return 0;
      }
      assert forall y :: InZone(D(), y) && y < j + i * MAP_BITS + first - 1 ==> Bit(D(), y);
      bits := bits[i * MAP_BITS + j := true];
      z := j + i * MAP_BITS + first - 1;
      if z >= nzones { return 0; }
      assert InZone(old(D()), z) && !Bit(old(D()), z);
      blocks := blocks[z := Zeros()];
    }

    /** A zone somebody else uses a buffer of (b_count != 1) keeps its bit. */
    method FreeBlock(z: int, busy: set<int>)
      requires 1 <= first <= z < nzones && nzones - first < |bits| && (z !in busy ==> bits[z - first + 1])
      modifies `bits
      ensures bits == if z in busy then old(bits) else old(bits)[z - first + 1 := false]
    {
      if z in busy { return; }
      var k := z - (first - 1);
      bits := bits[k := false];
    }

    // ----- inode.c

    /** "if (create && !i_zone[k]) i_zone[k] = new_block()", and the value afterwards */
    method FillInode(n: int, k: int, create: bool, ghost l: Loc) returns (z: int)
      requires Valid() && IsLoc(D(), l) && InInode(l) && l.n == n && Slot(l) == k
      modifies `bits, `blocks, `zones
      ensures Valid() && Grown(old(D()), D(), l) && z == Ptr(D(), l)
      ensures !create ==> D() == old(D())
      ensures create && z == 0 ==> Full(D())
    {
      z := zones[n][k];
      if create && z == 0 {
        ghost var d := D();
        z := NewBlock();
        if z != 0 { GrownBy(d, l, z); } else { GrownSpare(d, bits, l); }
        assert zones[n][k := 0] == zones[n] && zones[n := zones[n]] == zones;
        zones := zones[n := zones[n][k := z]];
        assert z == 0 ==> D() == d.(bits := bits);
      }
    }

    /** the same for entry k of the index block p */
    method FillEntry(p: int, k: int, create: bool, ghost l: Loc) returns (z: int)
      requires Valid() && IsLoc(D(), l) && !InInode(l) && Slot(l) == k && Parent(D(), l) == p != 0
      modifies `bits, `blocks
      ensures Valid() && Grown(old(D()), D(), l) && z == Ptr(D(), l)
      ensures !create ==> D() == old(D())
      ensures create && z == 0 ==> Full(D())
    {
      ParentIsPtr(D(), l);
      z := U16(blocks[p], k);
      if create && z == 0 {
        ghost var d := D();
        z := NewBlock();
        if z != 0 {
          GrownBy(d, l, z);
          blocks := blocks[p := Put16(blocks[p], k, z)];
          assert D() == Store(Claim(d, z), l, z);
        } else {
          GrownSpare(d, bits, l);
          assert D() == d.(bits := bits);
        }
      }
    }

    /** _bmap: the zone of file block k of inode n; with create, missing zones are added on the
        way.  The answer 0 means there is none, and with create that the device is full. */
    method BMap(n: int, k: int, create: bool) returns (z: int)
      requires Valid() && 0 <= n < |zones| && IsBlock(k)
      modifies `bits, `blocks, `zones
      ensures Valid() && IsLoc(D(), Leaf(n, k)) && z == Ptr(D(), Leaf(n, k))
      ensures Grown(old(D()), D(), Leaf(n, k))
      ensures !create ==> D() == old(D())
      ensures create && z == 0 ==> Full(D())
    {
      hide Grown, Inv, Full;
      ghost var d := D();
      if k < 7 {
        z := FillInode(n, k, create, Direct(n, k));
        return;
      }
      var b := k - 7;
      if b < 512 {
        var p := FillInode(n, 7, create, Ind(n));
        GrownOn(d, D(), Ind(n), IndLeaf(n, b));
        if p == 0 { return 0; }
        ghost var e := D();
        z := FillEntry(p, b, create, IndLeaf(n, b));
        GrownTwice(d, e, D(), Ind(n), IndLeaf(n, b));
        return;
      }
      b := b - 512;
      ghost var mid, leaf := DindMid(n, b / 512), DindLeaf(n, b / 512, b % 512);
      var p := FillInode(n, 8, create, Dind(n));
      GrownOn(d, D(), Dind(n), leaf);
      if p == 0 { return 0; }
      ghost var e := D();
      var q := FillEntry(p, b / 512, create, mid);
      GrownTwice(d, e, D(), Dind(n), mid);
      GrownOn(d, D(), mid, leaf);
      if q == 0 { return 0; }
      ghost var f := D();
      z := FillEntry(q, b % 512, create, leaf);
      GrownTwice(d, f, D(), mid, leaf);
    }

    // ----- truncate.c

    ghost predicate Truncating(d: Disk)
      reads this
    {
      Inv(d) && first == d.first && nzones == d.nzones && blocks == d.blocks
    }

    /** free_ind: frees what index block z at location u lists, and z */
    method FreeInd(z: int, busy: set<int>, ghost d: Disk, ghost u: Loc, ghost done: iset<Loc>)
      requires Truncating(d) && Progress(d, bits, busy, done)
      requires (u.Ind? || u.DindMid?) && IsLoc(d, u) && z == Ptr(d, u)
      requires u !in done && done !! Kids(u, ENTRIES)
      modifies `bits
      ensures Progress(d, bits, busy, done + Kids(u, ENTRIES) + iset{u})
    {
      hide Progress;
      NoKids(d, bits, busy, done, u);
      if z == 0 { return; }
      var i := 0;
      while i < ENTRIES
        invariant 0 <= i <= ENTRIES && Progress(d, bits, busy, done + Kids(u, i))
      {
        KidStep(d, bits, busy, done, u, i);
        var p := U16(blocks[z], i);
        if p != 0 {
          FreeBlock(p, busy);
        }
        i := i + 1;
      }
      ProgressStep(d, bits, busy, done + Kids(u, ENTRIES), u);
      FreeBlock(z, busy);
    }

    /** free_dind */
    method FreeDind(z: int, busy: set<int>, ghost d: Disk, ghost n: int, ghost done: iset<Loc>)
      requires Truncating(d) && Progress(d, bits, busy, done)
      requires IsLoc(d, Dind(n)) && z == Ptr(d, Dind(n))
      requires Dind(n) !in done && done !! Grandkids(n, ENTRIES)
      modifies `bits
      ensures Progress(d, bits, busy, done + Grandkids(n, ENTRIES) + iset{Dind(n)})
    {
      hide Progress;
      if z == 0 {
        ProgressSame(d, bits, busy, done, done + Grandkids(n, ENTRIES) + iset{Dind(n)});
        return;
      }
      var i := 0;
      ProgressSame(d, bits, busy, done, done + Grandkids(n, 0));
      while i < ENTRIES
        invariant 0 <= i <= ENTRIES && Progress(d, bits, busy, done + Grandkids(n, i))
      {
        var p := U16(blocks[z], i);
        ghost var u, before := DindMid(n, i), done + Grandkids(n, i);
        GrandkidStep(d, done, n, i);
        NoKids(d, bits, busy, before, u);
        if p != 0 {
          FreeInd(p, busy, d, u, before);
        }
        ProgressSame(d, bits, busy, before + Kids(u, ENTRIES) + iset{u}, done + Grandkids(n, i + 1));
        i := i + 1;
      }
      ProgressStep(d, bits, busy, done + Grandkids(n, ENTRIES), Dind(n));
      FreeBlock(z, busy);
    }

    /** truncate's loop over the seven direct zones */
    method FreeDirect(n: int, busy: set<int>, ghost d: Disk)
      requires Inv(d) && d == D() && 0 <= n < |zones|
      modifies `bits, `zones
      ensures Progress(d, bits, busy, Directs(n, 7))
      ensures |zones| == |d.zones| && |zones[n]| == 9 && zones == d.zones[n := zones[n]] && zones[n][7] == d.zones[n][7] && zones[n][8] == d.zones[n][8]
      ensures forall k :: 0 <= k < 7 ==> zones[n][k] == 0
    {
      hide Progress, Inv;
      ProgressStart(d, busy);
      ProgressSame(d, bits, busy, iset{}, Directs(n, 0));
      var i := 0;
      while i < 7
        invariant 0 <= i <= 7 && Progress(d, bits, busy, Directs(n, i))
        invariant |zones| == |d.zones| && |zones[n]| == 9 && zones == d.zones[n := zones[n]]
        invariant forall k :: 0 <= k < 9 ==> zones[n][k] == if k < i then 0 else d.zones[n][k]
      {
        var z := zones[n][i];
        ghost var l := Direct(n, i);
        ProgressStep(d, bits, busy, Directs(n, i), l);
        if z != 0 {
          FreeBlock(z, busy);
          zones := zones[n := zones[n][i := 0]];
        }
        ProgressSame(d, bits, busy, Directs(n, i) + iset{l}, Directs(n, i + 1));
        i := i + 1;
      }
    }

    /** truncate of a regular file or directory: each of its zones is freed once, and no other
        inode's; a zone whose buffer others use is skipped. */
    method Truncate(n: int, busy: set<int>)
      requires Valid() && 0 <= n < |zones|
      modifies `bits, `zones, `size
      ensures Truncated(old(D()), n, busy, D()) && size == old(size)[n := 0] && |zones| == |old(zones)| && |bits| == |old(bits)|
    {
      hide Progress, Inv;
      ghost var d := D();
      FreeDirect(n, busy, d);
      ghost var done := Directs(n, 7);
      FreeInd(zones[n][7], busy, d, Ind(n), done);
      done := done + Kids(Ind(n), ENTRIES) + iset{Ind(n)};
      FreeDind(zones[n][8], busy, d, n, done);
      ProgressSame(d, bits, busy, done + Grandkids(n, ENTRIES) + iset{Dind(n)}, iset l: Loc | l.n == n);
      zones := zones[n := zones[n][7 := 0][8 := 0]];
      size := size[n := 0];
      ProgressEnd(d, n, busy, bits);
      assert zones[n] == [0, 0, 0, 0, 0, 0, 0, 0, 0];
    }

    // ----- file_dev.c

    /** file_read: the bytes from the file position on, zero where nothing is mapped; i_size is
        not consulted. */
    method FileRead(n: int, f: OpenFile, count: int) returns (r: int, buf: seq<int>)
      requires Valid() && 0 <= n < |zones| && 0 <= f.pos && f.pos + count <= MAX_SIZE
      modifies `bits, `blocks, `zones, f
      ensures Valid() && D() == old(D())
      ensures r == |buf| == (if count <= 0 then 0 else count) && f.pos == old(f.pos) + r
      ensures forall i :: 0 <= i < r ==> buf[i] == FileByte(D(), n, old(f.pos) + i)
    {
      hide Inv, Grown, Ptr, Leaf, IsLoc;
      ghost var d := D();
      buf := [];
      var left := count;
      if left <= 0 { return 0, buf; }
      while left > 0
        invariant 0 <= left <= count && Valid() && D() == d && 0 <= n < |zones|
        invariant |buf| == count - left && f.pos == old(f.pos) + |buf|
        invariant forall i :: 0 <= i < |buf| ==> buf[i] == FileByte(d, n, old(f.pos) + i)
      {
        var nr := BMap(n, f.pos / BLOCK_SIZE, false);
        var c := f.pos % BLOCK_SIZE;
        var chars := if BLOCK_SIZE - c < left then BLOCK_SIZE - c else left;
        ghost var was, at := buf, f.pos;
        f.pos := f.pos + chars;
        left := left - chars;
        if nr != 0 {
          ZoneOf(d, Leaf(n, at / BLOCK_SIZE));
          buf := buf + blocks[nr][c..c + chars];
        } else {
          buf := buf + seq(chars, _ => 0);
        }
        forall i | |was| <= i < |buf| ensures buf[i] == FileByte(d, n, old(f.pos) + i) {
          InBlock(at, i - |was|, chars);
        }
      }
      r := count - left;
    }

    /** file_write: r bytes of data are in the file from the start position on and no other byte
        of any file differs; less than all is written only when the device is full. */
    method FileWrite(n: int, f: OpenFile, data: seq<int>) returns (r: int)
      requires Valid() && 0 <= n < |zones| && 0 <= f.pos && 0 <= size[n]
      requires (if f.append then size[n] else f.pos) + |data| <= MAX_SIZE
      modifies `bits, `blocks, `zones, `size, f
      ensures Valid() && |zones| == |old(zones)|
      ensures -1 <= r <= |data| && r != 0 && (r < |data| && |data| > 0 ==> Full(D()))
      ensures var start, w := if f.append then old(size[n]) else old(f.pos), if r < 0 then 0 else r;
        Placed(old(D()), D(), n, start, |data|, w) && (w == |data| <==> Room(old(D()), n, start, |data|))
      ensures var start, w := if f.append then old(size[n]) else old(f.pos), if r < 0 then 0 else r;
        && Patched(old(D()), D(), n, start, data[..w])
        && size == old(size)[n := if w > 0 && start + w > old(size[n]) then start + w else old(size[n])]
        && f.pos == if f.append then old(f.pos) else start + w
    {
      hide Patched, Inv, Grown, Full, Shape, Leaf, Ptr, IsLoc, FileByte, Underway, Placed, Room;
      ghost var d := D();
      var pos := if f.append then size[n] else f.pos;
      ghost var start := pos;
      var i := 0;
      RoundsBegin(d, n, start, data);
      while i < |data|
        invariant 0 <= i <= |data| && pos == start + i && Valid() && Inv(d) && |zones| == |d.zones| && |size| == |old(size)|
        invariant Underway(d, D(), n, start, data, i)
        invariant size == old(size)[n := if i > 0 && start + i > old(size[n]) then start + i else old(size[n])]
        invariant unchanged(f)
      {
        ghost var e := D();
        var block := BMap(n, pos / BLOCK_SIZE, true);
        if block == 0 {
          RoundStops(d, e, D(), n, start, data, i);
          break;
        }
        ghost var g := D();
        ZoneOf(g, Leaf(n, pos / BLOCK_SIZE));
        var p := pos % BLOCK_SIZE;
        var c := BLOCK_SIZE - p;
        if c > |data| - i { c := |data| - i; }
        pos := pos + c;
        if pos > size[n] { size := size[n := pos]; }
        blocks := blocks[block := Overwrite(blocks[block], p, data[i..i + c])];
        Round(d, e, g, n, start, data, i, c);
        i := i + c;
      }
      if i == |data| { RoundsEnd(d, D(), n, start, data); }
      PatchedKeeps(d, D(), n, start, data[..i]);
      EnoughRoom(d, D(), n, start, |data|, i);
      if !f.append { f.pos := pos; }
      r := if i > 0 then i else -1;
      assert Patched(d, D(), n, start, data[..i]);
    }

    // ----- runs

    predicate Fits(op: Op)
      reads this
    {
      && 0 <= op.n < |zones| && |size| == |zones|
      && match op
         case Read(_, pos, count) => 0 <= pos && 0 <= count && pos + count <= MAX_SIZE
         case Write(n, pos, append, data) => 0 <= pos && 0 <= size[n] && (if append then size[n] else pos) + |data| <= MAX_SIZE
         case Empty(_) => true
    }

    method Perform(op: Op) returns (out: seq<int>)
      requires Valid() && Fits(op)
      modifies this
      ensures Valid() && |zones| == |old(zones)|
      ensures SizesStep(old(size), op, out, size) && BytesStep(old(D()), old(size), op, out, D())
      ensures op.Read? ==> |out| == op.count && forall j :: 0 <= j < |out| ==> out[j] == FileByte(old(D()), op.n, op.pos + j)
      ensures Transferred(old(D()), old(size[op.n]), op, out, D()) && Remapped(old(D()), old(size[op.n]), op, out, D())
    {
      hide Patched, Inv, Truncated, Full, Placed, Room;
      match op {
        case Read(n, pos, count) =>
          var f := new OpenFile(pos, false);
          var r, buf := FileRead(n, f, count);
          out := buf;
          assert SizesStep(old(size), op, out, size);
        case Write(n, pos, append, data) =>
          var f := new OpenFile(pos, append);
          var r := FileWrite(n, f, data);
          out := if r > 0 then data[..r] else [];
          PatchedBytes(old(D()), D(), n, if append then old(size[n]) else pos, out, old(size), op);
          assert SizesStep(old(size), op, out, size);
        case Empty(n) =>
          Truncate(n, {});
          TruncateKeeps(old(D()), n, {}, D());
          TruncatedPtr(old(D()), n, {}, D());
          TruncatedBytes(old(D()), n, {}, D(), old(size));
          out := [];
          assert SizesStep(old(size), op, out, size);
      }
    }

    /** A run of reads, writes and truncations: every file's bytes are what replaying the
        transferred bytes on flat arrays gives, every read answered with those bytes, and every
        write transferred the caller's bytes, all of them unless the device was full right then.
        It ends early only before an operation that would pass the largest file block. */
    method Run(ops: seq<Op>) returns (outs: seq<seq<int>>, ghost trace: seq<Disk>)
      requires Valid()
      modifies this
      ensures Valid() && |zones| == |old(zones)| && |outs| <= |ops| && (|outs| < |ops| ==> !Fits(ops[|outs|]))
      ensures Replayed(old(D()), old(size), ops[..|outs|], outs, D(), size)
      ensures Traced(old(D()), old(size), ops[..|outs|], outs, trace) && trace[|outs|] == D()
    {
      hide Inv, Traced, Replayed, Answered, Transferred, Remapped;
      outs, trace := [], [D()];
      NothingTraced(D(), size);
      while |outs| < |ops| && Fits(ops[|outs|])
        invariant Valid() && |zones| == |old(zones)| && |outs| <= |ops|
        invariant Replayed(old(D()), old(size), ops[..|outs|], outs, D(), size)
        invariant Traced(old(D()), old(size), ops[..|outs|], outs, trace) && |trace| == |outs| + 1 && trace[|outs|] == D()
        decreases |ops| - |outs|
      {
        var op := ops[|outs|];
        ghost var d, s, was := D(), size, ops[..|outs|];
        var out := Perform(op);
        AnswerRight(old(D()), old(size), was, outs, d, s, op, out);
        ReplayedStep(old(D()), old(size), was, outs, d, s, op, out, D(), size);
        TracedStep(old(D()), old(size), was, outs, trace, op, out, D());
        assert ops[..|outs| + 1] == was + [op];
        outs, trace := outs + [out], trace + [D()];
      }
    }
  }

  datatype Op = Read(n: int, pos: int, count: int) | Write(n: int, pos: int, append: bool, data: seq<int>) | Empty(n: int)

  // ----- the flat reference: a size and an array of bytes for every file

  function SizeStep(size: int, op: Op, out: seq<int>, n: int): int {
    match op
    case Read(_, _, _) => size
    case Write(m, pos, append, _) =>
      var end := (if append then size else pos) + |out|;
      if m == n && out != [] && end > size then end else size
    case Empty(m) => if m == n then 0 else size
  }

  function ByteStep(byte: int, size: int, op: Op, out: seq<int>, n: int, p: int): int {
    match op
    case Read(_, _, _) => byte
    case Write(m, pos, append, _) =>
      var start := if append then size else pos;
      if m == n && start <= p < start + |out| then out[p - start] else byte
    case Empty(m) => if m == n then 0 else byte
  }

  function SizeAfter(size: int, ops: seq<Op>, outs: seq<seq<int>>, n: int): int
    requires |ops| == |outs|
  {
    if ops == [] then size
    else var i := |ops| - 1; SizeStep(SizeAfter(size, ops[..i], outs[..i], n), ops[i], outs[i], n)
  }

  function ByteAfter(byte: int, size: int, ops: seq<Op>, outs: seq<seq<int>>, n: int, p: int): int
    requires |ops| == |outs|
  {
    if ops == [] then byte
    else
      var i := |ops| - 1;
      ByteStep(ByteAfter(byte, size, ops[..i], outs[..i], n, p), SizeAfter(size, ops[..i], outs[..i], n), ops[i], outs[i], n, p)
  }

  ghost predicate SizesStep(before: seq<int>, op: Op, out: seq<int>, after: seq<int>) {
    |after| == |before| && forall n :: 0 <= n < |before| ==> after[n] == SizeStep(before[n], op, out, n)
  }

  ghost predicate BytesStep(d: Disk, size: seq<int>, op: Op, out: seq<int>, e: Disk)
    requires Shape(d) && |size| == |d.zones|
  {
    && Shape(e) && |e.zones| == |d.zones|
    && forall n, p :: 0 <= n < |d.zones| && 0 <= p < MAX_SIZE ==>
         FileByte(e, n, p) == ByteStep(FileByte(d, n, p), size[n], op, out, n, p)
  }

  /** Every byte and size of e is what the flat reference says after the operations. */
  ghost predicate Replayed(d: Disk, size: seq<int>, ops: seq<Op>, outs: seq<seq<int>>, e: Disk, now: seq<int>)
    requires Shape(d) && |size| == |d.zones| && |ops| == |outs|
  {
    && Shape(e) && |e.zones| == |d.zones| && |now| == |size|
    && (forall n :: 0 <= n < |size| ==> now[n] == SizeAfter(size[n], ops, outs, n))
    && forall n, p :: 0 <= n < |d.zones| && 0 <= p < MAX_SIZE ==>
         FileByte(e, n, p) == ByteAfter(FileByte(d, n, p), size[n], ops, outs, n, p)
  }

  /** A read answers with the bytes the flat reference holds at that point. */
  ghost predicate Answered(d: Disk, size: seq<int>, ops: seq<Op>, outs: seq<seq<int>>, op: Op, out: seq<int>)
    requires Shape(d) && |size| == |d.zones| && |ops| == |outs|
  {
    op.Read? ==>
      && 0 <= op.n < |size| && 0 <= op.pos && 0 <= op.count && op.pos + op.count <= MAX_SIZE && |out| == op.count
      && forall j :: 0 <= j < |out| ==>
           out[j] == ByteAfter(FileByte(d, op.n, op.pos + j), size[op.n], ops, outs, op.n, op.pos + j)
  }

  /** Where a write to a file of the given size starts. */
  function Start(op: Op, size: int): int
    requires op.Write?
  {
    if op.append then size else op.pos
  }

  /** What a write put into the file is the front of the caller's bytes; it is all of them exactly
      when the free zones cover what is missing on the way to the written blocks, and otherwise
      the device is full afterwards. */
  ghost predicate Transferred(d: Disk, size: int, op: Op, out: seq<int>, e: Disk)
    requires Shape(d)
  {
    op.Write? ==>
      && Fitting(d, op, size) && out <= op.data && (out < op.data ==> Shape(e) && Full(e))
      && (out == op.data <==> Room(d, op.n, Start(op, size), |op.data|))
  }

  predicate Fitting(d: Disk, op: Op, size: int)
    requires op.Write?
  {
    0 <= op.n < |d.zones| && 0 <= Start(op, size) && Start(op, size) + |op.data| <= MAX_SIZE
  }

  /** A later read finds what a write transferred, as long as no other write or truncation of
      that file comes between. */
  lemma {:induction false} WriteSurvives(byte: int, size: int, ops: seq<Op>, outs: seq<seq<int>>, i: int, p: int)
    requires |ops| == |outs| && 0 <= i < |ops| && ops[i].Write? && 0 <= p - StartOf(size, ops, outs, i) < |outs[i]|
    requires forall j :: i < j < |ops| ==> ops[j].Read? || ops[j].n != ops[i].n
    ensures ByteAfter(byte, size, ops, outs, ops[i].n, p) == outs[i][p - StartOf(size, ops, outs, i)]
  {
    var last := |ops| - 1;
    if i < last {
      assert ops[..last][..i] == ops[..i] && outs[..last][..i] == outs[..i];
      WriteSurvives(byte, size, ops[..last], outs[..last], i, p);
    }
  }

  /** Where write number i starts. */
  function StartOf(size: int, ops: seq<Op>, outs: seq<seq<int>>, i: int): int
    requires |ops| == |outs| && 0 <= i < |ops| && ops[i].Write?
  {
    if ops[i].append then SizeAfter(size, ops[..i], outs[..i], ops[i].n) else ops[i].pos
  }

  /** A read changes nothing, a write keeps what is mapped and maps in its own file what is on
      the way to the written blocks, a truncation unmaps its own file alone. */
  ghost predicate Remapped(d: Disk, size: int, op: Op, out: seq<int>, e: Disk)
    requires Shape(d)
  {
    match op
    case Read(_, _, _) => e == d
    case Write(n, _, _, _) =>
      Fitting(d, op, size) && |out| <= |op.data| && Kept(d, e, n) && Placed(d, e, n, Start(op, size), |op.data|, |out|)
    case Empty(n) => Shape(e) && |e.zones| == |d.zones| && forall l :: IsLoc(d, l) ==> Ptr(e, l) == if l.n == n then 0 else Ptr(d, l)
  }

  /** What operation number i did, from one disk of the trace to the next. */
  ghost predicate TracedAt(d: Disk, size: seq<int>, ops: seq<Op>, outs: seq<seq<int>>, trace: seq<Disk>, i: int)
    requires Shape(d) && |size| == |d.zones| && |ops| == |outs| && |trace| == |outs| + 1 && 0 <= i < |outs|
  {
    && Inv(trace[i]) && Inv(trace[i + 1]) && 0 <= ops[i].n < |size|
    && Answered(d, size, ops[..i], outs[..i], ops[i], outs[i])
    && var now := SizeAfter(size[ops[i].n], ops[..i], outs[..i], ops[i].n);
    && Transferred(trace[i], now, ops[i], outs[i], trace[i + 1]) && Remapped(trace[i], now, ops[i], outs[i], trace[i + 1])
  }

  ghost predicate Traced(d: Disk, size: seq<int>, ops: seq<Op>, outs: seq<seq<int>>, trace: seq<Disk>)
    requires Shape(d) && |size| == |d.zones| && |ops| == |outs|
    ensures Traced(d, size, ops, outs, trace) ==> |trace| == |outs| + 1
  {
    |trace| == |outs| + 1 && trace[0] == d && forall i :: 0 <= i < |outs| ==> TracedAt(d, size, ops, outs, trace, i)
  }

  lemma NothingTraced(d: Disk, size: seq<int>)
    requires Inv(d) && |size| == |d.zones|
    ensures Traced(d, size, [], [], [d]) && Replayed(d, size, [], [], d, size)
  {
  }

  lemma TracedStep(d: Disk, size: seq<int>, ops: seq<Op>, outs: seq<seq<int>>, trace: seq<Disk>, op: Op, out: seq<int>, e: Disk)
    requires Shape(d) && |size| == |d.zones| && |ops| == |outs| && Traced(d, size, ops, outs, trace)
    requires Answered(d, size, ops, outs, op, out) && Inv(trace[|outs|]) && Inv(e) && 0 <= op.n < |size|
    requires var now := SizeAfter(size[op.n], ops, outs, op.n);
      Transferred(trace[|outs|], now, op, out, e) && Remapped(trace[|outs|], now, op, out, e)
    ensures Traced(d, size, ops + [op], outs + [out], trace + [e])
  {
    hide Inv, Answered, Transferred, Remapped, SizeAfter;
    var o, p, q := outs + [out], ops + [op], trace + [e];
    forall i | 0 <= i < |o| ensures TracedAt(d, size, p, o, q, i) {
      if i < |outs| {
        assert TracedAt(d, size, ops, outs, trace, i);
        assert p[..i] == ops[..i] && o[..i] == outs[..i];
      } else {
        assert p[..i] == ops && o[..i] == outs;
      }
    }
  }

  lemma AnswerRight(d: Disk, size: seq<int>, ops: seq<Op>, outs: seq<seq<int>>, e: Disk, now: seq<int>, op: Op, out: seq<int>)
    requires Shape(d) && |size| == |d.zones| && |ops| == |outs| && Replayed(d, size, ops, outs, e, now)
    requires op.Read? ==> 0 <= op.n < |size| && 0 <= op.pos && 0 <= op.count && op.pos + op.count <= MAX_SIZE && |out| == op.count
    requires op.Read? ==> forall j :: 0 <= j < |out| ==> out[j] == FileByte(e, op.n, op.pos + j)
    ensures Answered(d, size, ops, outs, op, out)
    ensures 0 <= op.n < |size| ==> now[op.n] == SizeAfter(size[op.n], ops, outs, op.n)
  {
  }

  lemma ReplayedStep(d: Disk, size: seq<int>, ops: seq<Op>, outs: seq<seq<int>>, e: Disk, now: seq<int>,
      op: Op, out: seq<int>, f: Disk, later: seq<int>)
    requires Shape(d) && |size| == |d.zones| && |ops| == |outs| && Replayed(d, size, ops, outs, e, now)
    requires SizesStep(now, op, out, later) && BytesStep(e, now, op, out, f)
    ensures Replayed(d, size, ops + [op], outs + [out], f, later)
  {
    var i := |ops|;
    assert (ops + [op])[..i] == ops && (outs + [out])[..i] == outs;
    forall n, p | 0 <= n < |d.zones| && 0 <= p < MAX_SIZE
      ensures FileByte(f, n, p) == ByteAfter(FileByte(d, n, p), size[n], ops + [op], outs + [out], n, p)
    {
      assert FileByte(f, n, p) == ByteStep(FileByte(e, n, p), now[n], op, out, n, p);
    }
  }

  lemma PatchedBytes(d: Disk, e: Disk, n: int, start: int, data: seq<int>, size: seq<int>, op: Op)
    requires Shape(d) && Patched(d, e, n, start, data) && |size| == |d.zones| && 0 <= n < |size|
    requires op.Write? && op.n == n && start == if op.append then size[n] else op.pos
    ensures BytesStep(d, size, op, data, e)
  {
  }

  lemma TruncatedBytes(d: Disk, n: int, busy: set<int>, e: Disk, size: seq<int>)
    requires Inv(d) && 0 <= n < |d.zones| && Truncated(d, n, busy, e) && |size| == |d.zones|
    ensures BytesStep(d, size, Empty(n), [], e)
  {
    TruncatedPtr(d, n, busy, e);
    forall m, p | 0 <= m < |d.zones| && 0 <= p < MAX_SIZE
      ensures FileByte(e, m, p) == if m == n then 0 else FileByte(d, m, p)
    {
      LeafLoc(d, m, p / BLOCK_SIZE);
    }
  }

  /** Only file n has changed in where its blocks are, and what was mapped still is. */
  ghost predicate Kept(d: Disk, e: Disk, n: int)
    requires Shape(d)
  {
    Extends(d, e) && forall l :: IsLoc(d, l) && l.n != n ==> Ptr(e, l) == Ptr(d, l)
  }

  lemma KeptGrown(d: Disk, e: Disk, g: Disk, n: int, l: Loc)
    requires Inv(d) && Inv(e) && Kept(d, e, n) && l.n == n && Grown(e, g, l)
    ensures Kept(d, g, n)
  {
    forall m | IsLoc(d, m) && (m.n != n || Ptr(d, m) != 0) ensures Ptr(g, m) == Ptr(d, m) {
      assert IsLoc(e, m) && Ptr(e, m) == Ptr(d, m);
      if m.n == n { assert Ptr(e, m) != 0; } else { assert !OnPath(m, l); }
    }
  }

  lemma KeptWrite(d: Disk, e: Disk, n: int, k: int, b: Block)
    requires Inv(d) && Inv(e) && Kept(d, e, n) && 0 <= n < |d.zones| && IsBlock(k) && |b| == BLOCK_SIZE
    requires IsLoc(e, Leaf(n, k)) && Ptr(e, Leaf(n, k)) != 0
    ensures InZone(e, Ptr(e, Leaf(n, k)))
    ensures Kept(d, e.(blocks := e.blocks[Ptr(e, Leaf(n, k)) := b]), n)
  {
    WritePtr(e, n, k, b);
    hide Ptr;
    forall m | IsLoc(d, m) ensures IsLoc(e, m) {}
  }

  // ----- which blocks a write maps

  /** The first file block behind the first i bytes from start on. */
  function Reach(start: int, i: int): int {
    if i == 0 then start / BLOCK_SIZE else (start + i - 1) / BLOCK_SIZE + 1
  }

  lemma ReachBounds(start: int, i: int)
    requires 0 <= start && 0 <= i && start + i <= MAX_SIZE
    ensures start / BLOCK_SIZE <= Reach(start, i) <= MAX_BLOCK
  {
  }

  /** File blocks a up to b are mapped, and nothing else is newly mapped. */
  ghost predicate Grew(d: Disk, e: Disk, n: int, a: int, b: int)
    requires Shape(d)
  {
    Shape(e) && |e.zones| == |d.zones| && 0 <= n < |d.zones| && 0 <= a && b <= MAX_BLOCK && MapsOn(d, e, n, a, b) && Reached(e, n, a, b)
  }

  /** After w of count bytes: the blocks of all of them are mapped, or the device is full with the
      block of the next byte missing; what else is newly mapped is on the way to that block. */
  ghost predicate Placed(d: Disk, e: Disk, n: int, start: int, count: int, w: int)
    requires Shape(d) && 0 <= start && 0 <= w <= count && start + count <= MAX_SIZE
  {
    if w == count then Grew(d, e, n, start / BLOCK_SIZE, Reach(start, count))
    else
      var a, k := start / BLOCK_SIZE, (start + w) / BLOCK_SIZE;
      && Shape(e) && |e.zones| == |d.zones| && 0 <= n < |d.zones| && k < MAX_BLOCK
      && MapsOn(d, e, n, a, k + 1) && Reached(e, n, a, k) && Ptr(e, LeafOf(e, n, k)) == 0 && Full(e)
      && (w == 0 || (start + w) % BLOCK_SIZE == 0)
  }

  /** The free zones cover the locations without a zone on the way to the written blocks. */
  ghost predicate Room(d: Disk, n: int, start: int, count: int)
    requires Shape(d) && 0 <= n < |d.zones| && 0 <= start && 0 <= count && start + count <= MAX_SIZE
  {
    ReachBounds(start, count);
    |Missing(d, n, start / BLOCK_SIZE, Reach(start, count))| <= |FreeZones(d)|
  }

  lemma GrewNone(d: Disk, n: int, start: int)
    requires Shape(d) && 0 <= n < |d.zones| && 0 <= start <= MAX_SIZE
    ensures Grew(d, d, n, start / BLOCK_SIZE, Reach(start, 0))
  {
  }

  lemma GrewGrown(d: Disk, e: Disk, g: Disk, n: int, a: int, k: int)
    requires Inv(d) && Inv(e) && Grew(d, e, n, a, k) && Extends(d, e) && IsBlock(k) && a <= k && Grown(e, g, Leaf(n, k))
    ensures MapsOn(d, g, n, a, k + 1) && Reached(g, n, a, k)
    ensures Ptr(g, LeafOf(g, n, k)) != 0 ==> Grew(d, g, n, a, k + 1)
  {
    forall l | IsLoc(d, l) && Ptr(d, l) == 0 && Ptr(g, l) != 0 ensures l in Paths(n, a, k + 1) {
      assert IsLoc(e, l);
      if Ptr(e, l) != 0 {
        var j :| a <= j < k && l in Above(Leaf(n, j));
      } else {
        assert l in Above(Leaf(n, k));
      }
    }
    forall j | a <= j < k ensures Ptr(g, LeafOf(g, n, j)) != 0 {
      assert Ptr(e, LeafOf(e, n, j)) != 0;
    }
  }

  lemma GrewWrite(d: Disk, g: Disk, n: int, a: int, k: int, b: Block)
    requires Inv(d) && Inv(g) && Grew(d, g, n, a, k + 1) && IsBlock(k) && a <= k && |b| == BLOCK_SIZE
    requires IsLoc(g, Leaf(n, k)) && Ptr(g, Leaf(n, k)) != 0
    ensures InZone(g, Ptr(g, Leaf(n, k)))
    ensures Grew(d, g.(blocks := g.blocks[Ptr(g, Leaf(n, k)) := b]), n, a, k + 1)
  {
    WritePtr(g, n, k, b);
    hide Paths;
    var h := g.(blocks := g.blocks[Ptr(g, Leaf(n, k)) := b]);
    assert forall l :: IsLoc(d, l) ==> IsLoc(g, l) && Ptr(h, l) == Ptr(g, l);
    forall j | a <= j < k + 1 ensures Ptr(h, LeafOf(h, n, j)) != 0 { assert Ptr(g, LeafOf(g, n, j)) != 0; }
  }

  /** One round of file_write. */
  lemma Reaches(d: Disk, e: Disk, g: Disk, n: int, start: int, i: int, c: int, b: Block)
    requires Inv(d) && Inv(e) && Extends(d, e) && 0 <= start && 0 <= i && 0 < c && start + i + c <= MAX_SIZE && |b| == BLOCK_SIZE
    requires Grew(d, e, n, start / BLOCK_SIZE, Reach(start, i)) && (i == 0 || (start + i) % BLOCK_SIZE == 0)
    requires c <= BLOCK_SIZE - (start + i) % BLOCK_SIZE
    requires IsBlock((start + i) / BLOCK_SIZE) && Grown(e, g, Leaf(n, (start + i) / BLOCK_SIZE))
    requires var l := Leaf(n, (start + i) / BLOCK_SIZE); IsLoc(g, l) && Ptr(g, l) != 0 && InZone(g, Ptr(g, l))
    ensures Grew(d, g.(blocks := g.blocks[Ptr(g, Leaf(n, (start + i) / BLOCK_SIZE)) := b]), n, start / BLOCK_SIZE, Reach(start, i + c))
  {
    var a, k := start / BLOCK_SIZE, (start + i) / BLOCK_SIZE;
    assert Reach(start, i) == k && Reach(start, i + c) == k + 1;
    hide Grew, Inv, Grown, Ptr;
    GrewGrown(d, e, g, n, a, k);
    GrewWrite(d, g, n, a, k, b);
  }

  lemma Stops(d: Disk, e: Disk, g: Disk, n: int, start: int, count: int, i: int)
    requires Inv(d) && Inv(e) && Extends(d, e) && 0 <= start && 0 <= i < count && start + count <= MAX_SIZE
    requires Grew(d, e, n, start / BLOCK_SIZE, Reach(start, i)) && (i == 0 || (start + i) % BLOCK_SIZE == 0)
    requires IsBlock((start + i) / BLOCK_SIZE) && Grown(e, g, Leaf(n, (start + i) / BLOCK_SIZE)) && Full(g)
    requires var l := Leaf(n, (start + i) / BLOCK_SIZE); IsLoc(g, l) && Ptr(g, l) == 0
    ensures Placed(d, g, n, start, count, i)
  {
    var a, k := start / BLOCK_SIZE, (start + i) / BLOCK_SIZE;
    assert Reach(start, i) == k;
    hide Inv, Ptr, MapsOn, Reached, Full;
    GrewGrown(d, e, g, n, a, k);
  }

  /** file_write after i bytes of data. */
  ghost predicate Underway(d: Disk, e: Disk, n: int, start: int, data: seq<int>, i: int)
    requires Shape(d)
  {
    && 0 <= i <= |data| && 0 <= start && start + |data| <= MAX_SIZE && Patched(d, e, n, start, data[..i])
    && Grew(d, e, n, start / BLOCK_SIZE, Reach(start, i)) && (i == 0 || i == |data| || (start + i) % BLOCK_SIZE == 0)
  }

  lemma RoundsBegin(d: Disk, n: int, start: int, data: seq<int>)
    requires Shape(d) && 0 <= n < |d.zones| && 0 <= start && start + |data| <= MAX_SIZE
    ensures Underway(d, d, n, start, data, 0)
  {
    PatchNone(d, n, start);
    GrewNone(d, n, start);
  }

  lemma Round(d: Disk, e: Disk, g: Disk, n: int, start: int, data: seq<int>, i: int, c: int)
    requires Inv(d) && Inv(e) && Underway(d, e, n, start, data, i) && i < |data| && 0 <= n < |d.zones|
    requires 0 < c <= |data| - i && c <= BLOCK_SIZE - (start + i) % BLOCK_SIZE && (i + c == |data| || c == BLOCK_SIZE - (start + i) % BLOCK_SIZE)
    requires IsBlock((start + i) / BLOCK_SIZE) && Grown(e, g, Leaf(n, (start + i) / BLOCK_SIZE))
    requires var l := Leaf(n, (start + i) / BLOCK_SIZE); IsLoc(g, l) && Ptr(g, l) != 0
    ensures var z := Ptr(g, Leaf(n, (start + i) / BLOCK_SIZE));
      && InZone(g, z)
      && var h := g.(blocks := g.blocks[z := Overwrite(g.blocks[z], (start + i) % BLOCK_SIZE, data[i..i + c])]);
      Inv(h) && Underway(d, h, n, start, data, i + c)
  {
    hide Inv, Grown, Patched, Ptr, Leaf, IsLoc, Grew, Shape, Kept;
    var l := Leaf(n, (start + i) / BLOCK_SIZE);
    ZoneOf(g, l);
    PatchedKeeps(d, e, n, start, data[..i]);
    PatchGrown(d, e, g, n, start, data[..i], l);
    PatchMore(d, g, n, start, data[..i], data[i..i + c]);
    Reaches(d, e, g, n, start, i, c, Overwrite(g.blocks[Ptr(g, l)], (start + i) % BLOCK_SIZE, data[i..i + c]));
    assert data[..i + c] == data[..i] + data[i..i + c];
  }

  lemma RoundStops(d: Disk, e: Disk, g: Disk, n: int, start: int, data: seq<int>, i: int)
    requires Inv(d) && Inv(e) && Underway(d, e, n, start, data, i) && i < |data| && 0 <= n < |d.zones|
    requires IsBlock((start + i) / BLOCK_SIZE) && Grown(e, g, Leaf(n, (start + i) / BLOCK_SIZE)) && Full(g)
    requires var l := Leaf(n, (start + i) / BLOCK_SIZE); IsLoc(g, l) && Ptr(g, l) == 0
    ensures Patched(d, g, n, start, data[..i]) && Placed(d, g, n, start, |data|, i)
  {
    hide Inv, Grown, Patched, Ptr, Leaf, IsLoc, Grew, Shape, Kept, Full, Placed;
    PatchedKeeps(d, e, n, start, data[..i]);
    PatchGrown(d, e, g, n, start, data[..i], Leaf(n, (start + i) / BLOCK_SIZE));
    Stops(d, e, g, n, start, |data|, i);
  }

  lemma RoundsEnd(d: Disk, e: Disk, n: int, start: int, data: seq<int>)
    requires Shape(d) && Underway(d, e, n, start, data, |data|)
    ensures Patched(d, e, n, start, data[..|data|]) && Placed(d, e, n, start, |data|, |data|)
  {
  }

  lemma PatchedKeeps(d: Disk, e: Disk, n: int, start: int, data: seq<int>)
    requires Shape(d) && Patched(d, e, n, start, data)
    ensures Extends(d, e) && Kept(d, e, n)
  {
  }

  /** A write is complete exactly when there is room for it. */
  lemma EnoughRoom(d: Disk, e: Disk, n: int, start: int, count: int, w: int)
    requires Inv(d) && Inv(e) && Extends(d, e) && 0 <= n < |d.zones| && 0 <= start && 0 <= w <= count && start + count <= MAX_SIZE
    requires Placed(d, e, n, start, count, w)
    ensures w == count <==> Room(d, n, start, count)
  {
    var a, b := start / BLOCK_SIZE, Reach(start, count);
    ReachBounds(start, count);
    if w == count {
      ZonesConserved(d, e, n, a, b);
      ReachedAll(e, n, a, b);
    } else {
      var k := (start + w) / BLOCK_SIZE;
      assert k < b;
      PathsMore(n, a, k + 1, b);
      ZonesConserved(d, e, n, a, b);
      NoneFree(e);
      StillMissing(e, n, a, b, k);
    }
  }

  lemma PathsMore(n: int, a: int, b: int, c: int)
    requires 0 <= a && b <= c <= MAX_BLOCK
    ensures Paths(n, a, b) <= Paths(n, a, c)
  {
  }

  lemma NoneFree(e: Disk)
    requires Shape(e) && Full(e)
    ensures FreeZones(e) == {}
  {
  }

  lemma StillMissing(e: Disk, n: int, a: int, b: int, k: int)
    requires Shape(e) && 0 <= n < |e.zones| && 0 <= a <= k < b <= MAX_BLOCK && Ptr(e, LeafOf(e, n, k)) == 0
    ensures |Missing(e, n, a, b)| > 0
  {
    assert Leaf(n, k) in Above(Leaf(n, k));
    assert Leaf(n, k) in Missing(e, n, a, b);
  }

  /** d with the bytes of data at the offsets start.. of file n */
  ghost predicate Patched(d: Disk, e: Disk, n: int, start: int, data: seq<int>)
    requires Shape(d)
    ensures Patched(d, e, n, start, data) ==> Kept(d, e, n)
  {
    && Kept(d, e, n)
    && forall m, p :: 0 <= m < |d.zones| && 0 <= p < MAX_SIZE ==>
         FileByte(e, m, p) == if m == n && start <= p < start + |data| then data[p - start] else FileByte(d, m, p)
  }

  lemma EmptyDisk(d: Disk)
    requires Shape(d) && d.bits[0] && (forall k :: 0 < k < |d.bits| ==> !d.bits[k])
    requires forall n :: 0 <= n < |d.zones| ==> d.zones[n] == [0, 0, 0, 0, 0, 0, 0, 0, 0]
    ensures Inv(d)
  {
    assert forall l :: IsLoc(d, l) ==> Ptr(d, l) == 0;
  }

  lemma InBlock(at: int, i: int, chars: int)
    requires 0 <= at && 0 <= i < chars <= BLOCK_SIZE - at % BLOCK_SIZE
    ensures (at + i) / BLOCK_SIZE == at / BLOCK_SIZE && (at + i) % BLOCK_SIZE == at % BLOCK_SIZE + i
  {
  }

  lemma PatchNone(d: Disk, n: int, start: int)
    requires Shape(d)
    ensures Patched(d, d, n, start, [])
  {
  }

  lemma PatchGrown(d: Disk, e: Disk, g: Disk, n: int, start: int, data: seq<int>, l: Loc)
    requires Inv(d) && Inv(e) && Patched(d, e, n, start, data) && Grown(e, g, l) && l.n == n
    ensures Patched(d, g, n, start, data)
  {
    KeptGrown(d, e, g, n, l);
    forall m, p | 0 <= m < |d.zones| && 0 <= p < MAX_SIZE ensures FileByte(g, m, p) == FileByte(e, m, p) {
      assert ByteIn(g, m, p / BLOCK_SIZE, p % BLOCK_SIZE) == ByteIn(e, m, p / BLOCK_SIZE, p % BLOCK_SIZE);
    }
  }

  /** Filling in the next bytes inside one block. */
  lemma PatchMore(d: Disk, e: Disk, n: int, start: int, data: seq<int>, more: seq<int>)
    requires Inv(d) && Inv(e) && Patched(d, e, n, start, data) && 0 <= n < |d.zones| && 0 <= start
    requires start + |data| + |more| <= MAX_SIZE && 0 < |more| <= BLOCK_SIZE - (start + |data|) % BLOCK_SIZE
    requires var l := Leaf(n, (start + |data|) / BLOCK_SIZE); IsLoc(e, l) && Ptr(e, l) != 0
    ensures InZone(e, Ptr(e, Leaf(n, (start + |data|) / BLOCK_SIZE)))
    ensures var z, c := Ptr(e, Leaf(n, (start + |data|) / BLOCK_SIZE)), (start + |data|) % BLOCK_SIZE;
      var g := e.(blocks := e.blocks[z := Overwrite(e.blocks[z], c, more)]);
      Inv(g) && Patched(d, g, n, start, data + more)
  {
    var at := start + |data|;
    var k, c := at / BLOCK_SIZE, at % BLOCK_SIZE;
    WriteBytes(e, n, k, c, more);
    KeptWrite(d, e, n, k, Overwrite(e.blocks[Ptr(e, Leaf(n, k))], c, more));
    var z := Ptr(e, Leaf(n, k));
    var g := e.(blocks := e.blocks[z := Overwrite(e.blocks[z], c, more)]);
    forall m, p | 0 <= m < |d.zones| && 0 <= p < MAX_SIZE
      ensures FileByte(g, m, p) == if m == n && start <= p < at + |more| then (data + more)[p - start] else FileByte(d, m, p)
    {
      assert p / BLOCK_SIZE == k && c <= p % BLOCK_SIZE < c + |more| <==> at <= p < at + |more|;
      assert FileByte(e, m, p) == if m == n && start <= p < at then data[p - start] else FileByte(d, m, p);
    }
  }
}
