/**
 What fs_write does to a well-formed disk (src/kern/kfs.c:295-398): an overlay of the file's block
 space and nothing else, for every request whose loop ends, and exactly which requests those are.
 */
module KfsWrites {
  import opened Bytes
  import opened KfsSpec

  function InodeOf(disk: Disk, i: nat): seq<byte>
    requires Loads(disk, InodeOff(i))
  {
    BlockAt(disk, InodeOff(i))
  }

  /** First byte after boot block and inodes. */
  function DataStart(boot: seq<byte>): nat requires IsBlock(boot) { (1 + NumInodes(boot)) * BLK }

  ghost predicate Roomy(disk: Disk, boot: seq<byte>) {
    IsBlock(boot) && DataStart(boot) <= |disk| < U32
  }

  /** Data block idx is counted in the boot block and lies on a disk of this size. */
  predicate OnDisk(size: nat, boot: seq<byte>, idx: nat)
    requires IsBlock(boot)
  {
    idx < NumData(boot) && DataStart(boot) + (idx + 1) * BLK <= size
  }

  ghost predicate Differ(inode: seq<byte>)
    requires IsBlock(inode)
  {
    forall b: nat, c: nat :: b < c < FileBlocks(inode) ==> BlockNum(inode, b) != BlockNum(inode, c)
  }

  /** The blocks of one inode exist and differ. */
  ghost predicate InodeOk(size: nat, boot: seq<byte>, inode: seq<byte>)
    requires IsBlock(boot)
  {
    && IsBlock(inode) && Differ(inode)
    && forall b: nat :: b < FileBlocks(inode) ==> OnDisk(size, boot, BlockNum(inode, b))
  }

  /** No block belongs to two files. */
  ghost predicate Unshared(inode: seq<byte>, other: seq<byte>)
    requires IsBlock(inode) && IsBlock(other)
  {
    forall b: nat, c: nat :: b < FileBlocks(inode) && c < FileBlocks(other) ==> BlockNum(inode, b) != BlockNum(other, c)
  }

  lemma Offsets(disk: Disk, boot: seq<byte>, i: nat)
    requires Roomy(disk, boot)
    ensures i < NumInodes(boot) ==> InodeOff(i) == (1 + i) * BLK && Loads(disk, InodeOff(i)) && InodeOff(i) + BLK <= DataStart(boot)
    ensures OnDisk(|disk|, boot, i) ==> DataOff(boot, i) == DataStart(boot) + i * BLK && Loads(disk, DataOff(boot, i))
  {
    if i < NumInodes(boot) {
      assert BLK + i * BLK < U32;
    }
    if OnDisk(|disk|, boot, i) {
      assert BLK + NumInodes(boot) * BLK + i * BLK < U32;
    }
  }

  ghost predicate WellFormed(disk: Disk, boot: seq<byte>) {
    && Roomy(disk, boot)
    && (forall i: nat :: i < NumInodes(boot) ==> Loads(disk, InodeOff(i)) && InodeOk(|disk|, boot, InodeOf(disk, i)))
    && (forall i: nat, j: nat :: i < j < NumInodes(boot) ==>
          Loads(disk, InodeOff(i)) && Loads(disk, InodeOff(j)) && Unshared(InodeOf(disk, i), InodeOf(disk, j)))
  }

  // ---------------------------------------------------------------- where a byte of a file lies

  function End(inode: seq<byte>): nat requires IsBlock(inode) { FileBlocks(inode) * BLK }

  function Phys(boot: seq<byte>, inode: seq<byte>, x: nat): nat
    requires IsBlock(boot) && IsBlock(inode) && x < End(inode)
  {
    DataStart(boot) + BlockNum(inode, Idx(x)) * BLK + Rem(x)
  }

  lemma IdxRem(x: nat, blocks: nat)
    requires x < blocks * BLK
    ensures Idx(x) < blocks && x == Idx(x) * BLK + Rem(x) && Rem(x) < BLK
  {
  }

  lemma PhysReadable(disk: Disk, boot: seq<byte>, inode: seq<byte>, x: nat)
    requires Roomy(disk, boot) && InodeOk(|disk|, boot, inode) && x < End(inode)
    ensures Readable(disk, boot, inode, Idx(x)) && DataStart(boot) <= Phys(boot, inode, x) < |disk|
    ensures FileByte(disk, boot, inode, x) == disk[Phys(boot, inode, x)]
  {
    IdxRem(x, FileBlocks(inode));
    Offsets(disk, boot, BlockNum(inode, Idx(x)));
  }

  /** Two bytes of one file, or of two files that share no block, lie apart. */
  lemma PhysApart(boot: seq<byte>, inode: seq<byte>, other: seq<byte>, x: nat, y: nat)
    requires IsBlock(boot) && IsBlock(inode) && Differ(inode) && IsBlock(other) && x < End(inode) && y < End(other)
    requires (other == inode && x != y) || Unshared(inode, other)
    ensures Phys(boot, inode, x) != Phys(boot, other, y)
  {
    IdxRem(x, FileBlocks(inode));
    IdxRem(y, FileBlocks(other));
    hide FileBlocks, BlockNum, DataStart, Idx, Rem;
    var b, c := BlockNum(inode, Idx(x)), BlockNum(other, Idx(y));
    if b == c {
      assert other == inode && Idx(x) == Idx(y);
      assert Rem(x) != Rem(y);
    } else {
      assert b < c || c < b;
    }
  }

  // ---------------------------------------------------------------- the loop

  /** Bytes between pos and the end of the file's last block. */
  function Room(inode: seq<byte>, pos: nat): nat
    requires IsBlock(inode)
  {
    if pos < End(inode) then End(inode) - pos else 0
  }

  /** Requests of 4 GiB and more spin once only whole multiples of 4 GiB are left. */
  predicate Spins(n: nat, room: nat) { n >= U32 && n % U32 < room }

  /** The disk after bytes lo, ..., hi - 1 of the file were replaced from data, which starts at pos. */
  ghost predicate Overlaid(disk: Disk, disk': Disk, boot: seq<byte>, inode: seq<byte>, pos: nat, data: seq<byte>, lo: nat, hi: nat)
    requires IsBlock(boot) && IsBlock(inode) && pos <= lo && hi <= End(inode) && hi <= pos + |data|
  {
    && |disk'| == |disk|
    && (forall x: nat :: lo <= x < hi ==> Phys(boot, inode, x) < |disk| && disk'[Phys(boot, inode, x)] == data[x - pos])
    && (forall y: nat :: y < |disk| && OffPhys(boot, inode, lo, hi, y) ==> disk'[y] == disk[y])
  }

  ghost predicate OffPhys(boot: seq<byte>, inode: seq<byte>, lo: nat, hi: nat, y: nat)
    requires IsBlock(boot) && IsBlock(inode) && hi <= End(inode)
  {
    forall x: nat :: lo <= x < hi ==> Phys(boot, inode, x) != y
  }

  lemma Hit(boot: seq<byte>, inode: seq<byte>, lo: nat, c: nat, at: nat, y: nat)
    requires IsBlock(boot) && IsBlock(inode) && lo + c <= End(inode) && at <= y < at + c
    requires forall x: nat :: lo <= x < lo + c ==> Phys(boot, inode, x) == at + (x - lo)
    ensures !OffPhys(boot, inode, lo, lo + c, y)
  {
    hide Phys;
    assert Phys(boot, inode, lo + (y - at)) == y;
  }

  /** One turn of the loop stays within a block and overlays one run of bytes. */
  lemma ChunkOverlays(disk: Disk, boot: seq<byte>, inode: seq<byte>, pos: nat, data: seq<byte>, w: nat, c: nat)
    requires Roomy(disk, boot) && InodeOk(|disk|, boot, inode) && 0 < c && w + c <= |data| && pos + w + c <= End(inode)
    requires Rem(pos + w) + c <= BLK
    ensures var at := Phys(boot, inode, pos + w);
      at + c <= |disk| && Overlaid(disk, Splice(disk, at, data[w..w + c]), boot, inode, pos, data, pos + w, pos + w + c)
  {
    RunPhys(disk, boot, inode, pos + w, c);
    RunOverlays(disk, boot, inode, pos, data, w, c, Phys(boot, inode, pos + w));
  }

  lemma RunOverlays(disk: Disk, boot: seq<byte>, inode: seq<byte>, pos: nat, data: seq<byte>, w: nat, c: nat, at: nat)
    requires IsBlock(boot) && IsBlock(inode) && w + c <= |data| && pos + w + c <= End(inode) && at + c <= |disk|
    requires forall x: nat :: pos + w <= x < pos + w + c ==> Phys(boot, inode, x) == at + (x - (pos + w))
    ensures Overlaid(disk, Splice(disk, at, data[w..w + c]), boot, inode, pos, data, pos + w, pos + w + c)
  {
    hide Phys, FileBlocks;
    var lo, chunk := pos + w, data[w..w + c];
    var disk' := Splice(disk, at, chunk);
    forall x: nat | lo <= x < lo + c ensures Phys(boot, inode, x) < |disk| && disk'[Phys(boot, inode, x)] == data[x - pos] {
      assert chunk[x - lo] == data[x - pos];
    }
    forall y: nat | y < |disk| && OffPhys(boot, inode, lo, lo + c, y) ensures disk'[y] == disk[y] {
      if at <= y < at + c {
        Hit(boot, inode, lo, c, at, y);
      }
    }
  }

  lemma RunPhys(disk: Disk, boot: seq<byte>, inode: seq<byte>, lo: nat, c: nat)
    requires Roomy(disk, boot) && InodeOk(|disk|, boot, inode) && 0 < c && lo + c <= End(inode) && Rem(lo) + c <= BLK
    ensures var at := Phys(boot, inode, lo);
      at + c <= |disk| && forall x: nat :: lo <= x < lo + c ==> Phys(boot, inode, x) == at + (x - lo)
  {
    var at := Phys(boot, inode, lo);
    forall x: nat | lo <= x < lo + c ensures Phys(boot, inode, x) == at + (x - lo) < |disk| {
      SameRun(lo, x - lo);
      PhysReadable(disk, boot, inode, x);
    }
    hide Phys;
    assert Phys(boot, inode, lo + c - 1) == at + (c - 1);
  }

  lemma OverlaidTrans(d0: Disk, d1: Disk, d2: Disk, boot: seq<byte>, inode: seq<byte>, pos: nat, data: seq<byte>, a: nat, b: nat, c: nat)
    requires IsBlock(boot) && InodeOk(|d0|, boot, inode) && pos <= a <= b <= c <= pos + |data| && c <= End(inode)
    requires Overlaid(d0, d1, boot, inode, pos, data, a, b) && Overlaid(d1, d2, boot, inode, pos, data, b, c)
    ensures Overlaid(d0, d2, boot, inode, pos, data, a, c)
  {
    forall x: nat | a <= x < b ensures OffPhys(boot, inode, b, c, Phys(boot, inode, x)) {
      forall z: nat | b <= z < c ensures Phys(boot, inode, z) != Phys(boot, inode, x) {
        PhysApart(boot, inode, inode, z, x);
      }
    }
    hide Phys;
    forall y: nat | y < |d0| && OffPhys(boot, inode, a, c, y) ensures d2[y] == d0[y] {
      assert OffPhys(boot, inode, a, b, y) && OffPhys(boot, inode, b, c, y);
    }
  }

  /** How far one turn goes when the request does not spin. */
  lemma ChunkLen(inode: seq<byte>, pos: nat, n: nat, w: nat)
    requires IsBlock(inode) && w < n && pos + w < End(inode) && !Spins(n, Room(inode, pos))
    ensures Offset(pos, w) == pos + w && Idx(pos + w) < FileBlocks(inode)
    ensures var c := Chunk(n, w, pos + w); c > 0 && w + c <= n && pos + w + c <= End(inode) && Rem(pos + w) + c <= BLK
  {
    IdxRem(pos + w, FileBlocks(inode));
    assert (Idx(pos + w) + 1) * BLK <= End(inode);
    if n >= U32 {
      assert (n - w) % U32 == n % U32 - w;
    }
  }

  /** The loop has ended k bytes in, having overlaid those from w on. */
  ghost predicate LoopDone(disk: Disk, r: WriteOut, boot: seq<byte>, inode: seq<byte>, pos: nat, data: seq<byte>, w: nat, k: nat)
    requires IsBlock(boot) && IsBlock(inode) && w <= k <= |data| && (k > 0 ==> pos + k <= End(inode))
  {
    && r.Wrote? && r.w == k
    && if k > 0 then Overlaid(disk, r.disk, boot, inode, pos, data, pos + w, pos + k) else r.disk == disk
  }

  /** The loop overlays as much of the data as the file has room for. */
  lemma {:induction false} LoopOverlays(disk: Disk, boot: seq<byte>, inode: seq<byte>, pos: nat, data: seq<byte>, w: nat, k: nat)
    requires IsBlock(boot) && IsBlock(inode) && Roomy(disk, boot) && InodeOk(|disk|, boot, inode) && pos < U32
    requires !Spins(|data|, Room(inode, pos)) && w <= k == Min(|data|, Room(inode, pos))
    ensures LoopDone(disk, WriteLoop(disk, boot, inode, pos, data, w), boot, inode, pos, data, w, k)
    decreases |data| - w
  {
    hide WriteLoop, FileBlocks, Overlaid, InodeOk, Roomy, Spins, Chunk, Phys, Splice, End, Room, Min, LoopDone;
    RoomEnd(inode, pos, |data|, w);
    if w == |data| || pos + w >= End(inode) {
      LoopStops(disk, boot, inode, pos, data, w);
      NothingOverlaid(disk, boot, inode, pos, data, k);
    } else {
      LoopStep(disk, boot, inode, pos, data, w);
      var c := Chunk(|data|, w, pos + w);
      var disk1 := Splice(disk, Phys(boot, inode, pos + w), data[w..w + c]);
      RoomEnd(inode, pos, |data|, w + c);
      LoopOverlays(disk1, boot, inode, pos, data, w + c, k);
      LoopJoin(disk, disk1, WriteLoop(disk1, boot, inode, pos, data, w + c), boot, inode, pos, data, w, w + c, k);
    }
  }

  lemma LoopJoin(disk: Disk, disk1: Disk, r: WriteOut, boot: seq<byte>, inode: seq<byte>, pos: nat, data: seq<byte>, w: nat, v: nat, k: nat)
    requires IsBlock(boot) && InodeOk(|disk|, boot, inode) && w < v <= k <= |data| && pos + k <= End(inode)
    requires Overlaid(disk, disk1, boot, inode, pos, data, pos + w, pos + v) && LoopDone(disk1, r, boot, inode, pos, data, v, k)
    ensures LoopDone(disk, r, boot, inode, pos, data, w, k)
  {
    hide Overlaid;
    OverlaidTrans(disk, disk1, r.disk, boot, inode, pos, data, pos + w, pos + v, pos + k);
  }

  lemma RoomEnd(inode: seq<byte>, pos: nat, n: nat, w: nat)
    requires IsBlock(inode)
    ensures var k := Min(n, Room(inode, pos));
      && k <= n && k <= Room(inode, pos) && (k > 0 ==> pos + k <= End(inode))
      && (w <= k && (w == n || pos + w >= End(inode)) ==> w == k)
      && (w <= n && pos + w <= End(inode) ==> w <= k)
  {
  }

  lemma NothingOverlaid(disk: Disk, boot: seq<byte>, inode: seq<byte>, pos: nat, data: seq<byte>, k: nat)
    requires IsBlock(boot) && IsBlock(inode) && k <= |data| && (k > 0 ==> pos + k <= End(inode))
    ensures LoopDone(disk, Wrote(disk, k), boot, inode, pos, data, k, k)
  {
  }

  lemma LoopStep(disk: Disk, boot: seq<byte>, inode: seq<byte>, pos: nat, data: seq<byte>, w: nat)
    requires IsBlock(inode) && Roomy(disk, boot) && InodeOk(|disk|, boot, inode) && !Spins(|data|, Room(inode, pos)) && w < |data| && pos + w < End(inode)
    ensures var c := Chunk(|data|, w, pos + w);
      && 0 < c && w + c <= |data| && pos + w + c <= End(inode)
      && Phys(boot, inode, pos + w) + c <= |disk|
      && var disk1 := Splice(disk, Phys(boot, inode, pos + w), data[w..w + c]);
      && WriteLoop(disk, boot, inode, pos, data, w) == WriteLoop(disk1, boot, inode, pos, data, w + c)
      && Overlaid(disk, disk1, boot, inode, pos, data, pos + w, pos + w + c)
      && Roomy(disk1, boot)
  {
    hide Overlaid, Splice, FileBlocks, InodeOk, Spins, Chunk, Offset, Idx, Rem, DataStart;
    ChunkLen(inode, pos, |data|, w);
    var x, c := pos + w, Chunk(|data|, w, pos + w);
    BlockOfByte(disk, boot, inode, x);
    ChunkOverlays(disk, boot, inode, pos, data, w, c);
    hide DataOff, BlockNum, Phys;
  }

  lemma BlockOfByte(disk: Disk, boot: seq<byte>, inode: seq<byte>, x: nat)
    requires Roomy(disk, boot) && InodeOk(|disk|, boot, inode) && x < End(inode)
    ensures Idx(x) < FileBlocks(inode) && Loads(disk, DataOff(boot, BlockNum(inode, Idx(x))))
    ensures Phys(boot, inode, x) == DataOff(boot, BlockNum(inode, Idx(x))) + Rem(x)
  {
    IdxRem(x, FileBlocks(inode));
    Offsets(disk, boot, BlockNum(inode, Idx(x)));
  }

  lemma EndSmall(inode: seq<byte>)
    requires IsBlock(inode)
    ensures End(inode) < U32 && FileBlocks(inode) <= MAX_BLOCKS
  {
  }

  lemma PastEnd(x: nat, blocks: nat)
    requires x >= blocks * BLK
    ensures Idx(x) >= blocks
  {
  }

  lemma LoopStops(disk: Disk, boot: seq<byte>, inode: seq<byte>, pos: nat, data: seq<byte>, w: nat)
    requires IsBlock(boot) && IsBlock(inode) && pos < U32 && w <= |data| && (w == |data| || pos + w >= End(inode))
    requires w <= Room(inode, pos)
    ensures WriteLoop(disk, boot, inode, pos, data, w) == Wrote(disk, w)
  {
    hide FileBlocks, DataOff, BlockNum, Chunk;
    if w < |data| {
      EndSmall(inode);
      PastEnd(pos + w, FileBlocks(inode));
      assert pos + w < U32;
      hide Idx;
      assert Offset(pos, w) == pos + w;
    }
  }

  predicate Residue(n: nat, rest: nat) { n >= U32 && rest == n % U32 }

  /** Such a request writes its residue below 4 GiB and is then stuck. */
  lemma {:induction false} LoopSpins(disk: Disk, boot: seq<byte>, inode: seq<byte>, pos: nat, data: seq<byte>, w: nat, rest: nat)
    requires IsBlock(inode) && IsBlock(boot) && Roomy(disk, boot) && InodeOk(|disk|, boot, inode)
    requires Residue(|data|, rest) && w <= rest < Room(inode, pos)
    ensures WriteLoop(disk, boot, inode, pos, data, w) == Hangs
    decreases rest - w
  {
    hide WriteLoop, InodeOk, Roomy, Phys, Chunk, Splice, Room, Residue;
    SpinStep(disk, boot, inode, pos, data, w, rest);
    var c := Chunk(|data|, w, pos + w);
    if c > 0 {
      LoopSpins(Splice(disk, Phys(boot, inode, pos + w), data[w..w + c]), boot, inode, pos, data, w + c, rest);
    }
  }

  lemma SpinStep(disk: Disk, boot: seq<byte>, inode: seq<byte>, pos: nat, data: seq<byte>, w: nat, rest: nat)
    requires IsBlock(inode) && IsBlock(boot) && Roomy(disk, boot) && InodeOk(|disk|, boot, inode)
    requires Residue(|data|, rest) && w <= rest < Room(inode, pos)
    ensures pos + w < End(inode) && w < |data|
    ensures var c := Chunk(|data|, w, pos + w);
      && w + c <= rest && w + c <= |data| && Phys(boot, inode, pos + w) + c <= |disk|
      && (c == 0 ==> WriteLoop(disk, boot, inode, pos, data, w) == Hangs)
      && (c > 0 ==> var disk1 := Splice(disk, Phys(boot, inode, pos + w), data[w..w + c]);
           && |disk1| == |disk| && Roomy(disk1, boot)
           && WriteLoop(disk, boot, inode, pos, data, w) == WriteLoop(disk1, boot, inode, pos, data, w + c))
  {
    hide Room, FileBlocks, InodeOk, Idx, Rem, Offset, Phys, DataOff, BlockNum, Chunk, DataStart, Splice, Residue;
    SpinLen(inode, pos, |data|, w, rest);
    BlockOfByte(disk, boot, inode, pos + w);
    RunFits(disk, boot, inode, pos + w, Chunk(|data|, w, pos + w));
  }

  lemma SpinLen(inode: seq<byte>, pos: nat, n: nat, w: nat, rest: nat)
    requires IsBlock(inode) && Residue(n, rest) && w <= rest < Room(inode, pos)
    ensures Offset(pos, w) == pos + w < End(inode) && w < n && rest <= n
    ensures var c := Chunk(n, w, pos + w); (c == 0 <==> w == rest) && w + c <= rest && Rem(pos + w) + c <= BLK
  {
    EndSmall(inode);
    ModSub(n, w);
    hide FileBlocks;
    RemSmall(pos + w);
    hide Rem;
  }

  lemma ModSub(n: nat, w: nat)
    requires w <= n % U32
    ensures w <= n && (n - w) % U32 == n % U32 - w
  {
    var q, m := n / U32, n % U32;
    assert n - w == q * U32 + (m - w);
  }

  lemma RemSmall(x: nat)
    ensures Rem(x) < BLK
  {
  }

  lemma RunFits(disk: Disk, boot: seq<byte>, inode: seq<byte>, x: nat, c: nat)
    requires Roomy(disk, boot) && InodeOk(|disk|, boot, inode) && x < End(inode) && Rem(x) + c <= BLK
    ensures Phys(boot, inode, x) + c <= |disk|
  {
    BlockOfByte(disk, boot, inode, x);
  }

  // ---------------------------------------------------------------- the overlay, file by file

  ghost predicate MetaKept(disk: Disk, disk': Disk, boot: seq<byte>)
    requires IsBlock(boot)
  {
    |disk'| == |disk| && forall y: nat :: y < DataStart(boot) && y < |disk| ==> disk'[y] == disk[y]
  }

  function OverlayByte(was: byte, pos: nat, data: seq<byte>, k: nat, x: nat): byte
    requires k <= |data|
  {
    if pos <= x < pos + k then data[x - pos] else was
  }

  lemma MetaStays(disk: Disk, disk': Disk, boot: seq<byte>, inode: seq<byte>, pos: nat, data: seq<byte>, lo: nat, hi: nat)
    requires Roomy(disk, boot) && InodeOk(|disk|, boot, inode) && pos <= lo && hi <= End(inode) && hi <= pos + |data|
    requires Overlaid(disk, disk', boot, inode, pos, data, lo, hi)
    ensures MetaKept(disk, disk', boot)
  {
    forall y: nat | y < DataStart(boot) && y < |disk| ensures disk'[y] == disk[y] {
      assert OffPhys(boot, inode, lo, hi, y);
    }
  }

  lemma OwnByte(disk: Disk, disk': Disk, boot: seq<byte>, inode: seq<byte>, pos: nat, data: seq<byte>, k: nat, x: nat)
    requires Roomy(disk, boot) && InodeOk(|disk|, boot, inode) && pos + k <= End(inode) && k <= |data| && x < End(inode)
    requires Overlaid(disk, disk', boot, inode, pos, data, pos, pos + k)
    ensures FileByte(disk', boot, inode, x) == OverlayByte(FileByte(disk, boot, inode, x), pos, data, k, x)
  {
    PhysReadable(disk, boot, inode, x);
    PhysReadable(disk', boot, inode, x);
    hide FileByte, Phys, Roomy, FileBlocks;
    if !(pos <= x < pos + k) {
      forall z: nat | pos <= z < pos + k ensures Phys(boot, inode, z) != Phys(boot, inode, x) {
        PhysApart(boot, inode, inode, z, x);
      }
      assert OffPhys(boot, inode, pos, pos + k, Phys(boot, inode, x));
    }
  }

  lemma OtherByte(disk: Disk, disk': Disk, boot: seq<byte>, inode: seq<byte>, other: seq<byte>, pos: nat, data: seq<byte>, k: nat, x: nat)
    requires Roomy(disk, boot) && InodeOk(|disk|, boot, inode) && pos + k <= End(inode) && k <= |data|
    requires InodeOk(|disk|, boot, other) && x < End(other) && Unshared(inode, other)
    requires Overlaid(disk, disk', boot, inode, pos, data, pos, pos + k)
    ensures FileByte(disk', boot, other, x) == FileByte(disk, boot, other, x)
  {
    PhysReadable(disk, boot, other, x);
    PhysReadable(disk', boot, other, x);
    hide FileByte, Phys, Roomy, FileBlocks;
    forall z: nat | pos <= z < pos + k ensures Phys(boot, inode, z) != Phys(boot, other, x) {
      PhysApart(boot, inode, other, z, x);
    }
    assert OffPhys(boot, inode, pos, pos + k, Phys(boot, other, x));
  }

  lemma InodesStay(disk: Disk, disk': Disk, boot: seq<byte>, i: nat)
    requires Roomy(disk, boot) && MetaKept(disk, disk', boot) && i < NumInodes(boot)
    ensures Loads(disk, InodeOff(i)) && Loads(disk', InodeOff(i)) && InodeOf(disk', i) == InodeOf(disk, i)
  {
    Offsets(disk, boot, i);
  }

  lemma StaysWellFormed(disk: Disk, disk': Disk, boot: seq<byte>)
    requires WellFormed(disk, boot) && MetaKept(disk, disk', boot)
    ensures WellFormed(disk', boot)
  {
    hide InodeOk, Unshared, MetaKept;
    MetaLen(disk, disk', boot);
    assert Roomy(disk', boot);
    forall i: nat | i < NumInodes(boot) ensures Loads(disk', InodeOff(i)) && Loads(disk, InodeOff(i)) && InodeOf(disk', i) == InodeOf(disk, i) {
      InodesStay(disk, disk', boot, i);
    }
    hide InodeOf, Roomy;
  }

  lemma MetaLen(disk: Disk, disk': Disk, boot: seq<byte>)
    requires IsBlock(boot) && MetaKept(disk, disk', boot)
    ensures |disk'| == |disk|
  {
  }

  lemma SharesNothing(disk: Disk, boot: seq<byte>, i: nat, j: nat)
    requires WellFormed(disk, boot) && i < NumInodes(boot) && j < NumInodes(boot) && i != j
    ensures Loads(disk, InodeOff(i)) && Loads(disk, InodeOff(j)) && Unshared(InodeOf(disk, i), InodeOf(disk, j))
  {
    if i < j {
      assert Unshared(InodeOf(disk, i), InodeOf(disk, j));
    } else {
      assert Unshared(InodeOf(disk, j), InodeOf(disk, i));
      var a, b := InodeOf(disk, i), InodeOf(disk, j);
      forall c: nat, d: nat | c < FileBlocks(a) && d < FileBlocks(b) ensures BlockNum(a, c) != BlockNum(b, d) {
        assert BlockNum(b, d) != BlockNum(a, c);
      }
    }
  }

  // ---------------------------------------------------------------- fs_write

  /** File ino of disk' is that of disk with data laid over bytes pos, ..., pos + k - 1. */
  ghost predicate FileOverlaid(disk: Disk, disk': Disk, boot: seq<byte>, inode: seq<byte>, pos: nat, data: seq<byte>, k: nat)
    requires IsBlock(boot) && IsBlock(inode) && k <= |data|
  {
    forall x: nat :: x < End(inode) ==> FileByte(disk', boot, inode, x) == OverlayByte(FileByte(disk, boot, inode, x), pos, data, k, x)
  }

  ghost predicate FileKept(disk: Disk, disk': Disk, boot: seq<byte>, inode: seq<byte>)
    requires IsBlock(boot) && IsBlock(inode)
  {
    forall x: nat :: x < End(inode) ==> FileByte(disk', boot, inode, x) == FileByte(disk, boot, inode, x)
  }

  /** A whole write to file ino: nothing but the overlay has changed, and the disk is as well formed as it was. */
  ghost predicate WriteEffect(disk: Disk, disk': Disk, boot: seq<byte>, ino: nat, pos: nat, data: seq<byte>, k: nat)
    requires WellFormed(disk, boot) && ino < NumInodes(boot) && k <= |data|
  {
    && WellFormed(disk', boot) && MetaKept(disk, disk', boot)
    && (forall i: nat :: i < NumInodes(boot) ==> InodeOf(disk', i) == InodeOf(disk, i))
    && FileOverlaid(disk, disk', boot, InodeOf(disk, ino), pos, data, k)
    && (forall i: nat :: i < NumInodes(boot) && i != ino ==> FileKept(disk, disk', boot, InodeOf(disk, i)))
  }

  lemma EffectOfOverlay(disk: Disk, disk': Disk, boot: seq<byte>, ino: nat, pos: nat, data: seq<byte>, k: nat)
    requires WellFormed(disk, boot) && ino < NumInodes(boot) && k <= |data|
    requires var inode := InodeOf(disk, ino); pos + k <= End(inode) && Overlaid(disk, disk', boot, inode, pos, data, pos, pos + k)
    ensures WriteEffect(disk, disk', boot, ino, pos, data, k)
  {
    var inode := InodeOf(disk, ino);
    MetaStays(disk, disk', boot, inode, pos, data, pos, pos + k);
    StaysWellFormed(disk, disk', boot);
    hide Overlaid, FileByte, OverlayByte, MetaKept, InodeOk;
    forall i: nat | i < NumInodes(boot) ensures InodeOf(disk', i) == InodeOf(disk, i) {
      InodesStay(disk, disk', boot, i);
    }
    forall x: nat | x < End(inode) ensures FileByte(disk', boot, inode, x) == OverlayByte(FileByte(disk, boot, inode, x), pos, data, k, x) {
      OwnByte(disk, disk', boot, inode, pos, data, k, x);
    }
    forall i: nat | i < NumInodes(boot) && i != ino ensures FileKept(disk, disk', boot, InodeOf(disk, i)) {
      OthersUnchanged(disk, disk', boot, ino, pos, data, k, i);
    }
  }

  lemma OthersUnchanged(disk: Disk, disk': Disk, boot: seq<byte>, ino: nat, pos: nat, data: seq<byte>, k: nat, i: nat)
    requires WellFormed(disk, boot) && ino < NumInodes(boot) && i < NumInodes(boot) && i != ino && k <= |data|
    requires var inode := InodeOf(disk, ino); pos + k <= End(inode) && Overlaid(disk, disk', boot, inode, pos, data, pos, pos + k)
    ensures FileKept(disk, disk', boot, InodeOf(disk, i))
  {
    SharesNothing(disk, boot, ino, i);
    hide Overlaid, FileByte, InodeOk, Unshared;
    forall x: nat | x < End(InodeOf(disk, i)) ensures FileByte(disk', boot, InodeOf(disk, i), x) == FileByte(disk, boot, InodeOf(disk, i), x) {
      OtherByte(disk, disk', boot, InodeOf(disk, ino), InodeOf(disk, i), pos, data, k, x);
    }
  }

  lemma NoEffect(disk: Disk, boot: seq<byte>, ino: nat, pos: nat, data: seq<byte>)
    requires WellFormed(disk, boot) && ino < NumInodes(boot)
    ensures WriteEffect(disk, disk, boot, ino, pos, data, 0)
  {
    hide FileByte, InodeOk, Unshared;
  }

  /** Writing the inode back changes nothing. */
  lemma InodeBack(disk: Disk, disk': Disk, boot: seq<byte>, ino: nat)
    requires Roomy(disk, boot) && MetaKept(disk, disk', boot) && ino < NumInodes(boot)
    ensures Loads(disk, InodeOff(ino)) && |disk'| == |disk| && Splice(disk', InodeOff(ino), InodeOf(disk, ino)) == disk'
  {
    Offsets(disk, boot, ino);
    var off := InodeOff(ino);
    assert forall y: nat :: off <= y < off + BLK ==> disk'[y] == disk[y];
  }

  /** The loop, when it ends. */
  lemma LoopEffect(disk: Disk, boot: seq<byte>, ino: nat, pos: nat, data: seq<byte>, k: nat)
    requires WellFormed(disk, boot) && ino < NumInodes(boot) && pos < U32
    requires Loads(disk, InodeOff(ino)) && IsBlock(InodeOf(disk, ino))
    requires !Spins(|data|, Room(InodeOf(disk, ino), pos)) && k == Min(|data|, Room(InodeOf(disk, ino), pos)) <= |data|
    ensures var r := WriteLoop(disk, boot, InodeOf(disk, ino), pos, data, 0);
      && r.Wrote? && r.w == k && |r.disk| == |disk|
      && WriteEffect(disk, r.disk, boot, ino, pos, data, k)
      && Splice(r.disk, InodeOff(ino), InodeOf(disk, ino)) == r.disk
  {
    hide WriteLoop, Spins, InodeOk, Unshared, WriteEffect, WellFormed, Roomy, FileBlocks, InodeOff, InodeOf, Overlaid, MetaKept, Min, NumInodes, Splice, Room;
    FileFacts(disk, boot, ino, pos, |data|);
    var inode := InodeOf(disk, ino);
    var r := WriteLoop(disk, boot, inode, pos, data, 0);
    LoopOverlays(disk, boot, inode, pos, data, 0, k);
    RoomEnd(inode, pos, |data|, 0);
    if k > 0 {
      EffectOfOverlay(disk, r.disk, boot, ino, pos, data, k);
      MetaStays(disk, r.disk, boot, inode, pos, data, pos, pos + k);
    } else {
      NoEffect(disk, boot, ino, pos, data);
      SameMeta(disk, boot);
    }
    InodeBack(disk, r.disk, boot, ino);
  }

  lemma SameMeta(disk: Disk, boot: seq<byte>)
    requires IsBlock(boot)
    ensures MetaKept(disk, disk, boot)
  {
  }

  lemma FileFacts(disk: Disk, boot: seq<byte>, ino: nat, pos: nat, n: nat)
    requires WellFormed(disk, boot) && ino < NumInodes(boot) && pos < U32
    ensures IsBlock(boot) && Roomy(disk, boot) && Loads(disk, InodeOff(ino))
    ensures var inode := InodeOf(disk, ino);
      IsBlock(inode) && InodeOk(|disk|, boot, inode) && Min(n, Room(inode, pos)) <= n && pos + Min(n, Room(inode, pos)) < U32
  {
    Offsets(disk, boot, ino);
    EndSmall(InodeOf(disk, ino));
    RoomEnd(InodeOf(disk, ino), pos, n, 0);
  }

  lemma WriteEnds(disk: Disk, boot: seq<byte>, fd: Fd, data: seq<byte>)
    requires IsBlock(boot) && data != [] && fd.ino < NumInodes(boot) && Loads(disk, InodeOff(fd.ino))
    ensures var r := WriteLoop(disk, boot, InodeOf(disk, fd.ino), fd.pos, data, 0);
      && (r == Hangs ==> Write(disk, boot, fd, data) == WriteHangs)
      && (r.Wrote? && fd.pos + r.w < U32 && Splice(r.disk, InodeOff(fd.ino), InodeOf(disk, fd.ino)) == r.disk ==>
            Write(disk, boot, fd, data) == WriteOk(r.w, r.disk, fd.(pos := fd.pos + r.w)))
  {
    hide WriteLoop, InodeOff, BlockAt, NumInodes;
  }

  /**
   fs_write returns min(n, room), where room runs to the end of the file's last block, lays exactly
   those bytes over the file and touches nothing else; and it returns unless n is at least 4 GiB
   with a residue that fits.
   */
  lemma WriteMeaning(disk: Disk, boot: seq<byte>, fd: Fd, data: seq<byte>)
    requires WellFormed(disk, boot) && fd.ino < NumInodes(boot) && fd.pos < U32 && data != []
    ensures Loads(disk, InodeOff(fd.ino))
    ensures var room := Room(InodeOf(disk, fd.ino), fd.pos);
      var r, k := Write(disk, boot, fd, data), Min(|data|, room);
      && (r.WriteHangs? <==> Spins(|data|, room))
      && (!Spins(|data|, room) ==>
            && r.WriteOk? && r.n == k && r.fd == fd.(pos := fd.pos + k)
            && WriteEffect(disk, r.disk, boot, fd.ino, fd.pos, data, k))
  {
    hide WriteLoop, WellFormed, Roomy, InodeOk, WriteEffect, FileBlocks, InodeOff, InodeOf, Room, Min, NumInodes, BlockAt, Write, Splice;
    FileFacts(disk, boot, fd.ino, fd.pos, |data|);
    var inode := InodeOf(disk, fd.ino);
    WriteEnds(disk, boot, fd, data);
    if Spins(|data|, Room(inode, fd.pos)) {
      LoopSpins(disk, boot, inode, fd.pos, data, 0, |data| % U32);
    } else {
      LoopEffect(disk, boot, fd.ino, fd.pos, data, Min(|data|, Room(inode, fd.pos)));
    }
  }

  // ---------------------------------------------------------------- and reading it back

  lemma ReadGood(disk: Disk, boot: seq<byte>, fd: Fd, n: nat)
    requires WellFormed(disk, boot) && fd.ino < NumInodes(boot) && n > 0 && fd.pos < fd.size && Loads(disk, InodeOff(fd.ino))
    requires fd.size <= End(InodeOf(disk, fd.ino))
    ensures var m := Min(n, fd.size - fd.pos);
      ReadResult(disk, boot, fd, n) == ReadOk(FileRange(disk, boot, InodeOf(disk, fd.ino), fd.pos, m), fd.(pos := fd.pos + m))
  {
    var inode, m := InodeOf(disk, fd.ino), Min(n, fd.size - fd.pos);
    assert InodeOk(|disk|, boot, inode);
    hide FileRange, FileBlocks, InodeOk, InodeOff;
    forall b: nat | Idx(fd.pos) <= b && b * BLK < fd.pos + m ensures Readable(disk, boot, inode, b) {
      PhysReadable(disk, boot, inode, b * BLK);
      assert Idx(b * BLK) == b;
    }
  }

  lemma EndCovers(inode: seq<byte>)
    requires IsBlock(inode) && ByteLen(inode) <= MAX_BLOCKS * BLK
    ensures ByteLen(inode) <= End(inode) < ByteLen(inode) + BLK
  {
  }

  /** After a write, seeking and reading return the overlay, clipped to the file's length. */
  lemma WriteThenRead(disk: Disk, boot: seq<byte>, fd: Fd, data: seq<byte>, p: nat, n: nat)
    requires WellFormed(disk, boot) && fd.ino < NumInodes(boot) && fd.pos < U32 && data != [] && Loads(disk, InodeOff(fd.ino))
    requires fd.size == ByteLen(InodeOf(disk, fd.ino)) <= MAX_BLOCKS * BLK
    requires !Spins(|data|, Room(InodeOf(disk, fd.ino), fd.pos)) && n > 0 && p < fd.size
    ensures var inode, k := InodeOf(disk, fd.ino), Min(|data|, Room(InodeOf(disk, fd.ino), fd.pos));
      var w := Write(disk, boot, fd, data);
      && w.WriteOk?
      && var r := ReadResult(w.disk, boot, w.fd.(pos := p), n);
      && r.ReadOk? && |r.data| == Min(n, fd.size - p) && r.fd == fd.(pos := p + |r.data|)
      && forall j :: 0 <= j < |r.data| ==> r.data[j] == OverlayByte(FileByte(disk, boot, inode, p + j), fd.pos, data, k, p + j)
  {
    hide Write, WellFormed, ReadResult, FileBlocks, Room, FileByte, OverlayByte, InodeOff, InodeOf, NumInodes, ByteLen, Spins, MetaKept;
    FileFacts(disk, boot, fd.ino, fd.pos, |data|);
    WriteMeaning(disk, boot, fd, data);
    var inode, w := InodeOf(disk, fd.ino), Write(disk, boot, fd, data);
    EndCovers(inode);
    FileFacts(w.disk, boot, fd.ino, fd.pos, |data|);
    ReadGood(w.disk, boot, w.fd.(pos := p), n);
  }
}
