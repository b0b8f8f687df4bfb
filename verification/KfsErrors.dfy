/**
 When fs_read and fs_write fail (src/kern/kfs.c:295-525), told for every disk, well formed or not: the
 exact condition on the blocks needed, and what a failing write has already stored.
 */
module KfsErrors {
  import opened Bytes
  import opened KfsSpec
  import opened KfsWrites

  /** The file's inode cannot be had. */
  predicate NoInode(disk: Disk, boot: seq<byte>, ino: nat)
    requires IsBlock(boot)
  {
    ino >= NumInodes(boot) || |disk| < InodeOff(ino) + 4096
  }

  /** Block b of the file lies on a disk of this size. */
  predicate Placed(size: nat, boot: seq<byte>, inode: seq<byte>, b: nat)
    requires IsBlock(boot) && IsBlock(inode)
  {
    b < FileBlocks(inode) && DataOff(boot, BlockNum(inode, b)) + 4096 <= size
  }

  ghost predicate AllPlaced(size: nat, boot: seq<byte>, inode: seq<byte>, lo: nat, hi: nat)
    requires IsBlock(boot) && IsBlock(inode)
  {
    forall b: nat :: lo < hi && lo / 4096 <= b && b * 4096 < hi ==> Placed(size, boot, inode, b)
  }

  // ---------------------------------------------------------------- reading

  /**
   A read fails exactly if it asks for something and the inode cannot be had, or a block it needs is
   beyond the file's blocks, beyond the blocks the boot block counts, or off the disk. Otherwise it
   moves the position by what it returns, which is all there is up to the end of the file.
   */
  lemma ReadErrExactly(disk: Disk, boot: seq<byte>, fd: Fd, n: nat)
    requires IsBlock(boot) && fd.pos < U32 && fd.size < U32
    ensures var r := ReadResult(disk, boot, fd, n);
      var m := if fd.pos >= fd.size then 0 else if n < fd.size - fd.pos then n else fd.size - fd.pos;
      && (m == 0 ==> r == ReadOk([], fd))
      && (m > 0 && NoInode(disk, boot, fd.ino) ==> r == ReadErr)
      && (m > 0 && !NoInode(disk, boot, fd.ino) ==>
            var inode := BlockAt(disk, InodeOff(fd.ino));
            (r == ReadErr <==>
              exists b: nat :: fd.pos / 4096 <= b && b * 4096 < fd.pos + m && (!Placed(|disk|, boot, inode, b) || BlockNum(inode, b) >= NumData(boot))))
      && (r.ReadOk? ==> |r.data| == m && r.fd == fd.(pos := fd.pos + m))
  {
    hide FileRange, InodeOff, FileBlocks, DataOff;
    if n > 0 && fd.pos < fd.size && !NoInode(disk, boot, fd.ino) {
      var inode, m := BlockAt(disk, InodeOff(fd.ino)), Min(n, fd.size - fd.pos);
      forall b: nat ensures Readable(disk, boot, inode, b) <==> Placed(|disk|, boot, inode, b) && BlockNum(inode, b) < NumData(boot) {}
      hide Readable, Placed;
    }
  }

  // ---------------------------------------------------------------- writing

  /** A turn that does not finish the request fills its block to the end. */
  lemma ChunkFills(inode: seq<byte>, pos: nat, n: nat, w: nat)
    requires IsBlock(inode) && w < n && pos + w < End(inode) && !Spins(n, Room(inode, pos))
    ensures var c := Chunk(n, w, pos + w); w + c == n || Rem(pos + w) + c == BLK
    ensures pos + n > End(inode) || n >= U32 ==> Rem(pos + w) + Chunk(n, w, pos + w) == BLK
  {
    IdxRem(pos + w, FileBlocks(inode));
    assert (Idx(pos + w) + 1) * BLK <= End(inode);
    EndSmall(inode);
    if n >= U32 {
      ModSub(n, w);
    }
  }

  /** One turn: the block needed is off the disk, or the loop goes on behind the bytes stored. */
  lemma AnyStep(disk: Disk, boot: seq<byte>, inode: seq<byte>, pos: nat, data: seq<byte>, w: nat)
    requires IsBlock(boot) && IsBlock(inode) && !Spins(|data|, Room(inode, pos)) && w < |data| && pos + w < End(inode)
    ensures var c := Chunk(|data|, w, pos + w);
      && 0 < c && w + c <= |data| && pos + w + c <= End(inode) && Rem(pos + w) + c <= BLK && Idx(pos + w) < FileBlocks(inode)
      && var at := DataOff(boot, BlockNum(inode, Idx(pos + w)));
      && (!Loads(disk, at) ==> WriteLoop(disk, boot, inode, pos, data, w) == Failed(disk))
      && (Loads(disk, at) ==>
            WriteLoop(disk, boot, inode, pos, data, w) ==
            WriteLoop(Splice(disk, at + Rem(pos + w), data[w..w + c]), boot, inode, pos, data, w + c))
  {
    ChunkLen(inode, pos, |data|, w);
    hide Chunk, FileBlocks, Splice, DataOff, BlockNum, Idx, Rem, Offset;
  }

  lemma PlacedStep(size: nat, boot: seq<byte>, inode: seq<byte>, lo: nat, c: nat, hi: nat)
    requires IsBlock(boot) && IsBlock(inode) && 0 < c && lo + c <= hi && Rem(lo) + c <= BLK
    requires lo + c == hi || Rem(lo) + c == BLK
    ensures AllPlaced(size, boot, inode, lo, hi) <==> Placed(size, boot, inode, Idx(lo)) && AllPlaced(size, boot, inode, lo + c, hi)
  {
    hide Placed;
    if lo + c < hi {
      assert lo + c == (Idx(lo) + 1) * BLK && (lo + c) / 4096 == Idx(lo) + 1;
    } else {
      assert forall b: nat :: lo / 4096 <= b && b * 4096 < hi <==> b == Idx(lo);
    }
  }

  /** On any disk the loop writes all that fits, unless a block it needs is off the disk: then it fails. */
  lemma {:induction false} LoopOutcome(disk: Disk, boot: seq<byte>, inode: seq<byte>, pos: nat, data: seq<byte>, w: nat, k: nat)
    requires IsBlock(boot) && IsBlock(inode) && pos < U32
    requires !Spins(|data|, Room(inode, pos)) && w <= k == Min(|data|, Room(inode, pos))
    ensures var r := WriteLoop(disk, boot, inode, pos, data, w);
      if AllPlaced(|disk|, boot, inode, pos + w, pos + k) then r.Wrote? && r.w == k else r.Failed?
    decreases |data| - w
  {
    hide WriteLoop, FileBlocks, Spins, Chunk, Splice, End, Room, Min, DataOff, BlockNum, Idx, Rem, AllPlaced;
    RoomEnd(inode, pos, |data|, w);
    if w == |data| || pos + w >= End(inode) {
      LoopStops(disk, boot, inode, pos, data, w);
      NonePlaced(|disk|, boot, inode, pos + w);
    } else {
      AnyStep(disk, boot, inode, pos, data, w);
      ChunkFills(inode, pos, |data|, w);
      var c := Chunk(|data|, w, pos + w);
      RoomEnd(inode, pos, |data|, w + c);
      PlacedStep(|disk|, boot, inode, pos + w, c, pos + k);
      var at := DataOff(boot, BlockNum(inode, Idx(pos + w)));
      if Loads(disk, at) {
        LoopOutcome(Splice(disk, at + Rem(pos + w), data[w..w + c]), boot, inode, pos, data, w + c, k);
      }
    }
  }

  lemma NonePlaced(size: nat, boot: seq<byte>, inode: seq<byte>, lo: nat)
    requires IsBlock(boot) && IsBlock(inode)
    ensures AllPlaced(size, boot, inode, lo, lo)
  {
  }

  /**
   On every disk a write that does not spin fails exactly if the inode cannot be had or a block that is
   to receive a byte is off the disk; otherwise it writes as many bytes as there is room for.
   */
  lemma WriteErrExactly(disk: Disk, boot: seq<byte>, fd: Fd, data: seq<byte>)
    requires IsBlock(boot) && fd.pos < U32 && data != []
    ensures NoInode(disk, boot, fd.ino) ==> Write(disk, boot, fd, data) == WriteErr(disk)
    ensures !NoInode(disk, boot, fd.ino) ==>
      var inode := BlockAt(disk, InodeOff(fd.ino));
      var r, room := Write(disk, boot, fd, data), Room(inode, fd.pos);
      var k := if |data| < room then |data| else room;
      !Spins(|data|, room) ==>
        (if AllPlaced(|disk|, boot, inode, fd.pos, fd.pos + k) then r.WriteOk? && r.n == k && r.fd == fd.(pos := fd.pos + k) else r.WriteErr?)
  {
    hide WriteLoop, InodeOff, Room, Splice, Spins, AllPlaced;
    if !NoInode(disk, boot, fd.ino) {
      var inode := BlockAt(disk, InodeOff(fd.ino));
      var room := Room(inode, fd.pos);
      if !Spins(|data|, room) {
        LoopOutcome(disk, boot, inode, fd.pos, data, 0, Min(|data|, room));
        RoomEnd(inode, fd.pos, |data|, 0);
        EndSmall(inode);
      }
    }
  }

  /**
   A write that fails at block m, the first one off the disk, has stored what a write of only the bytes
   before that block stores, and nothing else.
   */
  lemma {:induction false} FailsAfterPrefix(disk: Disk, boot: seq<byte>, inode: seq<byte>, pos: nat, data: seq<byte>, w: nat, m: nat, k: nat)
    requires IsBlock(boot) && IsBlock(inode) && pos < U32 && !Spins(|data|, Room(inode, pos))
    requires m < FileBlocks(inode) && m * BLK < pos + |data| && Idx(pos) <= m && !Placed(|disk|, boot, inode, m)
    requires forall b: nat :: Idx(pos + w) <= b < m ==> Placed(|disk|, boot, inode, b)
    requires w <= k == (if m * BLK < pos then 0 else m * BLK - pos) && k < |data|
    ensures WriteLoop(disk, boot, inode, pos, data[..k], w).Wrote?
    ensures WriteLoop(disk, boot, inode, pos, data, w) == Failed(WriteLoop(disk, boot, inode, pos, data[..k], w).disk)
    decreases k - w
  {
    hide WriteLoop, Placed, Chunk, Splice, Spins, Room, FileBlocks;
    BeforeBlock(inode, pos, w, m, k);
    AnyStep(disk, boot, inode, pos, data, w);
    PlacedLoads(disk, boot, inode, Idx(pos + w));
    if w == k {
      WholeRequest(disk, boot, inode, pos, data[..k]);
    } else {
      ShortStep(disk, boot, inode, pos, data, w, m, k);
      var c := Chunk(|data|, w, pos + w);
      var at := DataOff(boot, BlockNum(inode, Idx(pos + w)));
      FailsAfterPrefix(Splice(disk, at + Rem(pos + w), data[w..w + c]), boot, inode, pos, data, w + c, m, k);
    }
  }

  lemma PlacedLoads(disk: Disk, boot: seq<byte>, inode: seq<byte>, b: nat)
    requires IsBlock(boot) && IsBlock(inode) && b < FileBlocks(inode)
    ensures Placed(|disk|, boot, inode, b) <==> Loads(disk, DataOff(boot, BlockNum(inode, b)))
  {
  }

  lemma WholeRequest(disk: Disk, boot: seq<byte>, inode: seq<byte>, pos: nat, data: seq<byte>)
    requires IsBlock(boot) && IsBlock(inode)
    ensures WriteLoop(disk, boot, inode, pos, data, |data|) == Wrote(disk, |data|)
  {
  }

  /** Up to the failing block there is room in the file. */
  lemma BeforeBlock(inode: seq<byte>, pos: nat, w: nat, m: nat, k: nat)
    requires IsBlock(inode) && m < FileBlocks(inode) && Idx(pos) <= m && w <= k == (if m * BLK < pos then 0 else m * BLK - pos)
    ensures pos + w < End(inode) && (w == k ==> Idx(pos + w) == m) && (w < k ==> Idx(pos + w) < m && pos + k == m * BLK)
  {
  }

  /** The shorter request takes the same turn. */
  lemma ShortStep(disk: Disk, boot: seq<byte>, inode: seq<byte>, pos: nat, data: seq<byte>, w: nat, m: nat, k: nat)
    requires IsBlock(boot) && IsBlock(inode) && pos < U32 && !Spins(|data|, Room(inode, pos))
    requires m < FileBlocks(inode) && w < k < |data| && pos + k == m * BLK
    requires Idx(pos + w) < FileBlocks(inode) && Loads(disk, DataOff(boot, BlockNum(inode, Idx(pos + w))))
    ensures var c := Chunk(|data|, w, pos + w);
      && 0 < c && w + c <= k && Idx(pos + w + c) == Idx(pos + w) + 1
      && var at := DataOff(boot, BlockNum(inode, Idx(pos + w)));
      && at + Rem(pos + w) + c <= |disk|
      && WriteLoop(disk, boot, inode, pos, data[..k], w) ==
         WriteLoop(Splice(disk, at + Rem(pos + w), data[w..w + c]), boot, inode, pos, data[..k], w + c)
  {
    hide WriteLoop, Chunk, FileBlocks, Splice, DataOff, BlockNum, Idx, Rem, Offset, Spins, Room, End;
    SameChunk(inode, pos, |data|, w, m, k);
    AnyStep(disk, boot, inode, pos, data[..k], w);
    var c := Chunk(|data|, w, pos + w);
    assert data[..k][w..w + c] == data[w..w + c];
  }

  lemma SameChunk(inode: seq<byte>, pos: nat, n: nat, w: nat, m: nat, k: nat)
    requires IsBlock(inode) && pos < U32 && !Spins(n, Room(inode, pos))
    requires m < FileBlocks(inode) && w < k < n && pos + k == m * BLK
    ensures Offset(pos, w) == pos + w < End(inode) && !Spins(k, Room(inode, pos))
    ensures var c := Chunk(n, w, pos + w);
      0 < c && w + c <= k && Idx(pos + w + c) == Idx(pos + w) + 1 && Rem(pos + w) + c == BLK && Chunk(k, w, pos + w) == c
  {
    EndSmall(inode);
    BlockBelow(pos + w, m);
    assert pos + k < End(inode);
    ChunkLen(inode, pos, n, w);
    ChunkFills(inode, pos, n, w);
    hide FileBlocks, Room;
  }

  /** From inside a block below block m, the end of the block is at most the start of block m. */
  lemma BlockBelow(x: nat, m: nat)
    requires x < m * BLK
    ensures x + (BLK - Rem(x)) <= m * BLK && Idx(x + (BLK - Rem(x))) == Idx(x) + 1
  {
    var q := Idx(x);
    assert x == q * BLK + Rem(x) && q < m;
    assert x + (BLK - Rem(x)) == (q + 1) * BLK;
  }
}
