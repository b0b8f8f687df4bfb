/**
 The file system's disk format and what reading and writing an open file mean, as functions of the
 disk's bytes (src/kern/kfs.c:33-57, 295-525, 769-879). Offsets are computed in 32 bits.
 */
module KfsSpec {
  import opened Bytes

  const BLK := 4096
  const NAMELEN := 32
  const MAX_DENTRIES := 63
  const MAX_BLOCKS := 1023

  type Disk = seq<byte>

  // ---------------------------------------------------------------- fields of the boot block

  predicate IsBlock(b: seq<byte>) { |b| == BLK }

  function NumDentry(boot: seq<byte>): nat requires IsBlock(boot) { U32At(boot, 0) }
  function NumInodes(boot: seq<byte>): nat requires IsBlock(boot) { U32At(boot, 4) }
  function NumData(boot: seq<byte>): nat requires IsBlock(boot) { U32At(boot, 8) }

  function DentryName(boot: seq<byte>, i: nat): seq<byte>
    requires IsBlock(boot) && i < MAX_DENTRIES
  {
    boot[64 + 64 * i..64 + 64 * i + NAMELEN]
  }

  function DentryInode(boot: seq<byte>, i: nat): nat
    requires IsBlock(boot) && i < MAX_DENTRIES
  {
    U32At(boot, 64 + 64 * i + NAMELEN)
  }

  // ---------------------------------------------------------------- fields of an inode

  function ByteLen(inode: seq<byte>): nat requires IsBlock(inode) { U32At(inode, 0) }

  function BlockNum(inode: seq<byte>, b: nat): (n: nat)
    requires IsBlock(inode) && b < MAX_BLOCKS
    ensures n < U32
  {
    U32At(inode, 4 + 4 * b)
  }

  /** Blocks the kernel takes a file to have, in 32-bit arithmetic. */
  function Allocated(inode: seq<byte>): nat
    requires IsBlock(inode)
  {
    (ByteLen(inode) + BLK - 1) % U32 / BLK
  }

  function FileBlocks(inode: seq<byte>): (n: nat)
    requires IsBlock(inode)
    ensures n <= MAX_BLOCKS
  {
    if Allocated(inode) < MAX_BLOCKS then Allocated(inode) else MAX_BLOCKS
  }

  // ---------------------------------------------------------------- blocks on the disk

  function InodeOff(ino: nat): nat { (BLK + ino * BLK) % U32 }

  function DataOff(boot: seq<byte>, idx: nat): nat
    requires IsBlock(boot)
  {
    (BLK + NumInodes(boot) * BLK + idx * BLK) % U32
  }

  /** A block can be read at off: the device neither refuses the position nor runs short. */
  predicate Loads(disk: Disk, off: nat) { off + BLK <= |disk| }

  function BlockAt(disk: Disk, off: nat): (b: seq<byte>)
    requires Loads(disk, off)
    ensures IsBlock(b)
  {
    disk[off..off + BLK]
  }

  // ---------------------------------------------------------------- reading

  datatype Fd = Fd(pos: nat, size: nat, ino: nat, inUse: bool)

  /** The offset i bytes on from pos, in 32 bits, and its block and place in the block. */
  function Offset(pos: nat, i: nat): nat { (pos + i) % U32 }
  function Idx(off: nat): nat { off / BLK }
  function Rem(off: nat): nat { off % BLK }

  lemma SameRun(x: nat, t: nat)
    requires Rem(x) + t < BLK
    ensures Idx(x + t) == Idx(x) && Rem(x + t) == Rem(x) + t
  {
  }

  function Min(a: nat, b: nat): nat { if a < b then a else b }

  predicate Readable(disk: Disk, boot: seq<byte>, inode: seq<byte>, b: nat)
    requires IsBlock(boot) && IsBlock(inode)
  {
    && b < FileBlocks(inode)
    && BlockNum(inode, b) < NumData(boot)
    && Loads(disk, DataOff(boot, BlockNum(inode, b)))
  }

  /** Byte x of the file's block space; 0 where there is none. */
  function FileByte(disk: Disk, boot: seq<byte>, inode: seq<byte>, x: nat): byte
    requires IsBlock(boot) && IsBlock(inode)
  {
    if Readable(disk, boot, inode, Idx(x)) then disk[DataOff(boot, BlockNum(inode, Idx(x))) + Rem(x)] else 0
  }

  function FileRange(disk: Disk, boot: seq<byte>, inode: seq<byte>, pos: nat, m: nat): (r: seq<byte>)
    requires IsBlock(boot) && IsBlock(inode)
    ensures |r| == m && forall k :: 0 <= k < m ==> r[k] == FileByte(disk, boot, inode, pos + k)
  {
    if m == 0 then []
    else FileRange(disk, boot, inode, pos, m - 1) + [FileByte(disk, boot, inode, pos + m - 1)]
  }

  ghost predicate RangeReadable(disk: Disk, boot: seq<byte>, inode: seq<byte>, pos: nat, m: nat)
    requires IsBlock(boot) && IsBlock(inode)
  {
    m > 0 ==> forall b :: Idx(pos) <= b && b * BLK < pos + m ==> Readable(disk, boot, inode, b)
  }

  datatype ReadOut = ReadOk(data: seq<byte>, fd: Fd) | ReadErr

  /** fs_read: all the bytes asked for up to the end of the file, or an error if any block fails. */
  ghost function ReadResult(disk: Disk, boot: seq<byte>, fd: Fd, n: nat): ReadOut
    requires IsBlock(boot)
  {
    if n == 0 || fd.pos >= fd.size then ReadOk([], fd)
    else if fd.ino >= NumInodes(boot) || !Loads(disk, InodeOff(fd.ino)) then ReadErr
    else
      var inode, m := BlockAt(disk, InodeOff(fd.ino)), Min(n, fd.size - fd.pos);
      if RangeReadable(disk, boot, inode, fd.pos, m) then
        ReadOk(FileRange(disk, boot, inode, fd.pos, m), fd.(pos := fd.pos + m))
      else ReadErr
  }

  // ---------------------------------------------------------------- writing

  datatype WriteOut = Wrote(disk: Disk, w: nat) | Failed(disk: Disk) | Hangs

  /** Bytes one turn of the loop copies: what is left of the request is kept in 32 bits. */
  function Chunk(n: nat, w: nat, off: nat): nat
    requires w <= n
  {
    Min(BLK - Rem(off), (n - w) % U32)
  }

  /** fs_write's loop, w bytes into the request. */
  function WriteLoop(disk: Disk, boot: seq<byte>, inode: seq<byte>, pos: nat, data: seq<byte>, w: nat): (r: WriteOut)
    requires IsBlock(boot) && IsBlock(inode) && w <= |data|
    ensures r.Wrote? || r.Failed? ==> |r.disk| == |disk|
    ensures r.Wrote? ==> w <= r.w <= |data|
    decreases |data| - w
  {
    if w == |data| then Wrote(disk, w)
    else
      var off := Offset(pos, w);
      if Idx(off) >= FileBlocks(inode) then Wrote(disk, w)
      else
        var at := DataOff(boot, BlockNum(inode, Idx(off)));
        if !Loads(disk, at) then Failed(disk)
        else
          var c := Chunk(|data|, w, off);
          if c == 0 then Hangs
          else WriteLoop(Splice(disk, at + Rem(off), data[w..w + c]), boot, inode, pos, data, w + c)
  }

  datatype WriteResult = WriteOk(n: nat, disk: Disk, fd: Fd) | WriteErr(disk: Disk) | WriteHangs

  function Write(disk: Disk, boot: seq<byte>, fd: Fd, data: seq<byte>): WriteResult
    requires IsBlock(boot)
  {
    if data == [] then WriteOk(0, disk, fd)
    else if fd.ino >= NumInodes(boot) || !Loads(disk, InodeOff(fd.ino)) then WriteErr(disk)
    else
      var inode := BlockAt(disk, InodeOff(fd.ino));
      match WriteLoop(disk, boot, inode, fd.pos, data, 0)
      case Wrote(disk', w) => WriteOk(w, Splice(disk', InodeOff(fd.ino), inode), fd.(pos := Offset(fd.pos, w)))
      case Failed(disk') => WriteErr(disk')
      case Hangs => WriteHangs
  }
}
