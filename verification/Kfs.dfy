/**
 The file system driver (src/kern/kfs.c) over an io_lit disk. Like the original it keeps one inode and
 one data block buffered, and refills them from the disk as it goes. An open file is named by its
 slot in the file list.
 */
module Kfs {
  import opened Bytes
  import opened Disk
  import opened KfsSpec

  const MAX_OPEN := 32
  const CLOSED := Fd(0, 0, 0, false)

  /** The members are 32 bits wide. */
  predicate FdOk(fd: Fd) { fd.pos < U32 && fd.size < U32 && fd.ino < U32 }

  /** strncmp on a stored name */
  predicate SameName(field: seq<byte>, name: seq<byte>) { Cut(field, NAMELEN) == Cut(name, NAMELEN) }

  /** i is the first directory entry with this name. */
  ghost predicate FirstNamed(boot: seq<byte>, name: seq<byte>, i: nat)
    requires IsBlock(boot) && NumDentry(boot) <= MAX_DENTRIES && i < NumDentry(boot)
  {
    SameName(DentryName(boot, i), name) && forall k :: 0 <= k < i ==> !SameName(DentryName(boot, k), name)
  }

  class FileSystem {
    var disk: IoLit
    var boot: seq<byte>
    var inode: seq<byte>
    var dataBlock: seq<byte>
    var files: seq<Fd>

    ghost predicate Valid()
      reads this, disk
    {
      disk.Valid() && IsBlock(boot) && IsBlock(inode) && IsBlock(dataBlock) && |files| == MAX_OPEN && forall k :: 0 <= k < MAX_OPEN ==> FdOk(files[k])
    }

    /** Storage as it is before fs_mount. */
    constructor (device: IoLit)
      requires device.Valid()
      ensures Valid() && disk == device
    {
      var zeros: seq<byte> := seq(BLK, _ => 0);
      disk, boot, inode, dataBlock, files := device, zeros, zeros, zeros, seq(MAX_OPEN, _ => CLOSED);
    }

    /** fs_mount */
    method FsMount(io: IoLit?) returns (r: Result<()>)
      requires Valid() && (io != null ==> io.Valid())
      modifies this, io
      ensures io == null ==> r == Err(EINVAL)
      ensures io != null ==> (r.Ok? <==> |io.buf| >= BLK) && (r.Err? ==> r == Err(EIO)) && io.buf == old(io.buf)
      ensures r.Ok? ==> Valid() && disk == io && boot == io.buf[..BLK] && forall i :: 0 <= i < MAX_OPEN ==> files[i] == CLOSED
    {
      if io == null {
        return Err(EINVAL);
      }
      var ok := io.SetPos(0);
      InitializeFileList();
      var got := io.Read(BLK);
      boot := got.value + boot[|got.value|..];
      if |got.value| != BLK {
        return Err(EIO);
      }
      disk := io;
      r := Ok(());
    }

    /** initialize_file_list */
    method InitializeFileList()
      requires |files| == MAX_OPEN
      modifies this`files
      ensures |files| == MAX_OPEN && forall i :: 0 <= i < MAX_OPEN ==> files[i] == CLOSED
    {
      var i := 0;
      while i < MAX_OPEN
        invariant 0 <= i <= MAX_OPEN == |files|
        invariant forall k :: 0 <= k < i ==> files[k] == CLOSED
      {
        files := files[i := CLOSED];
        i := i + 1;
      }
    }

    /** update_inode */
    method UpdateInode(ino: nat) returns (ok: bool)
      requires Valid()
      modifies this`inode, disk`pos
      ensures Valid()
      ensures ok <==> Loads(disk.buf, InodeOff(ino))
      ensures ok ==> inode == BlockAt(disk.buf, InodeOff(ino))
    {
      ok := disk.SetPos(InodeOff(ino));
      if !ok {
        return;
      }
      var got := disk.Read(BLK);
      inode := got.value + inode[|got.value|..];
      ok := |got.value| == BLK;
    }

    /** update_data_block */
    method UpdateDataBlock(idx: nat) returns (ok: bool)
      requires Valid()
      modifies this`dataBlock, disk`pos
      ensures Valid()
      ensures ok <==> Loads(disk.buf, DataOff(boot, idx))
      ensures ok ==> dataBlock == BlockAt(disk.buf, DataOff(boot, idx))
    {
      ok := disk.SetPos(DataOff(boot, idx));
      if !ok {
        return;
      }
      var got := disk.Read(BLK);
      dataBlock := got.value + dataBlock[|got.value|..];
      ok := |got.value| == BLK;
    }

    /** write_data_block and write_inode, at their offsets */
    method WriteBack(off: nat, block: seq<byte>) returns (ok: bool)
      requires Valid() && IsBlock(block)
      modifies disk
      ensures Valid() && |disk.buf| == old(|disk.buf|)
      ensures ok <==> Loads(disk.buf, off)
      ensures ok ==> disk.buf == Splice(old(disk.buf), off, block)
    {
      ok := disk.SetPos(off);
      if !ok {
        return;
      }
      var r := disk.Write(block);
      ok := r.value == BLK;
      assert ok ==> block[..BLK] == block;
    }

    /** fs_open */
    method FsOpen(name: seq<byte>) returns (r: Result<nat>)
      requires Valid() && NumDentry(boot) <= MAX_DENTRIES
      modifies this, disk`pos
      ensures Valid() && boot == old(boot) && disk == old(disk)
      ensures r == Err(ENOENT) || r == Err(EIO) || r == Err(EBUSY) || r.Ok?
      ensures (forall i :: 0 <= i < NumDentry(boot) ==> !SameName(DentryName(boot, i), name)) ==> r == Err(ENOENT)
      ensures forall i: nat :: i < NumDentry(boot) && FirstNamed(boot, name, i) ==> Opened(old(files), files, DentryInode(boot, i), r)
      ensures r.Err? ==> files == old(files)
    {
      var ino := U32 - 1;
      var i := 0;
      while i < NumDentry(boot)
        invariant 0 <= i <= NumDentry(boot) && ino == U32 - 1
        invariant forall k :: 0 <= k < i ==> !SameName(DentryName(boot, k), name)
      {
        if SameName(DentryName(boot, i), name) {
          ino := DentryInode(boot, i);
          break;
        }
        i := i + 1;
      }
      assert i < NumDentry(boot) ==> FirstNamed(boot, name, i);
      if ino == U32 - 1 {
        return Err(ENOENT);
      }
      var ok := UpdateInode(ino);
      if !ok {
        return Err(EIO);
      }
      r := AllocateFile(ino);
    }

    ghost predicate Opened(was: seq<Fd>, now: seq<Fd>, ino: nat, r: Result<nat>)
      requires Valid()
      reads this, disk
    {
      if ino == U32 - 1 then r == Err(ENOENT)
      else if !Loads(disk.buf, InodeOff(ino)) then r == Err(EIO)
      else if ino > NumInodes(boot) || (forall k :: 0 <= k < |was| ==> was[k].inUse) then r == Err(EBUSY)
      else
        && r.Ok? && r.value < |was| && !was[r.value].inUse && (forall k :: 0 <= k < r.value ==> was[k].inUse)
        && now == was[r.value := Fd(0, ByteLen(BlockAt(disk.buf, InodeOff(ino))), ino, true)]
    }

    /** allocate_file: the first slot not in use */
    method AllocateFile(ino: nat) returns (r: Result<nat>)
      requires Valid() && ino < U32
      modifies this`files
      ensures Valid()
      ensures r.Err? ==> r == Err(EBUSY) && files == old(files)
      ensures r.Err? <==> ino > NumInodes(boot) || forall k :: 0 <= k < MAX_OPEN ==> old(files)[k].inUse
      ensures r.Ok? ==> r.value < MAX_OPEN && !old(files)[r.value].inUse && files == old(files)[r.value := Fd(0, ByteLen(inode), ino, true)]
      ensures r.Ok? ==> forall k :: 0 <= k < r.value ==> old(files)[k].inUse
    {
      if ino > NumInodes(boot) {
        return Err(EBUSY);
      }
      var i := 0;
      while i < MAX_OPEN
        invariant 0 <= i <= MAX_OPEN && files == old(files)
        invariant forall k :: 0 <= k < i ==> files[k].inUse
      {
        if !files[i].inUse {
          files := files[i := Fd(0, ByteLen(inode), ino, true)];
          return Ok(i);
        }
        i := i + 1;
      }
      r := Err(EBUSY);
    }

    /** fs_close */
    method FsClose(h: nat)
      requires Valid() && h < MAX_OPEN
      modifies this`files
      ensures Valid() && files == old(files)[h := CLOSED]
    {
      files := files[h := CLOSED];
    }

    /** fs_setpos */
    method FsSetpos(h: nat, pos: nat) returns (r: Result<()>)
      requires Valid() && h < MAX_OPEN && pos < U32
      modifies this`files
      ensures Valid()
      ensures pos <= old(files)[h].size ==> r == Ok(()) && files == old(files)[h := old(files)[h].(pos := pos)]
      ensures pos > old(files)[h].size ==> r == Err(EINVAL) && files == old(files)
    {
      if pos > files[h].size {
        return Err(EINVAL);
      }
      files := files[h := files[h].(pos := pos)];
      r := Ok(());
    }

    /** fs_read */
    method FsRead(h: nat, n: nat) returns (r: Result<seq<byte>>)
      requires Valid() && h < MAX_OPEN
      modifies this`inode, this`dataBlock, this`files, disk`pos
      ensures Valid()
      ensures match ReadResult(disk.buf, boot, old(files)[h], n)
        case ReadOk(data, fd) => r == Ok(data) && files == old(files)[h := fd]
        case ReadErr => r == Err(EIO) && files == old(files)
    {
      hide FileRange, RangeReadable, InodeOff, NumInodes;
      var fd := files[h];
      if n == 0 || fd.pos >= fd.size {
        return Ok([]);
      }
      if fd.ino >= NumInodes(boot) {
        return Err(EIO);
      }
      var ok := UpdateInode(fd.ino);
      if !ok {
        return Err(EIO);
      }
      r := ReadBlocks(fd.pos, Min(n, fd.size - fd.pos));
      if r.Ok? {
        files := files[h := fd.(pos := fd.pos + |r.value|)];
      }
    }

    /** ioread_full on an open file: the same bytes as one fs_read, which is never short before the end. */
    method IoReadFull(h: nat, n: nat) returns (r: Result<seq<byte>>)
      requires Valid() && h < MAX_OPEN
      modifies this`inode, this`dataBlock, this`files, disk`pos
      ensures Valid()
      ensures match ReadResult(disk.buf, boot, old(files)[h], n)
        case ReadOk(data, fd) => r == Ok(data) && files == old(files)[h := fd]
        case ReadErr => r == Err(EIO) && files == old(files)
    {
      hide ReadResult;
      ReadAtEnd(disk.buf, boot, files[h], n);
      var acc := [];
      ghost var first := ReadResult(disk.buf, boot, files[h], n);
      while |acc| < n
        invariant Valid() && |acc| <= n
        invariant if acc == [] then files == old(files)
                  else first == ReadOk(acc, files[h]) && files == old(files)[h := files[h]] && (|acc| < n ==> files[h].pos >= files[h].size)
        decreases n - |acc|
      {
        ReadAtEnd(disk.buf, boot, files[h], n - |acc|);
        ReadShort(disk.buf, boot, old(files)[h], n);
        var more := FsRead(h, n - |acc|);
        if more.Err? {
          return more;
        }
        if more.value == [] {
          return Ok(acc);
        }
        assert acc == [];
        acc := acc + more.value;
      }
      r := Ok(acc);
    }

    /** The loop of fs_read, with the file's inode buffered. */
    method ReadBlocks(pos: nat, m: nat) returns (r: Result<seq<byte>>)
      requires Valid() && m > 0 && pos + m < U32
      modifies this`dataBlock, disk`pos
      ensures Valid()
      ensures r == if RangeReadable(disk.buf, boot, inode, pos, m) then Ok(FileRange(disk.buf, boot, inode, pos, m)) else Err(EIO)
    {
      hide FileRange, RangeReadable, DataOff, BlockNum, Allocated, NumData, Idx, Rem, Offset, Readable;
      ReadStart(disk.buf, boot, inode, pos);
      var out, ok := [], true;
      while |out| < m
        invariant Valid() && |out| <= m
        invariant out == FileRange(disk.buf, boot, inode, pos, |out|)
        invariant RangeReadable(disk.buf, boot, inode, pos, |out|)
      {
        var off := Offset(pos, |out|);
        NoWrap(pos, |out|);
        ReadableParts(disk.buf, boot, inode, off);
        var b, boff := Idx(off), Rem(off);
        ok := b < Allocated(inode) && b < MAX_BLOCKS && BlockNum(inode, b) < NumData(boot);
        if ok {
          ok := UpdateDataBlock(BlockNum(inode, b));
        }
        if !ok {
          NotReadable(disk.buf, boot, inode, pos, |out|, m);
          return Err(EIO);
        }
        var c := Min(BLK - boff, m - |out|);
        ReadChunk(disk.buf, boot, inode, pos, |out|, c);
        out := out + dataBlock[boff..boff + c];
      }
      r := Ok(out);
    }

    /** fs_write, of a request whose loop ends */
    method FsWrite(h: nat, data: seq<byte>) returns (r: Result<nat>)
      requires Valid() && h < MAX_OPEN && !Write(disk.buf, boot, files[h], data).WriteHangs?
      modifies this`inode, this`dataBlock, this`files, disk
      ensures Valid()
      ensures match Write(old(disk.buf), boot, old(files)[h], data)
        case WriteOk(n, after, fd) => r == Ok(n) && disk.buf == after && files == old(files)[h := fd]
        case WriteErr(after) => r == Err(EIO) && disk.buf == after && files == old(files)
    {
      if data == [] {
        return Ok(0);
      }
      var fd := files[h];
      if fd.ino >= NumInodes(boot) {
        return Err(EIO);
      }
      var ok := UpdateInode(fd.ino);
      if !ok {
        return Err(EIO);
      }
      hide WriteLoop, InodeOff, Offset;
      var w;
      ok, w := WriteBlocks(fd.pos, data);
      if !ok {
        return Err(EIO);
      }
      files := files[h := fd.(pos := Offset(fd.pos, w))];
      OffsetSmall(fd.pos, w);
      ok := WriteBack(InodeOff(fd.ino), inode);
      r := Ok(w);
    }

    /** The loop of fs_write, with the file's inode buffered. */
    method WriteBlocks(pos: nat, data: seq<byte>) returns (ok: bool, w: nat)
      requires Valid() && WriteLoop(disk.buf, boot, inode, pos, data, 0) != Hangs
      modifies this`dataBlock, disk
      ensures Valid() && |disk.buf| == old(|disk.buf|)
      ensures WriteLoop(old(disk.buf), boot, inode, pos, data, 0) == if ok then Wrote(disk.buf, w) else Failed(disk.buf)
    {
      hide WriteLoop, Splice, DataOff, BlockNum, Allocated, Chunk, Idx, Rem, Offset;
      ghost var disk0 := disk.buf;
      w := 0;
      while w < |data|
        invariant Valid() && 0 <= w <= |data| && |disk.buf| == |disk0|
        invariant WriteLoop(disk0, boot, inode, pos, data, 0) == WriteLoop(disk.buf, boot, inode, pos, data, w)
      {
        var off := Offset(pos, w);
        var b, boff := Idx(off), Rem(off);
        WriteStep(disk.buf, boot, inode, pos, data, w);
        if b >= Allocated(inode) || b >= MAX_BLOCKS {
          return true, w;
        }
        var idx := BlockNum(inode, b);
        ok := UpdateDataBlock(idx);
        if !ok {
          return false, w;
        }
        var c := Chunk(|data|, w, off);
        BlockSplice(disk.buf, DataOff(boot, idx), boff, data[w..w + c]);
        dataBlock := Splice(dataBlock, boff, data[w..w + c]);
        ok := WriteBack(DataOff(boot, idx), dataBlock);
        w := w + c;
      }
      WriteEnd(disk.buf, boot, inode, pos, data);
      ok := true;
    }
  }

  lemma ReadAtEnd(disk: seq<byte>, boot: seq<byte>, fd: Fd, n: nat)
    requires IsBlock(boot)
    ensures n == 0 || fd.pos >= fd.size ==> ReadResult(disk, boot, fd, n) == ReadOk([], fd)
  {
  }

  /** A file opened on inode number num_inodes, which allocate_file lets through, cannot be read or written. */
  lemma OneTooMany(disk: seq<byte>, boot: seq<byte>, fd: Fd, n: nat, data: seq<byte>)
    requires IsBlock(boot) && fd.ino == NumInodes(boot)
    ensures ReadResult(disk, boot, fd, n) == if n == 0 || fd.pos >= fd.size then ReadOk([], fd) else ReadErr
    ensures Write(disk, boot, fd, data) == if data == [] then WriteOk(0, disk, fd) else WriteErr(disk)
  {
  }

  /** fs_read returns less than was asked for only at the end of the file. */
  lemma ReadShort(disk: seq<byte>, boot: seq<byte>, fd: Fd, n: nat)
    requires IsBlock(boot)
    ensures var r := ReadResult(disk, boot, fd, n);
      r.ReadOk? ==> |r.data| <= n && r.fd == fd.(pos := r.fd.pos) && (|r.data| < n ==> r.fd.pos >= r.fd.size) && (r.data == [] ==> r.fd == fd)
  {
    hide RangeReadable, InodeOff, NumInodes;
  }

  lemma OffsetSmall(pos: nat, i: nat)
    ensures Offset(pos, i) < U32
  {
  }

  lemma NoWrap(pos: nat, i: nat)
    requires pos + i < U32
    ensures Offset(pos, i) == pos + i && Rem(pos + i) < BLK
  {
  }

  lemma ReadStart(disk: seq<byte>, boot: seq<byte>, inode: seq<byte>, pos: nat)
    requires IsBlock(boot) && IsBlock(inode)
    ensures FileRange(disk, boot, inode, pos, 0) == [] && RangeReadable(disk, boot, inode, pos, 0)
  {
  }

  /** A block that fails is one the request needs. */
  lemma NotReadable(disk: seq<byte>, boot: seq<byte>, inode: seq<byte>, pos: nat, done: nat, m: nat)
    requires IsBlock(boot) && IsBlock(inode) && done < m && !Readable(disk, boot, inode, Idx(pos + done))
    ensures !RangeReadable(disk, boot, inode, pos, m)
  {
    var b := Idx(pos + done);
    assert Idx(pos) <= b && b * BLK < pos + m;
  }

  /** A piece of one block extends the bytes read so far. */
  lemma ReadChunk(disk: seq<byte>, boot: seq<byte>, inode: seq<byte>, pos: nat, done: nat, c: nat)
    requires IsBlock(boot) && IsBlock(inode) && Readable(disk, boot, inode, Idx(pos + done)) && Rem(pos + done) + c <= BLK
    requires RangeReadable(disk, boot, inode, pos, done)
    ensures var x := pos + done;
      var at := DataOff(boot, BlockNum(inode, Idx(x)));
      FileRange(disk, boot, inode, pos, done + c) == FileRange(disk, boot, inode, pos, done) + BlockAt(disk, at)[Rem(x)..Rem(x) + c]
    ensures RangeReadable(disk, boot, inode, pos, done + c)
  {
    hide RangeReadable, DataOff, BlockNum, FileByte, FileBlocks, NumData;
    ReadChunkRange(disk, boot, inode, pos, done, c);
    var x := pos + done;
    var at := DataOff(boot, BlockNum(inode, Idx(x)));
    var l, r := FileRange(disk, boot, inode, pos, done + c), FileRange(disk, boot, inode, pos, done) + BlockAt(disk, at)[Rem(x)..Rem(x) + c];
    hide FileRange, Idx, Rem;
    forall k | 0 <= k < done + c ensures l[k] == r[k] {
      assert l[k] == FileByte(disk, boot, inode, pos + k);
      if k >= done {
        BlockByte(disk, boot, inode, x, k - done);
      }
    }
  }

  lemma BlockByte(disk: seq<byte>, boot: seq<byte>, inode: seq<byte>, x: nat, t: nat)
    requires IsBlock(boot) && IsBlock(inode) && Readable(disk, boot, inode, Idx(x)) && Rem(x) + t < BLK
    ensures FileByte(disk, boot, inode, x + t) == BlockAt(disk, DataOff(boot, BlockNum(inode, Idx(x))))[Rem(x) + t]
  {
    SameRun(x, t);
  }

  lemma ReadChunkRange(disk: seq<byte>, boot: seq<byte>, inode: seq<byte>, pos: nat, done: nat, c: nat)
    requires IsBlock(boot) && IsBlock(inode) && Readable(disk, boot, inode, Idx(pos + done)) && Rem(pos + done) + c <= BLK
    requires RangeReadable(disk, boot, inode, pos, done)
    ensures RangeReadable(disk, boot, inode, pos, done + c)
  {
    hide Readable;
    forall b: nat | Idx(pos) <= b && b * BLK < pos + done + c && c > 0 ensures Readable(disk, boot, inode, b) {
      SameBlock(pos, done, c, b);
    }
  }

  lemma SameBlock(pos: nat, done: nat, c: nat, b: nat)
    requires Rem(pos + done) + c <= BLK && Idx(pos) <= b && b * BLK < pos + done + c && c > 0
    ensures b == Idx(pos + done) || (done > 0 && b * BLK < pos + done)
  {
  }

  lemma WriteStep(disk: seq<byte>, boot: seq<byte>, inode: seq<byte>, pos: nat, data: seq<byte>, w: nat)
    requires IsBlock(boot) && IsBlock(inode) && w < |data|
    ensures var off, r := Offset(pos, w), WriteLoop(disk, boot, inode, pos, data, w);
      if Idx(off) >= Allocated(inode) || Idx(off) >= MAX_BLOCKS then r == Wrote(disk, w)
      else
        var at, c := DataOff(boot, BlockNum(inode, Idx(off))), Chunk(|data|, w, off);
        && (!Loads(disk, at) ==> r == Failed(disk))
        && (Loads(disk, at) && c == 0 ==> r == Hangs)
        && w + c <= |data| && Rem(off) + c <= BLK
        && (Loads(disk, at) && c > 0 ==> r == WriteLoop(Splice(disk, at + Rem(off), data[w..w + c]), boot, inode, pos, data, w + c))
  {
  }

  lemma WriteEnd(disk: seq<byte>, boot: seq<byte>, inode: seq<byte>, pos: nat, data: seq<byte>)
    requires IsBlock(boot) && IsBlock(inode)
    ensures WriteLoop(disk, boot, inode, pos, data, |data|) == Wrote(disk, |data|)
  {
  }

  lemma ReadableParts(disk: seq<byte>, boot: seq<byte>, inode: seq<byte>, off: nat)
    requires IsBlock(boot) && IsBlock(inode)
    ensures Readable(disk, boot, inode, Idx(off)) <==>
      && Idx(off) < Allocated(inode) && Idx(off) < MAX_BLOCKS
      && BlockNum(inode, Idx(off)) < NumData(boot) && Loads(disk, DataOff(boot, BlockNum(inode, Idx(off))))
  {
  }

  /** Changing part of a block and writing it back whole changes that part of the disk. */
  lemma BlockSplice(disk: seq<byte>, at: nat, boff: nat, t: seq<byte>)
    requires Loads(disk, at) && boff + |t| <= BLK
    ensures Splice(disk, at, Splice(BlockAt(disk, at), boff, t)) == Splice(disk, at + boff, t)
  {
  }
}
