/**
 Mounting an image made by mkfs and reading its files back (src/util/mkfs.c:87-158,
 src/kern/kfs.c:195-250, 418-525, 769-817). A file whose size is a multiple of the block size has a
 block listed that is never written, so every later file is found one block too far on; the
 theorems say exactly when that shows.
 */
module ImageRoundTrip {
  import opened Bytes
  import opened KfsSpec
  import opened Mkfs
  import Kfs
  import Disk
  import W = KfsWrites

  ghost predicate Image(image: seq<byte>, files: seq<File>) { Fits(files) && ImageOf(image, files) }

  // ---------------------------------------------------------------- names

  /** Names that differ within the 32 characters stored. */
  ghost predicate DistinctNames(files: seq<File>) {
    forall i: nat, j: nat :: i < j < |files| ==> Cut(files[i].name, NAMELEN) != Cut(files[j].name, NAMELEN)
  }

  /** Opening by name finds the file's own entry and inode. */
  lemma OpensByName(image: seq<byte>, files: seq<File>, i: nat)
    requires Image(image, files) && DistinctNames(files) && i < |files|
    ensures IsBlock(image[..BLK]) && NumDentry(image[..BLK]) == |files| <= MAX_DENTRIES
    ensures Kfs.FirstNamed(image[..BLK], files[i].name, i) && DentryInode(image[..BLK], i) == i
  {
    var boot := image[..BLK];
    forall k: nat | k <= i ensures Kfs.SameName(DentryName(boot, k), files[i].name) <==> k == i {
      assert DentryFor(boot, files, k);
      CutPadded(files[k].name, NAMELEN);
    }
    assert DentryFor(boot, files, i);
  }

  // ---------------------------------------------------------------- where blocks are found

  function InodeIn(image: seq<byte>, i: nat): seq<byte>
    requires Loads(image, (1 + i) * BLK)
  {
    BlockAt(image, (1 + i) * BLK)
  }

  lemma FileBlocksAre(inode: seq<byte>, base: nat, len: nat)
    requires InodeFor(inode, base, len)
    ensures FileBlocks(inode) == Blocks(len) <= Slots(len)
  {
  }

  lemma Sums(files: seq<File>, i: nat)
    requires Fits(files) && i < |files|
    ensures Reserved(files, |files|) <= 0x1_0000 && Written(files, |files|) <= Reserved(files, |files|)
    ensures Reserved(files, i) + Slots(|files[i].data|) <= Reserved(files, |files|)
    ensures Written(files, i) + Blocks(|files[i].data|) <= Written(files, |files|)
    ensures |files| <= MAX_DENTRIES
  {
    hide Slots, Blocks;
    ReservedSmall(files, |files|);
    ReservedGrows(files, i + 1, |files|);
  }

  lemma InodeFound(image: seq<byte>, files: seq<File>, i: nat)
    requires Image(image, files) && i < |files|
    ensures var boot := image[..BLK]; IsBlock(boot) && NumInodes(boot) == |files| && NumData(boot) == Reserved(files, |files|)
    ensures InodeOff(i) == (1 + i) * BLK && Loads(image, (1 + i) * BLK)
    ensures InodeFor(InodeIn(image, i), Reserved(files, i), |files[i].data|)
  {
    hide InodeOff, NumInodes, NumData, Reserved, Written, InodeFor, HasData, Blocks, Slots;
    assert HasInode(image, files, i);
    InodeOffIs(i);
  }

  lemma InodeOffIs(i: nat)
    requires i < MAX_DENTRIES
    ensures InodeOff(i) == (1 + i) * BLK
  {
  }

  lemma DataOffIs(boot: seq<byte>, idx: nat)
    requires IsBlock(boot) && NumInodes(boot) <= MAX_DENTRIES && idx <= 0x1_0000
    ensures DataOff(boot, idx) == (1 + NumInodes(boot) + idx) * BLK
  {
  }

  lemma ListedAt(inode: seq<byte>, base: nat, len: nat, b: nat)
    requires InodeFor(inode, base, len) && b < Slots(len)
    ensures b < MAX_BLOCKS && BlockNum(inode, b) == base + b
  {
  }

  /** A listed block is readable exactly when it lies within the blocks written. */
  lemma BlockFound(image: seq<byte>, files: seq<File>, i: nat, b: nat)
    requires Image(image, files) && i < |files| && b < Blocks(|files[i].data|)
    ensures IsBlock(image[..BLK]) && Loads(image, (1 + i) * BLK) && IsBlock(InodeIn(image, i)) && b < FileBlocks(InodeIn(image, i))
    ensures DataOff(image[..BLK], BlockNum(InodeIn(image, i), b)) == (1 + |files| + Reserved(files, i) + b) * BLK
    ensures Readable(image, image[..BLK], InodeIn(image, i), b) <==> Reserved(files, i) + b < Written(files, |files|)
  {
    hide ImageOf, Fits, FileBlocks, BlockNum, NumInodes, NumData, Written, Reserved, Slots, Blocks, DataOff, InodeFor, InodeOff, InodeIn, Readable;
    ImageSize(image, files);
    Sums(files, i);
    InodeFound(image, files, i);
    var boot, inode, base, len := image[..BLK], InodeIn(image, i), Reserved(files, i), |files[i].data|;
    IsInode(inode, base, len);
    FileBlocksAre(inode, base, len);
    ListedAt(inode, base, len, b);
    DataOffIs(boot, base + b);
    ReadableWhen(image, boot, inode, b);
    hide Loads, IsBlock, Image;
    Beyond(|files|, base + b, Written(files, |files|));
  }

  lemma ImageSize(image: seq<byte>, files: seq<File>)
    requires Image(image, files)
    ensures |image| == (1 + |files| + Written(files, |files|)) * BLK
  {
  }

  lemma IsInode(inode: seq<byte>, base: nat, len: nat)
    requires InodeFor(inode, base, len)
    ensures IsBlock(inode)
  {
  }

  lemma Beyond(n: nat, idx: nat, written: nat)
    ensures (1 + n + idx) * BLK + BLK <= (1 + n + written) * BLK <==> idx < written
  {
  }

  lemma ReadableWhen(image: seq<byte>, boot: seq<byte>, inode: seq<byte>, b: nat)
    requires IsBlock(boot) && IsBlock(inode) && b < FileBlocks(inode) && BlockNum(inode, b) < NumData(boot)
    ensures Readable(image, boot, inode, b) <==> DataOff(boot, BlockNum(inode, b)) + BLK <= |image|
  {
  }

  // ---------------------------------------------------------------- files found in place

  ghost predicate InPlace(files: seq<File>, i: nat)
    requires i < |files|
  {
    Reserved(files, i) == Written(files, i)
  }

  lemma ByteFound(image: seq<byte>, files: seq<File>, i: nat, x: nat)
    requires Image(image, files) && i < |files| && InPlace(files, i) && x < |files[i].data|
    ensures IsBlock(image[..BLK]) && Loads(image, (1 + i) * BLK) && IsBlock(InodeIn(image, i))
    ensures Readable(image, image[..BLK], InodeIn(image, i), Idx(x))
    ensures FileByte(image, image[..BLK], InodeIn(image, i), x) == files[i].data[x]
  {
    BlockIndex(x, |files[i].data|);
    BlockFound(image, files, i, Idx(x));
    Sums(files, i);
    assert HasData(image, files, i, Idx(x));
    hide ImageOf, Fits, FileBlocks, NumInodes, NumData, Written, Reserved, Slots, Blocks, DataOff, BlockNum, InodeFor, Readable;
    var off := (1 + |files| + Written(files, i) + Idx(x)) * BLK;
    assert BlockAt(image, off)[Rem(x)] == files[i].data[Idx(x) * BLK + Rem(x)];
  }

  lemma BlockIndex(x: nat, len: nat)
    requires x < len
    ensures Idx(x) < Blocks(len) && Idx(x) * BLK + Rem(x) == x && Rem(x) < BLK
  {
  }

  /** File i as fs_open leaves it, moved to pos. */
  function OpenAt(files: seq<File>, i: nat, pos: nat): Fd
    requires i < |files|
  {
    Fd(pos, |files[i].data|, i, true)
  }

  /** The next n bytes from p, or as many as are left, and where they end. */
  function After(data: seq<byte>, p: nat, n: nat): (q: nat)
    requires p <= |data|
    ensures p <= q <= |data|
  {
    p + Min(n, |data| - p)
  }

  function Piece(data: seq<byte>, p: nat, n: nat): seq<byte>
    requires p <= |data|
  {
    data[p..After(data, p, n)]
  }

  lemma RangeFound(image: seq<byte>, files: seq<File>, i: nat, p: nat, m: nat)
    requires Image(image, files) && i < |files| && InPlace(files, i) && p + m <= |files[i].data|
    requires IsBlock(image[..BLK]) && Loads(image, (1 + i) * BLK) && IsBlock(InodeIn(image, i))
    ensures RangeReadable(image, image[..BLK], InodeIn(image, i), p, m)
    ensures FileRange(image, image[..BLK], InodeIn(image, i), p, m) == files[i].data[p..p + m]
  {
    var boot, inode, data := image[..BLK], InodeIn(image, i), files[i].data;
    hide Image, InPlace, Readable, FileRange, FileByte;
    forall b: nat | Idx(p) <= b && b * BLK < p + m ensures Readable(image, boot, inode, b) {
      ByteFound(image, files, i, b * BLK);
      assert Idx(b * BLK) == b;
    }
    forall k | 0 <= k < m ensures FileRange(image, boot, inode, p, m)[k] == data[p + k] {
      ByteFound(image, files, i, p + k);
    }
  }

  lemma SizeOk(image: seq<byte>, files: seq<File>, i: nat)
    requires Image(image, files) && i < |files|
    ensures Loads(image, (1 + i) * BLK) && IsBlock(InodeIn(image, i)) && BLK <= |image|
  {
    InodeFound(image, files, i);
  }

  /** A read returns the file's own bytes, as many as were asked for up to its end. */
  lemma ReadsBytes(image: seq<byte>, files: seq<File>, i: nat, p: nat, n: nat)
    requires Image(image, files) && i < |files| && InPlace(files, i) && p <= |files[i].data|
    ensures IsBlock(image[..BLK])
    ensures var data := files[i].data;
      ReadResult(image, image[..BLK], OpenAt(files, i, p), n) == ReadOk(Piece(data, p, n), OpenAt(files, i, After(data, p, n)))
  {
    hide FileRange, RangeReadable, NumInodes, InodeOff, Image, InodeFor, InPlace;
    InodeFound(image, files, i);
    SizeOk(image, files, i);
    var m := Min(n, |files[i].data| - p);
    if m > 0 {
      RangeFound(image, files, i, p, m);
    }
  }

  // ---------------------------------------------------------------- any sequence of reads

  ghost function ReadAll(image: seq<byte>, boot: seq<byte>, fd: Fd, ns: seq<nat>): ReadOut
    requires IsBlock(boot)
    decreases |ns|
  {
    if ns == [] then ReadOk([], fd)
    else
      match ReadResult(image, boot, fd, ns[0])
      case ReadErr => ReadErr
      case ReadOk(data, fd') =>
        match ReadAll(image, boot, fd', ns[1..])
        case ReadErr => ReadErr
        case ReadOk(rest, fd'') => ReadOk(data + rest, fd'')
  }

  function Sum(ns: seq<nat>): nat { if ns == [] then 0 else ns[0] + Sum(ns[1..]) }

  /** However the reads are split, together they return the next bytes of the file. */
  lemma {:induction false} ReadsInPieces(image: seq<byte>, files: seq<File>, i: nat, p: nat, ns: seq<nat>)
    requires Image(image, files) && i < |files| && InPlace(files, i) && p <= |files[i].data|
    ensures IsBlock(image[..BLK])
    ensures var data := files[i].data;
      ReadAll(image, image[..BLK], OpenAt(files, i, p), ns) == ReadOk(Piece(data, p, Sum(ns)), OpenAt(files, i, After(data, p, Sum(ns))))
    decreases |ns|
  {
    hide ReadResult, Image, InodeFor, InPlace, Piece, After, OpenAt, NumInodes, NumData, InodeOff;
    InodeFound(image, files, i);
    var data := files[i].data;
    if ns == [] {
      Pieces(data, p, 0, 0);
    } else {
      ReadsBytes(image, files, i, p, ns[0]);
      Pieces(data, p, ns[0], Sum(ns[1..]));
      ReadsInPieces(image, files, i, After(data, p, ns[0]), ns[1..]);
    }
  }

  /** Reading a bytes and then b is reading a + b. */
  lemma Pieces(data: seq<byte>, p: nat, a: nat, b: nat)
    requires p <= |data|
    ensures Piece(data, p, 0) == [] && After(data, p, 0) == p
    ensures var q := After(data, p, a);
      Piece(data, p, a) + Piece(data, q, b) == Piece(data, p, a + b) && After(data, q, b) == After(data, p, a + b)
  {
  }

  // ---------------------------------------------------------------- exactly when every file reads back

  ghost predicate ReadsBack(image: seq<byte>, files: seq<File>, i: nat)
    requires BLK <= |image| && i < |files|
  {
    ReadResult(image, image[..BLK], OpenAt(files, i, 0), |files[i].data|) == ReadOk(files[i].data, OpenAt(files, i, |files[i].data|))
  }

  /** No file of a whole number of blocks comes before a file with contents. */
  ghost predicate Aligned(files: seq<File>) {
    forall i: nat, j: nat :: j < i < |files| && files[i].data != [] ==> |files[j].data| % BLK != 0
  }

  /** How many blocks too far on file i is looked for. */
  function Skew(files: seq<File>, i: nat): nat
    requires i <= |files|
  {
    if i == 0 then 0 else Skew(files, i - 1) + if |files[i - 1].data| % BLK == 0 then 1 else 0
  }

  lemma {:induction false} ReservedSkewed(files: seq<File>, i: nat)
    requires i <= |files|
    ensures Reserved(files, i) == Written(files, i) + Skew(files, i)
  {
    if i > 0 {
      ReservedSkewed(files, i - 1);
    }
  }

  lemma {:induction false} SkewZero(files: seq<File>, i: nat)
    requires i <= |files|
    ensures Skew(files, i) == 0 <==> forall j: nat :: j < i ==> |files[j].data| % BLK != 0
  {
    if i > 0 {
      SkewZero(files, i - 1);
    }
  }

  /** Empty files at the end are not written at all. */
  lemma {:induction false} EmptyTail(files: seq<File>, l: nat, n: nat)
    requires l <= n <= |files| && forall k: nat :: l <= k < n ==> files[k].data == []
    ensures Written(files, n) == Written(files, l)
    decreases n
  {
    if l < n {
      EmptyTail(files, l, n - 1);
    }
  }

  ghost function LastNonEmpty(files: seq<File>, i: nat, n: nat): (l: nat)
    requires i < n <= |files| && files[i].data != []
    ensures i <= l < n && files[l].data != [] && forall k: nat :: l < k < n ==> files[k].data == []
    decreases n
  {
    if files[n - 1].data != [] then n - 1 else LastNonEmpty(files, i, n - 1)
  }

  /** The last file with contents, if skewed, runs past the end of the image. */
  lemma LastFails(image: seq<byte>, files: seq<File>, l: nat)
    requires Image(image, files) && l < |files| && files[l].data != [] && Skew(files, l) > 0
    requires forall k: nat :: l < k < |files| ==> files[k].data == []
    ensures IsBlock(image[..BLK]) && !ReadsBack(image, files, l)
  {
    hide Readable, Reserved, Written, Skew, Image, InodeFor, Blocks, NumInodes, NumData, InodeOff, FileBlocks, DataOff, FileRange, Idx;
    InodeFound(image, files, l);
    var len := |files[l].data|;
    LastBlock(len);
    LastBeyond(files, l);
    BlockFound(image, files, l, Blocks(len) - 1);
    NotAllReadable(image, image[..BLK], InodeIn(image, l), Blocks(len) - 1, len);
    hide RangeReadable, BlockAt;
  }

  lemma LastBeyond(files: seq<File>, l: nat)
    requires l < |files| && files[l].data != [] && Skew(files, l) > 0
    requires forall k: nat :: l < k < |files| ==> files[k].data == []
    ensures Reserved(files, l) + Blocks(|files[l].data|) - 1 >= Written(files, |files|)
  {
    ReservedSkewed(files, l);
    EmptyTail(files, l + 1, |files|);
    hide Blocks, Reserved, Skew;
  }

  lemma NotAllReadable(image: seq<byte>, boot: seq<byte>, inode: seq<byte>, b: nat, len: nat)
    requires IsBlock(boot) && IsBlock(inode) && !Readable(image, boot, inode, b) && b * BLK < len
    ensures !RangeReadable(image, boot, inode, 0, len)
  {
    hide Readable;
    assert Idx(0) <= b;
  }

  lemma LastBlock(len: nat)
    requires len > 0
    ensures Blocks(len) > 0 && (Blocks(len) - 1) * BLK < len
  {
  }

  /** The round trip holds for every file if and only if no whole-block file precedes a file with contents. */
  lemma RoundTripIff(image: seq<byte>, files: seq<File>)
    requires Image(image, files)
    ensures IsBlock(image[..BLK])
    ensures (forall i: nat :: i < |files| ==> ReadsBack(image, files, i)) <==> Aligned(files)
  {
    assert IsBlock(image[..BLK]);
    if Aligned(files) {
      forall i: nat | i < |files| ensures ReadsBack(image, files, i) {
        AlignedReadsBack(image, files, i);
      }
    } else {
      var i: nat, j: nat :| j < i < |files| && files[i].data != [] && |files[j].data| % BLK == 0;
      var l := LastNonEmpty(files, i, |files|);
      SkewZero(files, l);
      LastFails(image, files, l);
    }
  }

  lemma AlignedReadsBack(image: seq<byte>, files: seq<File>, i: nat)
    requires Image(image, files) && Aligned(files) && i < |files|
    ensures IsBlock(image[..BLK]) && ReadsBack(image, files, i)
  {
    InodeFound(image, files, i);
    if files[i].data != [] {
      SkewZero(files, i);
      ReservedSkewed(files, i);
      ReadsBytes(image, files, i, 0, |files[i].data|);
    }
  }

  // ---------------------------------------------------------------- writing to an image

  lemma ImageInodes(image: seq<byte>, files: seq<File>, i: nat)
    requires Image(image, files) && Aligned(files) && i < |files|
    ensures IsBlock(image[..BLK]) && Loads(image, InodeOff(i)) && W.InodeOf(image, i) == InodeIn(image, i)
    ensures W.InodeOk(|image|, image[..BLK], W.InodeOf(image, i))
  {
    InodeFound(image, files, i);
    Sums(files, i);
    var inode, base, len := InodeIn(image, i), Reserved(files, i), |files[i].data|;
    FileBlocksAre(inode, base, len);
    SkewZero(files, i);
    ReservedSkewed(files, i);
    assert |image| == (1 + |files| + Written(files, |files|)) * BLK;
    hide ImageOf, Fits, FileBlocks, BlockNum, NumInodes, NumData, Reserved, Written, Skew, InodeOff, Listed;
    forall b: nat | b < FileBlocks(inode)
      ensures b < MAX_BLOCKS && BlockNum(inode, b) == base + b && W.OnDisk(|image|, image[..BLK], BlockNum(inode, b))
    {
      ListedAt(inode, base, len, b);
    }
  }

  lemma ImageUnshared(image: seq<byte>, files: seq<File>, i: nat, j: nat)
    requires Image(image, files) && i < j < |files|
    ensures Loads(image, InodeOff(i)) && Loads(image, InodeOff(j)) && W.Unshared(W.InodeOf(image, i), W.InodeOf(image, j))
  {
    InodeFound(image, files, i);
    InodeFound(image, files, j);
    FileBlocksAre(InodeIn(image, i), Reserved(files, i), |files[i].data|);
    FileBlocksAre(InodeIn(image, j), Reserved(files, j), |files[j].data|);
    ReservedGrows(files, i + 1, j);
    hide ImageOf, Fits, FileBlocks, BlockNum, InodeOff, Listed, Slots, Blocks;
    forall b: nat, c: nat | b < FileBlocks(InodeIn(image, i)) && c < FileBlocks(InodeIn(image, j))
      ensures b < MAX_BLOCKS && c < MAX_BLOCKS && BlockNum(InodeIn(image, i), b) != BlockNum(InodeIn(image, j), c)
    {
      ListedAt(InodeIn(image, i), Reserved(files, i), |files[i].data|, b);
      ListedAt(InodeIn(image, j), Reserved(files, j), |files[j].data|, c);
    }
  }

  /** An image that reads back is also one that fs_write's contract applies to. */
  lemma ImageWellFormed(image: seq<byte>, files: seq<File>)
    requires Image(image, files) && Aligned(files)
    ensures W.WellFormed(image, image[..BLK])
  {
    ReservedSmall(files, |files|);
    var boot := image[..BLK];
    assert W.Roomy(image, boot);
    hide W.InodeOk, W.Unshared, W.Roomy, Fits;
    forall i: nat | i < |files| ensures Loads(image, InodeOff(i)) && W.InodeOk(|image|, boot, W.InodeOf(image, i)) {
      ImageInodes(image, files, i);
    }
    forall i: nat, j: nat | i < j < |files|
      ensures Loads(image, InodeOff(i)) && Loads(image, InodeOff(j)) && W.Unshared(W.InodeOf(image, i), W.InodeOf(image, j))
    {
      ImageUnshared(image, files, i, j);
    }
    assert NumInodes(boot) == |files|;
  }

  /** Building an image, mounting it, opening a file by name and reading it whole. */
  method BuildAndRead(files: seq<File>, junk: seq<seq<byte>>, i: nat) returns (r: Disk.Result<seq<byte>>)
    requires Fits(files) && |junk| == |files| && (forall k :: 0 <= k < |junk| ==> IsBlock(junk[k]))
    requires DistinctNames(files) && Aligned(files) && i < |files|
    ensures r == Disk.Ok(files[i].data)
  {
    var image := MakeImage(files, junk);
    ReservedSmall(files, |files|);
    InodeFound(image, files, i);
    OpensByName(image, files, i);
    AlignedReadsBack(image, files, i);
    ghost var boot, len := image[..BLK], ByteLen(InodeIn(image, i));
    assert len == |files[i].data|;
    hide ImageOf, Fits, BootFor, InodeFor, ReadResult, Kfs.FirstNamed, NumDentry, DentryInode, ByteLen, InodeOff, NumInodes;
    var io := new Disk.IoLit(image);
    var fs := new Kfs.FileSystem(io);
    var mounted := fs.FsMount(io);
    ghost var was := fs.files;
    assert fs.boot == boot && io.buf == image && !was[0].inUse;
    var handle := fs.FsOpen(files[i].name);
    assert fs.Opened(was, fs.files, i, handle);
    assert handle.Ok? && fs.files[handle.value] == OpenAt(files, i, 0);
    r := fs.FsRead(handle.value, |files[i].data|);
  }
}
