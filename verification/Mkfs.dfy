/**
 The image builder (src/util/mkfs.c:79-160), over a list of names and contents: boot block with
 directory entries, one inode per file, data blocks. The inode array is on the stack and not
 cleared; its first contents are a parameter.
 */
module Mkfs {
  import opened Bytes
  import opened KfsSpec

  datatype File = File(name: seq<byte>, data: seq<byte>)

  /** Blocks an inode lists for a file, and blocks written for it. */
  function Slots(len: nat): nat { len / BLK + 1 }
  function Blocks(len: nat): nat { (len + BLK - 1) / BLK }

  /** What the builder's arrays have room for. */
  ghost predicate Fits(files: seq<File>) {
    |files| <= MAX_DENTRIES && forall i :: 0 <= i < |files| ==> Slots(|files[i].data|) <= MAX_BLOCKS
  }

  function Reserved(files: seq<File>, i: nat): nat
    requires i <= |files|
  {
    if i == 0 then 0 else Reserved(files, i - 1) + Slots(|files[i - 1].data|)
  }

  function Written(files: seq<File>, i: nat): nat
    requires i <= |files|
  {
    if i == 0 then 0 else Written(files, i - 1) + Blocks(|files[i - 1].data|)
  }

  lemma {:induction false} ReservedSmall(files: seq<File>, i: nat)
    requires i <= |files| && Fits(files)
    ensures Reserved(files, i) <= i * MAX_BLOCKS && Written(files, i) <= Reserved(files, i) <= 0x1_0000
  {
    if i > 0 {
      ReservedSmall(files, i - 1);
      assert Blocks(|files[i - 1].data|) <= Slots(|files[i - 1].data|) <= MAX_BLOCKS;
    }
  }

  lemma {:induction false} ReservedGrows(files: seq<File>, i: nat, n: nat)
    requires i <= n <= |files|
    ensures Reserved(files, i) <= Reserved(files, n) && Written(files, i) <= Written(files, n)
    decreases n
  {
    if i < n {
      ReservedGrows(files, i, n - 1);
    }
  }

  // ---------------------------------------------------------------- what an image holds

  ghost predicate DentryFor(boot: seq<byte>, files: seq<File>, i: nat)
    requires IsBlock(boot) && i < |files| <= MAX_DENTRIES
  {
    DentryName(boot, i) == Padded(files[i].name, NAMELEN) && DentryInode(boot, i) == i
  }

  ghost predicate BootFor(boot: seq<byte>, files: seq<File>) {
    && IsBlock(boot) && |files| <= MAX_DENTRIES
    && NumDentry(boot) == |files| && NumInodes(boot) == |files| && NumData(boot) == Reserved(files, |files|)
    && forall i: nat :: i < |files| ==> DentryFor(boot, files, i)
  }

  ghost predicate InodeFor(inode: seq<byte>, base: nat, len: nat) {
    IsBlock(inode) && Slots(len) <= MAX_BLOCKS && ByteLen(inode) == len && Listed(inode, base, Slots(len))
  }

  /** The first n blocks listed are consecutive from base. */
  ghost predicate Listed(inode: seq<byte>, base: nat, n: nat)
    requires IsBlock(inode) && n <= MAX_BLOCKS
  {
    forall j: nat :: j < n ==> BlockNum(inode, j) == base + j
  }

  /** A block with piece t of a file; past the end of the file it holds anything. */
  ghost predicate DataFor(block: seq<byte>, data: seq<byte>, t: nat) {
    IsBlock(block) && forall k: nat :: k < BLK && t * BLK + k < |data| ==> block[k] == data[t * BLK + k]
  }

  ghost predicate HasInode(image: seq<byte>, files: seq<File>, i: nat)
    requires i < |files|
  {
    Loads(image, (1 + i) * BLK) && InodeFor(BlockAt(image, (1 + i) * BLK), Reserved(files, i), |files[i].data|)
  }

  ghost predicate HasData(image: seq<byte>, files: seq<File>, i: nat, t: nat)
    requires i < |files|
  {
    var b := 1 + |files| + Written(files, i) + t;
    Loads(image, b * BLK) && DataFor(BlockAt(image, b * BLK), files[i].data, t)
  }

  ghost predicate ImageOf(image: seq<byte>, files: seq<File>) {
    && |image| == (1 + |files| + Written(files, |files|)) * BLK
    && BootFor(image[..BLK], files)
    && (forall i: nat :: i < |files| ==> HasInode(image, files, i))
    && (forall i: nat, t: nat :: i < |files| && t < Blocks(|files[i].data|) ==> HasData(image, files, i, t))
  }

  // ---------------------------------------------------------------- the boot block

  function WithDentry(boot: seq<byte>, i: nat, name: seq<byte>): (r: seq<byte>)
    requires IsBlock(boot) && i < MAX_DENTRIES
    ensures IsBlock(r)
  {
    PutU32(Splice(boot, 64 + 64 * i, Padded(name, NAMELEN)), 64 + 64 * i + NAMELEN, i)
  }

  lemma DentryStored(boot: seq<byte>, files: seq<File>, i: nat, k: nat)
    requires IsBlock(boot) && k <= i < |files| <= MAX_DENTRIES && (k < i ==> DentryFor(boot, files, k))
    ensures DentryFor(WithDentry(boot, i, files[i].name), files, k)
  {
    var at, name := 64 + 64 * i, Padded(files[i].name, NAMELEN);
    var named := Splice(boot, at, name);
    U32Stored(named, at + NAMELEN, i, 64 + 64 * k + NAMELEN);
    if k < i {
      U32Spliced(boot, at, name, 64 + 64 * k + NAMELEN);
    }
    hide U32At, Padded;
    DentryNamed(boot, i, name, k);
  }

  lemma DentryNamed(boot: seq<byte>, i: nat, name: seq<byte>, k: nat)
    requires IsBlock(boot) && k <= i < MAX_DENTRIES && |name| == NAMELEN
    ensures var r := PutU32(Splice(boot, 64 + 64 * i, name), 64 + 64 * i + NAMELEN, i);
      DentryName(r, k) == if k == i then name else DentryName(boot, k)
  {
    hide Le;
  }

  function Counted(boot: seq<byte>, n: nat, numData: nat): (r: seq<byte>)
    requires IsBlock(boot)
    ensures IsBlock(r)
  {
    PutU32(PutU32(PutU32(boot, 0, n), 4, n), 8, numData)
  }

  lemma CountsStored(boot: seq<byte>, files: seq<File>, numData: nat)
    requires IsBlock(boot) && |files| <= MAX_DENTRIES && numData < U32 && numData == Reserved(files, |files|)
    requires forall i: nat :: i < |files| ==> DentryFor(boot, files, i)
    ensures BootFor(Counted(boot, |files|, numData), files)
  {
    CountsRead(boot, |files|, numData);
    hide Counted, NumDentry, NumInodes, NumData, DentryName, DentryInode;
    forall i: nat | i < |files| ensures DentryFor(Counted(boot, |files|, numData), files, i) {
      CountsApart(boot, |files|, numData, i);
      assert DentryFor(boot, files, i);
    }
  }

  lemma CountsRead(boot: seq<byte>, n: nat, numData: nat)
    requires IsBlock(boot) && n < U32 && numData < U32
    ensures var r := Counted(boot, n, numData); NumDentry(r) == n && NumInodes(r) == n && NumData(r) == numData
  {
    hide PutU32, U32At;
    var b1 := PutU32(boot, 0, n);
    var b2 := PutU32(b1, 4, n);
    U32Stored(boot, 0, n, 0);
    U32Stored(b1, 4, n, 0);
    U32Stored(b2, 8, numData, 0);
    U32Stored(b2, 8, numData, 4);
  }

  lemma CountsApart(boot: seq<byte>, n: nat, numData: nat, i: nat)
    requires IsBlock(boot) && i < MAX_DENTRIES && n < U32 && numData < U32
    ensures DentryName(Counted(boot, n, numData), i) == DentryName(boot, i)
    ensures DentryInode(Counted(boot, n, numData), i) == DentryInode(boot, i)
  {
    var at := 64 + 64 * i + NAMELEN;
    U32Stored(boot, 0, n, at);
    U32Stored(PutU32(boot, 0, n), 4, n, at);
    U32Stored(PutU32(PutU32(boot, 0, n), 4, n), 8, numData, at);
  }

  method BuildBoot(files: seq<File>, numData: nat) returns (boot: seq<byte>)
    requires |files| <= MAX_DENTRIES && numData < U32 && numData == Reserved(files, |files|)
    ensures BootFor(boot, files)
  {
    boot := seq(BLK, _ => 0);
    var i := 0;
    while i < |files|
      invariant 0 <= i <= |files| && IsBlock(boot)
      invariant forall k: nat :: k < i ==> DentryFor(boot, files, k)
    {
      ghost var was := boot;
      boot := Splice(boot, 64 + 64 * i, Padded(files[i].name, NAMELEN));
      boot := PutU32(boot, 64 + 64 * i + NAMELEN, i);
      hide DentryFor, Splice, PutU32;
      forall k: nat | k <= i ensures DentryFor(boot, files, k) {
        DentryStored(was, files, i, k);
      }
      i := i + 1;
    }
    CountsStored(boot, files, numData);
    boot := PutU32(boot, 0, |files|);
    boot := PutU32(boot, 4, |files|);
    boot := PutU32(boot, 8, numData);
  }

  // ---------------------------------------------------------------- inodes

  method BuildInode(junk: seq<byte>, base: nat, len: nat) returns (inode: seq<byte>, next: nat)
    requires IsBlock(junk) && Slots(len) <= MAX_BLOCKS && base + Slots(len) < U32
    ensures InodeFor(inode, base, len) && next == base + Slots(len)
  {
    inode, next := junk, base;
    hide PutU32;
    var j := 0;
    while j < len / BLK + 1
      invariant 0 <= j <= Slots(len) && IsBlock(inode) && next == base + j && Listed(inode, base, j)
    {
      ListMore(inode, base, j);
      inode := PutU32(inode, 4 + 4 * j, next);
      next := next + 1;
      j := j + 1;
    }
    LenStored(inode, base, j, len);
    inode := PutU32(inode, 0, len);
  }

  lemma ListMore(inode: seq<byte>, base: nat, j: nat)
    requires IsBlock(inode) && j < MAX_BLOCKS && Listed(inode, base, j) && base + j < U32
    ensures Listed(PutU32(inode, 4 + 4 * j, base + j), base, j + 1)
  {
    var r := PutU32(inode, 4 + 4 * j, base + j);
    hide PutU32, U32At;
    forall k: nat | k < j + 1 ensures BlockNum(r, k) == base + k {
      U32Stored(inode, 4 + 4 * j, base + j, 4 + 4 * k);
      assert k < j ==> BlockNum(inode, k) == base + k;
    }
  }

  lemma LenStored(inode: seq<byte>, base: nat, n: nat, len: nat)
    requires IsBlock(inode) && n <= MAX_BLOCKS && Listed(inode, base, n) && len < U32
    ensures Listed(PutU32(inode, 0, len), base, n) && ByteLen(PutU32(inode, 0, len)) == len
  {
    var r := PutU32(inode, 0, len);
    hide PutU32, U32At;
    U32Stored(inode, 0, len, 0);
    forall k: nat | k < n ensures BlockNum(r, k) == base + k {
      U32Stored(inode, 0, len, 4 + 4 * k);
      assert BlockNum(inode, k) == base + k;
    }
  }

  lemma ReservedStart(files: seq<File>)
    ensures Reserved(files, 0) == 0
  {
  }

  lemma ReservedNext(files: seq<File>, i: nat)
    requires i < |files|
    ensures Reserved(files, i + 1) == Reserved(files, i) + Slots(|files[i].data|)
  {
  }

  lemma NextFits(files: seq<File>, i: nat)
    requires Fits(files) && i < |files|
    ensures Slots(|files[i].data|) <= MAX_BLOCKS && Reserved(files, i) + Slots(|files[i].data|) < U32
  {
    ReservedSmall(files, i);
  }

  method BuildInodes(files: seq<File>, junk: seq<seq<byte>>) returns (inodes: seq<seq<byte>>, next: nat)
    requires Fits(files) && |junk| == |files| && forall i :: 0 <= i < |junk| ==> IsBlock(junk[i])
    ensures |inodes| == |files| && next == Reserved(files, |files|) < U32
    ensures forall i: nat :: i < |files| ==> InodeFor(inodes[i], Reserved(files, i), |files[i].data|)
  {
    hide InodeFor, Slots, Fits, Reserved;
    ReservedStart(files);
    inodes, next := junk, 0;
    var i := 0;
    while i < |files|
      invariant 0 <= i <= |files| == |inodes| && next == Reserved(files, i)
      invariant forall k: nat :: k < i ==> InodeFor(inodes[k], Reserved(files, k), |files[k].data|)
      invariant forall k: nat :: i <= k < |files| ==> IsBlock(inodes[k])
    {
      NextFits(files, i);
      ReservedNext(files, i);
      var inode;
      inode, next := BuildInode(inodes[i], next, |files[i].data|);
      inodes := inodes[i := inode];
      i := i + 1;
    }
    ReservedSmall(files, |files|);
  }

  // ---------------------------------------------------------------- the image

  /** Appending moves no block. */
  lemma BlockStays(image: seq<byte>, more: seq<byte>, off: nat)
    requires Loads(image, off)
    ensures Loads(image + more, off) && BlockAt(image + more, off) == BlockAt(image, off)
  {
    var a, b := BlockAt(image + more, off), BlockAt(image, off);
    assert forall k :: 0 <= k < BLK ==> a[k] == b[k];
  }

  lemma BlockAppended(image: seq<byte>, block: seq<byte>)
    requires IsBlock(block)
    ensures Loads(image + block, |image|) && BlockAt(image + block, |image|) == block
  {
  }

  /** One file's data, in whole blocks; the last keeps what the buffer held before. */
  method WriteData(data: seq<byte>) returns (out: seq<byte>)
    ensures |out| == Blocks(|data|) * BLK
    ensures forall t: nat :: t < Blocks(|data|) ==> Loads(out, t * BLK) && DataFor(BlockAt(out, t * BLK), data, t)
  {
    out := [];
    var buf: seq<byte> := seq(BLK, _ => 0);
    var done := 0;
    ghost var t := 0;
    while done < |data|
      invariant 0 <= done <= |data| && IsBlock(buf) && |out| == t * BLK && 0 <= t <= Blocks(|data|)
      invariant done == Min(|data|, t * BLK)
      invariant forall s: nat :: s < t ==> Loads(out, s * BLK) && DataFor(BlockAt(out, s * BLK), data, s)
    {
      var n := Min(BLK, |data| - done);
      buf := data[done..done + n] + buf[n..];
      assert DataFor(buf, data, t);
      hide DataFor;
      ghost var was := out;
      out := out + buf;
      forall s: nat | s <= t ensures Loads(out, s * BLK) && DataFor(BlockAt(out, s * BLK), data, s) {
        if s < t { BlockStays(was, buf, s * BLK); } else { BlockAppended(was, buf); }
      }
      done := done + n;
      t := t + 1;
    }
  }

  /** The blocks up to and including file i's data. */
  ghost predicate Laid(image: seq<byte>, files: seq<File>, inodes: nat, datas: nat)
    requires inodes <= |files| && datas <= |files|
  {
    && (forall i: nat :: i < inodes ==> HasInode(image, files, i))
    && (forall i: nat, t: nat :: i < datas && t < Blocks(|files[i].data|) ==> HasData(image, files, i, t))
  }

  lemma LaidStays(image: seq<byte>, more: seq<byte>, files: seq<File>, inodes: nat, datas: nat)
    requires inodes <= |files| && datas <= |files| && Laid(image, files, inodes, datas)
    ensures Laid(image + more, files, inodes, datas)
  {
    hide InodeFor, DataFor, BlockAt, Blocks;
    forall i: nat | i < inodes ensures HasInode(image + more, files, i) {
      assert HasInode(image, files, i);
      BlockStays(image, more, (1 + i) * BLK);
    }
    forall i: nat, t: nat | i < datas && t < Blocks(|files[i].data|) ensures HasData(image + more, files, i, t) {
      assert HasData(image, files, i, t);
      BlockStays(image, more, (1 + |files| + Written(files, i) + t) * BLK);
    }
  }

  lemma InodeLaid(image: seq<byte>, inode: seq<byte>, files: seq<File>, i: nat)
    requires i < |files| && |image| == (1 + i) * BLK && Laid(image, files, i, 0)
    requires InodeFor(inode, Reserved(files, i), |files[i].data|)
    ensures Laid(image + inode, files, i + 1, 0)
  {
    LaidStays(image, inode, files, i, 0);
    BlockAppended(image, inode);
    hide InodeFor, DataFor, BlockAt, Blocks;
    assert HasInode(image + inode, files, i);
  }

  /** A block of what is appended, found again behind what was there. */
  lemma BlockBehind(image: seq<byte>, more: seq<byte>, off: nat)
    requires Loads(more, off)
    ensures Loads(image + more, |image| + off) && BlockAt(image + more, |image| + off) == BlockAt(more, off)
  {
    var a, b := BlockAt(image + more, |image| + off), BlockAt(more, off);
    assert forall k :: 0 <= k < BLK ==> a[k] == b[k];
  }

  lemma DataLaid(image: seq<byte>, out: seq<byte>, files: seq<File>, i: nat)
    requires i < |files| && |image| == (1 + |files| + Written(files, i)) * BLK && Laid(image, files, |files|, i)
    requires forall t: nat :: t < Blocks(|files[i].data|) ==> Loads(out, t * BLK) && DataFor(BlockAt(out, t * BLK), files[i].data, t)
    ensures Laid(image + out, files, |files|, i + 1)
  {
    hide DataFor, BlockAt, Blocks, HasInode, HasData, Written;
    LaidStays(image, out, files, |files|, i);
    forall t: nat | t < Blocks(|files[i].data|) ensures HasData(image + out, files, i, t) {
      DataBlockLaid(image, out, files, i, t);
    }
  }

  lemma DataBlockLaid(image: seq<byte>, out: seq<byte>, files: seq<File>, i: nat, t: nat)
    requires i < |files| && |image| == (1 + |files| + Written(files, i)) * BLK
    requires Loads(out, t * BLK) && DataFor(BlockAt(out, t * BLK), files[i].data, t)
    ensures HasData(image + out, files, i, t)
  {
    hide DataFor, BlockAt, Written, Loads;
    BlockBehind(image, out, t * BLK);
    assert (1 + |files| + Written(files, i) + t) * BLK == |image| + t * BLK;
  }

  /** mkfs */
  method MakeImage(files: seq<File>, junk: seq<seq<byte>>) returns (image: seq<byte>)
    requires Fits(files) && |junk| == |files| && forall i :: 0 <= i < |junk| ==> IsBlock(junk[i])
    ensures ImageOf(image, files)
  {
    var inodes, next := BuildInodes(files, junk);
    var boot := BuildBoot(files, next);
    hide BootFor, InodeFor, HasInode, HasData, Fits, Blocks, DataFor, BlockAt;
    image := boot;
    var i := 0;
    while i < |files|
      invariant 0 <= i <= |files| && |image| == (1 + i) * BLK && boot <= image && Laid(image, files, i, 0)
    {
      InodeLaid(image, inodes[i], files, i);
      image := image + inodes[i];
      i := i + 1;
    }
    i := 0;
    while i < |files|
      invariant 0 <= i <= |files| && |image| == (1 + |files| + Written(files, i)) * BLK && boot <= image && Laid(image, files, |files|, i)
    {
      var out := WriteData(files[i].data);
      DataLaid(image, out, files, i);
      image := image + out;
      i := i + 1;
    }
    assert image[..BLK] == boot;
  }
}
