/** io_lit: a byte device over a buffer (src/kern/io.c:168-232, 350-362). */
module Disk {
  import opened Bytes

  datatype Error = EINVAL | EIO | ENOENT | EBUSY

  datatype Result<T> = Ok(value: T) | Err(error: Error)

  class IoLit {
    var buf: seq<byte>
    var pos: nat

    ghost predicate Valid()
      reads this
    {
      pos <= |buf| < U32
    }

    constructor (image: seq<byte>)
      requires |image| < U32
      ensures Valid() && buf == image && pos == 0
    {
      buf, pos := image, 0;
    }

    /** lit_setpos */
    method SetPos(p: nat) returns (ok: bool)
      requires Valid()
      modifies this`pos
      ensures Valid()
      ensures ok <==> p <= |buf|
      ensures pos == if ok then p else old(pos)
    {
      ok := p <= |buf|;
      if ok {
        pos := p;
      }
    }

    /** iolit_read */
    method Read(n: nat) returns (r: Result<seq<byte>>)
      requires Valid()
      modifies this`pos
      ensures Valid()
      ensures n == 0 ==> r == Err(EINVAL) && pos == old(pos)
      ensures n > 0 ==> var m := if n < |buf| - old(pos) then n else |buf| - old(pos);
        r == Ok(buf[old(pos)..old(pos) + m]) && pos == old(pos) + m
    {
      if n == 0 {
        return Err(EINVAL);
      }
      var rest := |buf| - pos;
      var m := if n < rest then n else rest;
      r := Ok(buf[pos..pos + m]);
      pos := pos + m;
    }

    /** iolit_write */
    method Write(data: seq<byte>) returns (r: Result<nat>)
      requires Valid()
      modifies this
      ensures Valid() && |buf| == old(|buf|)
      ensures data == [] ==> r == Err(EINVAL) && pos == old(pos) && buf == old(buf)
      ensures data != [] ==> var m := if |data| < old(|buf| - pos) then |data| else old(|buf| - pos);
        r == Ok(m) && pos == old(pos) + m && buf == Splice(old(buf), old(pos), data[..m])
    {
      if data == [] {
        return Err(EINVAL);
      }
      var rest := |buf| - pos;
      var m := if |data| < rest then |data| else rest;
      buf := Splice(buf, pos, data[..m]);
      pos := pos + m;
      r := Ok(m);
    }
  }
}
