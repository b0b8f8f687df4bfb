/**
 The UART driver of src/kern/uart.c: ring buffers with free-running 16-bit counters and the
 interrupt service routine, as code and as functions on ring values.
 */
module Uart {

  const RBUFSZ := 64  // SERIAL_RBUFSZ
  const U16 := 0x1_0000

  /** struct ringbuf. */
  datatype Ring = Ring(hpos: nat, tpos: nat, data: seq<char>)

  predicate IsRing(r: Ring) { r.hpos < U16 && r.tpos < U16 && |r.data| == RBUFSZ }

  predicate IsEmpty(r: Ring) { r.hpos == r.tpos }

  predicate IsFull(r: Ring) { (r.tpos - r.hpos) % U16 == RBUFSZ }

  /** rbuf_put in its two steps: store the byte, then publish it. */
  function Store(r: Ring, c: char): Ring
    requires IsRing(r)
  {
    r.(data := r.data[r.tpos % RBUFSZ := c])
  }

  function PublishPut(r: Ring): Ring { r.(tpos := (r.tpos + 1) % U16) }

  /** rbuf_get in its two steps: fetch the byte, then give up its slot. */
  function Fetch(r: Ring): char
    requires IsRing(r)
  {
    r.data[r.hpos % RBUFSZ]
  }

  function PublishGet(r: Ring): Ring { r.(hpos := (r.hpos + 1) % U16) }

  /** What a ring means: put are all bytes ever published, the first got of them have been taken out. */
  ghost predicate RingOk(r: Ring, put: seq<char>, got: nat) {
    && IsRing(r)
    && got <= |put| <= got + RBUFSZ
    && r.hpos == got % U16 && r.tpos == |put| % U16
    && forall i :: got <= i < |put| ==> Slot(r, i) == put[i]
  }

  function Slot(r: Ring, i: nat): char
    requires |r.data| == RBUFSZ
  {
    r.data[i % RBUFSZ]
  }

  lemma SlotsApart(i: nat, j: nat)
    requires i < j < i + RBUFSZ
    ensures i % RBUFSZ != j % RBUFSZ
  {
  }

  /** 64 divides 2^16, so wrapping a counter moves no slot. */
  lemma WrapKeepsSlot(n: nat)
    ensures (n % U16) % RBUFSZ == n % RBUFSZ && (n % U16 + 1) % U16 == (n + 1) % U16
  {
    Divides(n, n / 0x10000, n % 0x10000);
  }

  lemma Divides(n: nat, q: nat, m: nat)
    requires n == q * 0x10000 + m && m < 0x10000
    ensures m % 64 == n % 64 && (m + 1) % 0x10000 == (n + 1) % 0x10000
  {
    Mod64(n, q * 1024 + m / 64, m % 64);
    if m == 0xFFFF {
      ModU16(n + 1, q + 1, 0);
    } else {
      ModU16(n + 1, q, m + 1);
    }
  }

  lemma Mod64(n: nat, q: nat, r: nat)
    requires n == q * 64 + r && r < 64
    ensures n % 64 == r
  {
  }

  lemma ModU16(n: nat, q: nat, r: nat)
    requires n == q * 0x10000 + r && r < 0x10000
    ensures n % 0x10000 == r
  {
  }

  /** The counter comparisons of rbuf_empty and rbuf_full see the true occupancy across any wraps. */
  lemma Occupancy(r: Ring, put: seq<char>, got: nat)
    requires RingOk(r, put, got)
    ensures IsEmpty(r) <==> |put| == got
    ensures IsFull(r) <==> |put| == got + RBUFSZ
  {
    CountersCompare(got, |put|);
  }

  lemma CountersCompare(h: nat, t: nat)
    requires h <= t <= h + RBUFSZ
    ensures h % U16 == t % U16 <==> t == h
    ensures (t % U16 - h % U16) % U16 == t - h
  {
    var d := t - h;
    if h % U16 + d < U16 {
      assert t == h / U16 * U16 + (h % U16 + d);
    } else {
      assert t == (h / U16 + 1) * U16 + (h % U16 + d - U16);
    }
  }

  /** A byte stored in a ring that is not full lands in a free slot. */
  lemma StoreOk(r: Ring, put: seq<char>, got: nat, c: char)
    requires RingOk(r, put, got) && |put| < got + RBUFSZ
    ensures RingOk(Store(r, c), put, got) && Slot(Store(r, c), |put|) == c
  {
    WrapKeepsSlot(|put|);
    forall i | got <= i < |put| ensures Slot(Store(r, c), i) == put[i] {
      SlotsApart(i, |put|);
      assert Slot(r, i) == put[i];
    }
  }

  lemma PublishPutOk(r: Ring, put: seq<char>, got: nat, c: char)
    requires RingOk(r, put, got) && |put| < got + RBUFSZ && Slot(r, |put|) == c
    ensures RingOk(PublishPut(r), put + [c], got)
  {
    WrapKeepsSlot(|put|);
    forall i | got <= i < |put + [c]| ensures Slot(PublishPut(r), i) == (put + [c])[i] {
      assert Slot(PublishPut(r), i) == Slot(r, i);
    }
  }

  lemma FetchOk(r: Ring, put: seq<char>, got: nat)
    requires RingOk(r, put, got) && got < |put|
    ensures Fetch(r) == put[got]
  {
    WrapKeepsSlot(got);
    assert Slot(r, got) == put[got];
  }

  lemma PublishGetOk(r: Ring, put: seq<char>, got: nat)
    requires RingOk(r, put, got) && got < |put|
    ensures RingOk(PublishGet(r), put, got + 1)
  {
    WrapKeepsSlot(got);
    forall i | got + 1 <= i < |put| ensures Slot(PublishGet(r), i) == put[i] {
      assert Slot(PublishGet(r), i) == Slot(r, i);
    }
  }

  // ---------------------------------------------------------------- the interrupt service routine

  /** The two interrupt-enable bits the driver uses. */
  datatype Ier = Ier(dre: bool, thre: bool)

  datatype Wake = Wake(readers: bool, writers: bool)  // which conditions the routine broadcasts

  datatype Port = Port(rx: Ring, tx: Ring, ier: Ier, wake: Wake, sent: seq<char>)

  /** The receive half, when LSR_DR is set and rbr holds c. */
  function RxStep(p: Port, c: char): Port
    requires IsRing(p.rx)
  {
    if !IsFull(p.rx) then
      p.(rx := PublishPut(Store(p.rx, c)), wake := p.wake.(readers := IsEmpty(p.rx)))
    else p.(ier := p.ier.(dre := false))
  }

  /** The transmit half, when LSR_THRE is set. */
  function TxStep(p: Port): Port
    requires IsRing(p.tx)
  {
    if !IsEmpty(p.tx) then
      p.(tx := PublishGet(p.tx), wake := p.wake.(writers := IsFull(p.tx)), sent := p.sent + [Fetch(p.tx)])
    else p.(ier := p.ier.(thre := false))
  }

  function IsrStep(p: Port, dr: bool, c: char, thre: bool): Port
    requires IsRing(p.rx) && IsRing(p.tx)
  {
    var p0 := p.(wake := Wake(false, false));
    var p1 := if dr then RxStep(p0, c) else p0;
    if thre then TxStep(p1) else p1
  }

  /**
   What the routine does to the enable bits and whom it wakes, told from the rings alone: it turns an
   interrupt off exactly if that interrupt came and found nothing to do, and it wakes readers exactly
   when the first byte comes, writers exactly when the first slot comes free.
   */
  lemma IsrBits(p: Port, dr: bool, c: char, thre: bool)
    requires IsRing(p.rx) && IsRing(p.tx)
    ensures var p' := IsrStep(p, dr, c, thre);
      && p'.ier.thre == (p.ier.thre && !(thre && IsEmpty(p.tx)))
      && p'.ier.dre == (p.ier.dre && !(dr && IsFull(p.rx)))
      && p'.wake.readers == (dr && IsEmpty(p.rx)) && p'.wake.writers == (thre && IsFull(p.tx))
      && (!thre || IsEmpty(p.tx) ==> p'.sent == p.sent && p'.tx == p.tx) && (!dr || IsFull(p.rx) ==> p'.rx == p.rx)
  {
    assert IsEmpty(p.rx) ==> !IsFull(p.rx);
    assert IsFull(p.tx) ==> !IsEmpty(p.tx);
    hide Store, PublishPut, PublishGet, Fetch, IsEmpty, IsFull;
  }

  // ---------------------------------------------------------------- the code

  class RingBuf {
    var hpos: nat
    var tpos: nat
    const data: array<char>
    ghost var put: seq<char>  // all bytes ever put in
    ghost var got: nat        // how many of them have been taken out

    ghost function Val(): Ring
      reads this, data
    {
      Ring(hpos, tpos, data[..])
    }

    ghost predicate Valid()
      reads this, data
    {
      RingOk(Val(), put, got)
    }

    /** rbuf_init on fresh storage. */
    constructor ()
      ensures Valid() && fresh(data) && put == [] && got == 0
    {
      data := new char[RBUFSZ];
      hpos, tpos, put, got := 0, 0, [], 0;
    }

    /** rbuf_empty: everything put in has been taken out. */
    method Empty() returns (r: bool)
      requires Valid()
      ensures r <==> got == |put|
      ensures r == IsEmpty(Val())
    {
      Occupancy(Val(), put, got);
      r := hpos == tpos;
    }

    /** rbuf_full: as many bytes as the ring has slots are still to be taken out. */
    method Full() returns (r: bool)
      requires Valid()
      ensures r <==> |put| - got == RBUFSZ
      ensures r == IsFull(Val())
    {
      Occupancy(Val(), put, got);
      r := (tpos - hpos) % U16 == RBUFSZ;
    }

    /** rbuf_put, src/kern/uart.c:302-309: unless the ring is full, the byte is put in behind all others. */
    method Put(c: char)
      requires Valid()
      modifies this`tpos, this`put, data
      ensures old(|put| - got < RBUFSZ) ==> Valid()
      ensures put == old(put) + [c] && Val() == PublishPut(Store(old(Val()), c))
    {
      ghost var r := Val();
      var t := tpos;
      data[t % RBUFSZ] := c;
      tpos := (t + 1) % U16;
      assert Val() == PublishPut(Store(r, c));
      if |put| - got < RBUFSZ {
        StoreOk(r, put, got, c);
        PublishPutOk(Store(r, c), put, got, c);
      }
      put := put + [c];
    }

    /** rbuf_get, src/kern/uart.c:311-320: unless the ring is empty, the oldest byte not yet taken. */
    method Get() returns (c: char)
      requires Valid()
      modifies this`hpos, this`got
      ensures old(got) < |put| ==> Valid() && c == put[old(got)]
      ensures got == old(got) + 1 && Val() == PublishGet(old(Val())) && c == Fetch(old(Val()))
    {
      if got < |put| {
        FetchOk(Val(), put, got);
        PublishGetOk(Val(), put, got);
      }
      var h := hpos;
      c := data[h % RBUFSZ];
      hpos := (h + 1) % U16;
      got := got + 1;
    }
  }

  class UartDevice {
    const rxbuf: RingBuf
    const txbuf: RingBuf
    var ier: Ier
    var rxovrcnt: nat
    var sent: seq<char>  // bytes written to the transmit register
    var wake: Wake       // conditions broadcast by the last interrupt

    /** What was sent is what has been taken out of the transmit ring. */
    ghost predicate Valid()
      reads this, rxbuf, txbuf, rxbuf.data, txbuf.data
    {
      && rxbuf.Valid() && txbuf.Valid() && rxbuf != txbuf && rxbuf.data != txbuf.data
      && sent == txbuf.put[..txbuf.got]
    }

    ghost function Val(): Port
      reads this, rxbuf, txbuf, rxbuf.data, txbuf.data
    {
      Port(rxbuf.Val(), txbuf.Val(), ier, wake, sent)
    }

    /** uart_open: empty rings, receive interrupts only (src/kern/uart.c:147-170). */
    constructor ()
      ensures Valid() && ier == Ier(true, false) && sent == []
      ensures rxbuf.put == [] && txbuf.put == []
    {
      rxbuf := new RingBuf();
      txbuf := new RingBuf();
      ier, rxovrcnt, sent, wake := Ier(true, false), 0, [], Wake(false, false);
    }

    /**
     uart_isr, src/kern/uart.c:256-280; oe, dr and thre are the line status bits, c the byte in rbr. A
     received byte is put in if there is room, and the oldest byte of the transmit ring is sent.
     */
    method Isr(oe: bool, dr: bool, thre: bool, c: char)
      requires Valid()
      modifies this, rxbuf, txbuf, rxbuf.data, txbuf.data
      ensures Valid() && Val() == IsrStep(old(Val()), dr, c, thre)
      ensures rxbuf.put == old(rxbuf.put) + (if dr && old(|rxbuf.put| - rxbuf.got < RBUFSZ) then [c] else []) && rxbuf.got == old(rxbuf.got)
      ensures txbuf.put == old(txbuf.put) && txbuf.got == old(txbuf.got) + if thre && old(txbuf.got < |txbuf.put|) then 1 else 0
      ensures rxovrcnt == (old(rxovrcnt) + if oe then 1 else 0) % 0x1_0000_0000
      ensures ier.thre == (old(ier.thre) && !(thre && old(txbuf.got == |txbuf.put|)))
      ensures ier.dre == (old(ier.dre) && !(dr && old(|rxbuf.put| - rxbuf.got == RBUFSZ)))
      ensures wake.readers == (dr && old(rxbuf.got == |rxbuf.put|)) && wake.writers == (thre && old(|txbuf.put| - txbuf.got == RBUFSZ))
    {
      assert rxbuf.got <= |rxbuf.put| <= rxbuf.got + RBUFSZ && txbuf.got <= |txbuf.put| <= txbuf.got + RBUFSZ;
      hide RxStep, TxStep, RingOk, IsFull, IsEmpty, Store, PublishPut, PublishGet, Fetch;
      wake := Wake(false, false);
      rxovrcnt := (rxovrcnt + if oe then 1 else 0) % 0x1_0000_0000;
      if dr {
        Receive(c);
      }
      if thre {
        Transmit();
      }
    }

    method Receive(c: char)
      requires Valid()
      modifies this`wake, this`ier, rxbuf, rxbuf.data
      ensures Valid() && Val() == RxStep(old(Val()), c)
      ensures ier == old(ier.(dre := ier.dre && |rxbuf.put| - rxbuf.got < RBUFSZ))
      ensures wake == old(wake.(readers := if |rxbuf.put| - rxbuf.got < RBUFSZ then rxbuf.got == |rxbuf.put| else wake.readers))
      ensures rxbuf.put == old(rxbuf.put) + (if old(|rxbuf.put| - rxbuf.got < RBUFSZ) then [c] else []) && rxbuf.got == old(rxbuf.got)
    {
      hide IsFull, IsEmpty, Store, PublishPut;
      var full := rxbuf.Full();
      if !full {
        var empty := rxbuf.Empty();
        wake := wake.(readers := empty);
        rxbuf.Put(c);
      } else {
        ier := ier.(dre := false);
      }
    }

    method Transmit()
      requires Valid()
      modifies this`wake, this`ier, this`sent, txbuf
      ensures Valid() && Val() == TxStep(old(Val()))
      ensures ier == old(ier.(thre := ier.thre && txbuf.got < |txbuf.put|))
      ensures wake == old(wake.(writers := if txbuf.got < |txbuf.put| then |txbuf.put| - txbuf.got == RBUFSZ else wake.writers))
      ensures txbuf.put == old(txbuf.put) && txbuf.got == old(txbuf.got) + if old(txbuf.got < |txbuf.put|) then 1 else 0
    {
      hide IsFull, IsEmpty, PublishGet, Fetch;
      var empty := txbuf.Empty();
      if !empty {
        var full := txbuf.Full();
        wake := wake.(writers := full);
        var c := txbuf.Get();
        sent := sent + [c];
      } else {
        ier := ier.(thre := false);
      }
    }
  }
}
