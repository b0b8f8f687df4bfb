/**
 uart_read, uart_write and uart_isr interleaved (src/kern/uart.c:185-280): any number of threads
 in the driver, interrupts between any two of their accesses to shared state, and a context
 switch only where a thread waits. What holds in every such run is proved.
 */
module UartRuns {
  import opened Uart

  /** Where a thread is in the driver. */
  datatype Pc =
    | Away
    // uart_read(n): from is the stream position of the first byte it takes, out the bytes so far
    | ReadCheck(n: nat)
    | ReadWait(n: nat)
    | ReadLoop(n: nat, from: nat, out: seq<char>)
    | ReadGet(n: nat, from: nat, out: seq<char>)
    | ReadFetched(n: nat, from: nat, out: seq<char>, c: char)
    | ReadLoadIer(n: nat, from: nat, out: seq<char>)
    | ReadStoreIer(n: nat, from: nat, out: seq<char>, v: Ier)
    // uart_write(buf): the bytes before p are in the ring; base is what the thread had written before
    | WriteCheck(buf: seq<char>, p: nat, base: seq<char>)
    | WriteWait(buf: seq<char>, p: nat, base: seq<char>)
    | WriteLoop(buf: seq<char>, p: nat, base: seq<char>)
    | WritePut(buf: seq<char>, p: nat, base: seq<char>)
    | WriteStored(buf: seq<char>, p: nat, base: seq<char>)
    | WriteLoadIer(buf: seq<char>, p: nat, base: seq<char>)
    | WriteStoreIer(buf: seq<char>, p: nat, base: seq<char>, v: Ier)

  /**
   heard: every byte accepted from the line; taken: how many of them readers took out; given: every
   byte uart_read has returned, in the order of the returns. log: every byte writers put in, with the
   writer.
   */
  datatype Dev = Dev(port: Port, heard: seq<char>, taken: nat, given: seq<char>, log: seq<(nat, char)>, pc: map<nat, Pc>, cur: nat)

  datatype Act =
    | Isr(dr: bool, c: char, thre: bool)
    | Go(t: nat)                // context switch to t
    | Read(n: nat)
    | Write(buf: seq<char>)
    | Step                      // the current thread's next access

  function PcOf(pc: map<nat, Pc>, t: nat): Pc { if t in pc then pc[t] else Away }

  function Chars(log: seq<(nat, char)>): seq<char> { seq(|log|, i requires 0 <= i < |log| => log[i].1) }

  /** The bytes one thread has put in, in order. */
  function By(log: seq<(nat, char)>, t: nat): seq<char> {
    if log == [] then [] else By(log[..|log| - 1], t) + if log[|log| - 1].0 == t then [log[|log| - 1].1] else []
  }

  predicate Waits(p: Pc) { p.ReadWait? || p.WriteWait? }

  /** A thread gives up the processor only outside the driver or around condition_wait. */
  predicate CanSwitch(p: Pc) { p == Away || Waits(p) || p.ReadCheck? || p.WriteCheck? }

  predicate Takes(d: Dev, a: Act) {
    var p := PcOf(d.pc, d.cur);
    && IsRing(d.port.rx) && IsRing(d.port.tx)
    && match a
       case Isr(_, _, _) => true
       case Go(t) => CanSwitch(p) && !Waits(PcOf(d.pc, t))
       case Read(n) => p == Away && 0 < n
       case Write(buf) => p == Away && buf != []
       case Step => p != Away && !Waits(p) && (p.WritePut? || p.WriteStored? ==> p.p < |p.buf|)
  }

  function WokenPc(p: Pc, w: Wake): Pc {
    match p
    case ReadWait(n) => if w.readers then ReadCheck(n) else p
    case WriteWait(buf, i, base) => if w.writers then WriteCheck(buf, i, base) else p
    case _ => p
  }

  function WokenPcs(pc: map<nat, Pc>, w: Wake): map<nat, Pc> {
    map t | t in pc :: WokenPc(pc[t], w)
  }

  function Does(d: Dev, a: Act): Dev
    requires Takes(d, a)
  {
    match a
    case Isr(dr, c, thre) =>
      var port := IsrStep(d.port, dr, c, thre);
      d.(port := port, heard := if dr && !IsFull(d.port.rx) then d.heard + [c] else d.heard,
         pc := WokenPcs(d.pc, port.wake))
    case Go(t) => d.(cur := t)
    case Read(n) => d.(pc := d.pc[d.cur := ReadCheck(n)])
    case Write(buf) => d.(pc := d.pc[d.cur := WriteCheck(buf, 0, By(d.log, d.cur))])
    case Step => StepOf(d, PcOf(d.pc, d.cur))
  }

  function At(d: Dev, p: Pc): Dev { d.(pc := d.pc[d.cur := p]) }

  function StepOf(d: Dev, p: Pc): Dev
    requires Takes(d, Step) && p == PcOf(d.pc, d.cur)
  {
    var rx, tx, ier := d.port.rx, d.port.tx, d.port.ier;
    match p
    case ReadCheck(n) => At(d, if IsEmpty(rx) then ReadWait(n) else ReadLoop(n, d.taken, []))
    case ReadLoop(n, from, out) => At(d, if !IsEmpty(rx) && |out| < n then ReadGet(n, from, out) else ReadLoadIer(n, from, out))
    case ReadGet(n, from, out) => At(d, ReadFetched(n, from, out, Fetch(rx)))
    case ReadFetched(n, from, out, c) =>
      At(d.(port := d.port.(rx := PublishGet(rx)), taken := d.taken + 1), ReadLoop(n, from, out + [c]))
    case ReadLoadIer(n, from, out) => At(d, ReadStoreIer(n, from, out, ier))
    case ReadStoreIer(_, _, out, v) => At(d.(port := d.port.(ier := v.(dre := true)), given := d.given + out), Away)
    case WriteCheck(buf, i, base) => At(d, if IsFull(tx) then WriteWait(buf, i, base) else WriteLoop(buf, i, base))
    case WriteLoop(buf, i, base) => At(d, if !IsFull(tx) && i < |buf| then WritePut(buf, i, base) else WriteLoadIer(buf, i, base))
    case WritePut(buf, i, base) => At(d.(port := d.port.(tx := Store(tx, buf[i]))), WriteStored(buf, i, base))
    case WriteStored(buf, i, base) =>
      At(d.(port := d.port.(tx := PublishPut(tx)), log := d.log + [(d.cur, buf[i])]), WriteLoop(buf, i + 1, base))
    case WriteLoadIer(buf, i, base) => At(d, WriteStoreIer(buf, i, base, ier))
    case WriteStoreIer(buf, i, base, v) =>
      At(d.(port := d.port.(ier := v.(thre := true))), if i < |buf| then WriteCheck(buf, i, base) else Away)
    case _ => d
  }

  /** uart_open: empty rings, receive interrupts on, everybody away. */
  function Opened(data: seq<char>): Dev {
    Dev(Port(Ring(0, 0, data), Ring(0, 0, data), Ier(true, false), Wake(false, false), []), [], 0, [], [], map[], 0)
  }

  // ---------------------------------------------------------------- the invariant

  ghost predicate RingsOk(d: Dev) {
    && RingOk(d.port.rx, d.heard, d.taken)
    && RingOk(d.port.tx, Chars(d.log), |d.port.sent|)
    && d.port.sent == Chars(d.log)[..|d.port.sent|]
  }

  predicate InRead(p: Pc) { p.ReadLoop? || p.ReadGet? || p.ReadFetched? || p.ReadLoadIer? || p.ReadStoreIer? }

  predicate InWrite(p: Pc) { p.WriteLoop? || p.WritePut? || p.WriteStored? || p.WriteLoadIer? || p.WriteStoreIer? }

  /** The shared state the current thread may rely on in the middle of a call. */
  ghost predicate MidOk(d: Dev) {
    var rx, tx := |d.heard| - d.taken, |d.log| - |d.port.sent|;
    match PcOf(d.pc, d.cur)
    case ReadLoop(n, from, out) => Took(d, from, out) && |out| <= n && (out == [] ==> 0 < rx && 0 < n)
    case ReadGet(n, from, out) => Took(d, from, out) && |out| < n && 0 < rx
    case ReadFetched(n, from, out, c) => Took(d, from, out) && |out| < n && 0 < rx && c == d.heard[d.taken]
    case ReadLoadIer(n, from, out) => Took(d, from, out) && 0 < |out| <= n
    case ReadStoreIer(n, from, out, v) => Took(d, from, out) && 0 < |out| <= n && (!v.thre ==> tx == 0)
    case WritePut(buf, i, base) => i < |buf| && tx < RBUFSZ
    case WriteStored(buf, i, base) => i < |buf| && tx < RBUFSZ && |d.port.tx.data| == RBUFSZ && Slot(d.port.tx, |d.log|) == buf[i]
    case WriteStoreIer(buf, i, base, v) => !v.dre ==> rx == RBUFSZ
    case _ => true
  }

  /** out is the stretch of the received stream this call has taken. */
  ghost predicate Took(d: Dev, from: nat, out: seq<char>) {
    from + |out| == d.taken <= |d.heard| && out == d.heard[from..d.taken]
  }

  /** Whatever a call has put in is what its buffer begins with. */
  ghost predicate WroteOk(d: Dev, t: nat) {
    var p := PcOf(d.pc, t);
    InWrite(p) || p.WriteCheck? || p.WriteWait? ==> p.p <= |p.buf| && By(d.log, t) == p.base + p.buf[..p.p]
  }

  /** No lost wake-up: a waiting thread has a full or empty ring and the matching interrupt enabled. */
  ghost predicate WaiterOk(d: Dev, t: nat) {
    && (PcOf(d.pc, t).ReadWait? ==> |d.heard| == d.taken && d.port.ier.dre)
    && (PcOf(d.pc, t).WriteWait? ==> |d.log| - |d.port.sent| == RBUFSZ && d.port.ier.thre)
  }

  ghost predicate ThreadOk(d: Dev, t: nat) {
    var p := PcOf(d.pc, t);
    && WaiterOk(d, t)
    && (t != d.cur ==> CanSwitch(p))
    && (p.ReadCheck? || p.ReadWait? ==> 0 < p.n)
    && WroteOk(d, t)
  }

  ghost predicate OthersOk(d: Dev) {
    forall t :: ThreadOk(d, t)
  }

  /** An enable bit is off only while its ring leaves nothing to do, or its user is about to set it. */
  ghost predicate IerOk(d: Dev) {
    && (!d.port.ier.dre ==> |d.heard| - d.taken == RBUFSZ || InRead(PcOf(d.pc, d.cur)))
    && (!d.port.ier.thre ==> |d.log| == |d.port.sent| || InWrite(PcOf(d.pc, d.cur)))
  }

  ghost predicate DevInv(d: Dev) {
    RingsOk(d) && MidOk(d) && OthersOk(d) && IerOk(d)
  }

  // ---------------------------------------------------------------- every step keeps it

  lemma CharsSnoc(log: seq<(nat, char)>, t: nat, c: char)
    ensures Chars(log + [(t, c)]) == Chars(log) + [c]
  {
  }

  lemma BySnoc(log: seq<(nat, char)>, t: nat, c: char, u: nat)
    ensures By(log + [(t, c)], u) == if u == t then By(log, u) + [c] else By(log, u)
  {
    assert (log + [(t, c)])[..|log|] == log;
    assert By(log, u) + [] == By(log, u);
  }

  /** The counter tests of the code, as tests on the streams. */
  lemma Counts(d: Dev)
    requires RingsOk(d)
    ensures IsEmpty(d.port.rx) <==> |d.heard| == d.taken
    ensures IsFull(d.port.rx) <==> |d.heard| - d.taken == RBUFSZ
    ensures IsEmpty(d.port.tx) <==> |d.log| == |d.port.sent|
    ensures IsFull(d.port.tx) <==> |d.log| - |d.port.sent| == RBUFSZ
    ensures 0 <= |d.heard| - d.taken <= RBUFSZ && 0 <= |d.log| - |d.port.sent| <= RBUFSZ
    ensures IsRing(d.port.rx) && IsRing(d.port.tx)
  {
    Occupancy(d.port.rx, d.heard, d.taken);
    Occupancy(d.port.tx, Chars(d.log), |d.port.sent|);
  }

  /** Steps that touch nothing but the current thread's position. */
  predicate OnlyMoves(p: Pc) {
    p.ReadCheck? || p.ReadLoop? || p.ReadLoadIer? || p.WriteCheck? || p.WriteLoop? || p.WriteLoadIer?
  }

  lemma MoveKeeps(d: Dev)
    requires DevInv(d) && Takes(d, Step) && OnlyMoves(PcOf(d.pc, d.cur))
    ensures DevInv(Does(d, Step))
  {
    Counts(d);
    hide RingOk, IsEmpty, IsFull, IsRing;
    var d' := Does(d, Step);
    assert ThreadOk(d, d.cur);
    forall t ensures ThreadOk(d', t) { assert ThreadOk(d, t); }
  }

  lemma GetKeeps(d: Dev)
    requires DevInv(d) && Takes(d, Step) && PcOf(d.pc, d.cur).ReadGet?
    ensures DevInv(Does(d, Step))
  {
    FetchOk(d.port.rx, d.heard, d.taken);
    hide RingOk, IsRing;
    var d' := Does(d, Step);
    forall t ensures ThreadOk(d', t) { assert ThreadOk(d, t); }
  }

  lemma FetchedKeeps(d: Dev)
    requires DevInv(d) && Takes(d, Step) && PcOf(d.pc, d.cur).ReadFetched?
    ensures DevInv(Does(d, Step))
  {
    PublishGetOk(d.port.rx, d.heard, d.taken);
    Counts(d);
    hide RingOk, IsRing, IsEmpty, IsFull;
    var d' := Does(d, Step);
    forall t ensures ThreadOk(d', t) { assert ThreadOk(d, t); }
    assert d.heard[..d.taken + 1] == d.heard[..d.taken] + [d.heard[d.taken]];
  }

  lemma PutKeeps(d: Dev)
    requires DevInv(d) && Takes(d, Step) && PcOf(d.pc, d.cur).WritePut?
    ensures DevInv(Does(d, Step))
  {
    var p := PcOf(d.pc, d.cur);
    StoreOk(d.port.tx, Chars(d.log), |d.port.sent|, p.buf[p.p]);
    Counts(d);
    hide RingOk, IsEmpty, IsFull, Slot, Store;
    var d' := Does(d, Step);
    forall t ensures ThreadOk(d', t) { assert ThreadOk(d, t); }
  }

  lemma StoredKeeps(d: Dev)
    requires DevInv(d) && Takes(d, Step) && PcOf(d.pc, d.cur).WriteStored?
    ensures DevInv(Does(d, Step))
  {
    var p := PcOf(d.pc, d.cur);
    PublishPutOk(d.port.tx, Chars(d.log), |d.port.sent|, p.buf[p.p]);
    CharsSnoc(d.log, d.cur, p.buf[p.p]);
    Counts(d);
    hide RingOk, IsEmpty, IsFull, Slot, IsRing, Chars;
    var d' := Does(d, Step);
    forall t ensures ThreadOk(d', t) {
      assert ThreadOk(d, t);
      StoredThread(d, t);
    }
    hide ThreadOk, By;
  }

  /** Publishing a byte is one more of the current thread's, and changes no other thread. */
  lemma StoredThread(d: Dev, t: nat)
    requires ThreadOk(d, t) && Takes(d, Step) && PcOf(d.pc, d.cur).WriteStored? && MidOk(d)
    ensures ThreadOk(Does(d, Step), t)
  {
    var p := PcOf(d.pc, d.cur);
    StoredWrote(d, t);
    hide WroteOk, PublishPut, Slot;
  }

  lemma StoredWrote(d: Dev, t: nat)
    requires WroteOk(d, t) && Takes(d, Step) && PcOf(d.pc, d.cur).WriteStored?
    ensures WroteOk(Does(d, Step), t)
  {
    var p := PcOf(d.pc, d.cur);
    BySnoc(d.log, d.cur, p.buf[p.p], t);
    if t == d.cur {
      var done := p.buf[..p.p + 1];
      assert done == p.buf[..p.p] + [p.buf[p.p]];
      assert p.base + p.buf[..p.p] + [p.buf[p.p]] == p.base + done;
    }
    hide By, PublishPut, IsRing;
  }

  lemma StoreIerKeeps(d: Dev)
    requires DevInv(d) && Takes(d, Step) && (PcOf(d.pc, d.cur).ReadStoreIer? || PcOf(d.pc, d.cur).WriteStoreIer?)
    ensures DevInv(Does(d, Step))
  {
    hide RingOk, IsEmpty, IsFull, Slot, IsRing;
    var d' := Does(d, Step);
    forall t ensures ThreadOk(d', t) { assert ThreadOk(d, t); }
  }

  lemma StepKeeps(d: Dev)
    requires DevInv(d) && Takes(d, Step)
    ensures DevInv(Does(d, Step))
  {
    hide DevInv;
    var p := PcOf(d.pc, d.cur);
    if OnlyMoves(p) { MoveKeeps(d); }
    else if p.ReadGet? { GetKeeps(d); }
    else if p.ReadFetched? { FetchedKeeps(d); }
    else if p.WritePut? { PutKeeps(d); }
    else if p.WriteStored? { StoredKeeps(d); }
    else { StoreIerKeeps(d); }
  }

  lemma CallKeeps(d: Dev, a: Act)
    requires DevInv(d) && Takes(d, a) && (a.Go? || a.Read? || a.Write?)
    ensures DevInv(Does(d, a))
  {
    hide RingOk, IsEmpty, IsFull, Slot, IsRing;
    var d' := Does(d, a);
    assert ThreadOk(d, d.cur) && (a.Go? ==> ThreadOk(d, a.t));
    forall t ensures ThreadOk(d', t) { assert ThreadOk(d, t); }
    assert By(d.log, d.cur) + [] == By(d.log, d.cur);
  }

  // ---------------------------------------------------------------- the interrupt keeps it

  /** The device after the receive half, its waiters woken if the routine says so. */
  function AfterRx(d: Dev, c: char): Dev
    requires IsRing(d.port.rx)
  {
    var port := RxStep(d.port.(wake := Wake(false, false)), c);
    d.(port := port, heard := if !IsFull(d.port.rx) then d.heard + [c] else d.heard, pc := WokenPcs(d.pc, port.wake))
  }

  function AfterTx(d: Dev): Dev
    requires IsRing(d.port.tx)
  {
    var port := TxStep(d.port.(wake := Wake(false, false)));
    d.(port := port, pc := WokenPcs(d.pc, port.wake))
  }

  lemma RxKeeps(d: Dev, c: char)
    requires DevInv(d)
    ensures IsRing(d.port.rx) && DevInv(AfterRx(d, c))
  {
    Counts(d);
    RxRings(d, c);
    RxPlaces(d, c);
    hide AfterRx, RingsOk, MidOk, IerOk;
    forall t ensures ThreadOk(AfterRx(d, c), t) {
      assert ThreadOk(d, t);
      RxThread(d, c, t);
    }
    hide ThreadOk;
  }

  lemma RxRings(d: Dev, c: char)
    requires RingsOk(d)
    ensures IsRing(d.port.rx) && RingsOk(AfterRx(d, c))
  {
    Counts(d);
    if !IsFull(d.port.rx) {
      StoreOk(d.port.rx, d.heard, d.taken, c);
      PublishPutOk(Store(d.port.rx, c), d.heard, d.taken, c);
    }
    hide RingOk, IsEmpty, IsFull, IsRing, Store, PublishPut;
  }

  /** The current thread is where it was, or woken, with all it had taken still in the stream. */
  lemma RxPlaces(d: Dev, c: char)
    requires RingsOk(d) && MidOk(d) && IerOk(d)
    ensures IsRing(d.port.rx) && MidOk(AfterRx(d, c)) && IerOk(AfterRx(d, c))
  {
    Counts(d);
    hide RingsOk, IsEmpty, IsFull, IsRing, Slot, Store, PublishPut;
    var d' := AfterRx(d, c);
    assert PcOf(d'.pc, d.cur) == WokenPc(PcOf(d.pc, d.cur), d'.port.wake);
    assert forall from: nat :: from <= d.taken <= |d.heard| ==> d'.heard[from..d.taken] == d.heard[from..d.taken];
  }

  lemma RxThread(d: Dev, c: char, t: nat)
    requires RingsOk(d) && ThreadOk(d, t) && IerOk(d)
    ensures IsRing(d.port.rx) && ThreadOk(AfterRx(d, c), t)
  {
    Counts(d);
    hide RingOk, IsEmpty, IsFull, Slot, Store, PublishPut, By;
  }

  lemma TxKeeps(d: Dev)
    requires DevInv(d)
    ensures IsRing(d.port.tx) && DevInv(AfterTx(d))
  {
    Counts(d);
    var d' := AfterTx(d);
    if !IsEmpty(d.port.tx) {
      FetchOk(d.port.tx, Chars(d.log), |d.port.sent|);
      PublishGetOk(d.port.tx, Chars(d.log), |d.port.sent|);
      assert Chars(d.log)[..|d.port.sent| + 1] == Chars(d.log)[..|d.port.sent|] + [Chars(d.log)[|d.port.sent|]];
    }
    hide RingOk, IsEmpty, IsFull, IsRing, Fetch;
    forall t ensures ThreadOk(d', t) { assert ThreadOk(d, t); }
    assert PcOf(d'.pc, d.cur) == WokenPc(PcOf(d.pc, d.cur), d'.port.wake);
  }

  /** The routine is its two halves one after the other. */
  lemma IsrHalves(d: Dev, dr: bool, c: char, thre: bool)
    requires Takes(d, Isr(dr, c, thre))
    ensures var d1 := if dr then AfterRx(d, c) else d;
      && IsRing(d1.port.tx)
      && var d2, d' := if thre then AfterTx(d1) else d1, Does(d, Isr(dr, c, thre));
         d' == d2.(port := d2.port.(wake := d'.port.wake))
  {
    var d1 := if dr then AfterRx(d, c) else d;
    var d2, d' := if thre then AfterTx(d1) else d1, Does(d, Isr(dr, c, thre));
    hide IsEmpty, IsFull, Store, PublishPut, PublishGet, Fetch;
    assert d'.pc == d2.pc;
  }

  lemma WakeIrrelevant(d: Dev, w: Wake)
    requires DevInv(d)
    ensures DevInv(d.(port := d.port.(wake := w)))
  {
    hide RingOk, Slot;
    var d' := d.(port := d.port.(wake := w));
    forall t ensures ThreadOk(d', t) { assert ThreadOk(d, t); }
  }

  lemma IsrKeeps(d: Dev, dr: bool, c: char, thre: bool)
    requires DevInv(d) && Takes(d, Isr(dr, c, thre))
    ensures DevInv(Does(d, Isr(dr, c, thre)))
  {
    hide DevInv;
    IsrHalves(d, dr, c, thre);
    var d1 := if dr then AfterRx(d, c) else d;
    if dr { RxKeeps(d, c); }
    var d2 := if thre then AfterTx(d1) else d1;
    if thre { TxKeeps(d1); }
    WakeIrrelevant(d2, Does(d, Isr(dr, c, thre)).port.wake);
  }

  lemma ActKeeps(d: Dev, a: Act)
    requires DevInv(d) && Takes(d, a)
    ensures DevInv(Does(d, a))
  {
    hide DevInv;
    match a
    case Isr(dr, c, thre) => IsrKeeps(d, dr, c, thre);
    case Step => StepKeeps(d);
    case _ => CallKeeps(d, a);
  }

  // ---------------------------------------------------------------- what readers were given

  /** The bytes a read in progress has taken and not yet returned. */
  function InHand(p: Pc): seq<char> { if InRead(p) then p.out else [] }

  /** Reads, returned or in progress, tile the stream: nothing is lost or repeated between them. */
  ghost predicate GivenOk(d: Dev) {
    d.taken <= |d.heard| && d.given + InHand(PcOf(d.pc, d.cur)) == d.heard[..d.taken]
  }

  lemma GivenStep(d: Dev)
    requires DevInv(d) && GivenOk(d) && Takes(d, Step)
    ensures GivenOk(Does(d, Step))
  {
    Counts(d);
    hide RingOk, IsRing, IsEmpty, IsFull, Slot, OthersOk, IerOk;
    var p := PcOf(d.pc, d.cur);
    if p.ReadFetched? {
      assert d.heard[..d.taken + 1] == d.heard[..d.taken] + [d.heard[d.taken]];
      assert d.given + (p.out + [p.c]) == (d.given + p.out) + [p.c];
    } else if p.ReadStoreIer? {
      assert (d.given + p.out) + [] == d.given + p.out;
    }
  }

  /** A thread switched from or to is in no read's loop. */
  lemma GivenCall(d: Dev, a: Act)
    requires DevInv(d) && GivenOk(d) && Takes(d, a) && (a.Go? || a.Read? || a.Write?)
    ensures GivenOk(Does(d, a))
  {
    hide RingOk, IsRing, IsEmpty, IsFull, Slot, MidOk, IerOk;
    assert a.Go? ==> ThreadOk(d, a.t);
  }

  lemma GivenIsr(d: Dev, dr: bool, c: char, thre: bool)
    requires DevInv(d) && GivenOk(d) && Takes(d, Isr(dr, c, thre))
    ensures GivenOk(Does(d, Isr(dr, c, thre)))
  {
    hide DevInv, IsFull, IsEmpty, IsRing, IsrStep;
    var d' := Does(d, Isr(dr, c, thre));
    assert d'.heard[..d.taken] == d.heard[..d.taken];
    assert PcOf(d'.pc, d.cur) == WokenPc(PcOf(d.pc, d.cur), d'.port.wake);
  }

  lemma GivenKeeps(d: Dev, a: Act)
    requires DevInv(d) && GivenOk(d) && Takes(d, a)
    ensures GivenOk(Does(d, a))
  {
    hide DevInv, GivenOk;
    match a
    case Isr(dr, c, thre) => GivenIsr(d, dr, c, thre);
    case Step => GivenStep(d);
    case _ => GivenCall(d, a);
  }

  // ---------------------------------------------------------------- whole runs

  ghost predicate DevRun(d: Dev, acts: seq<Act>)
    decreases |acts|
  {
    acts != [] ==> Takes(d, acts[0]) && DevRun(Does(d, acts[0]), acts[1..])
  }

  ghost function DevAfter(d: Dev, acts: seq<Act>): Dev
    requires DevRun(d, acts)
    decreases |acts|
  {
    if acts == [] then d else DevAfter(Does(d, acts[0]), acts[1..])
  }

  lemma {:induction false} DevRunKeeps(d: Dev, acts: seq<Act>)
    requires DevInv(d) && DevRun(d, acts)
    ensures DevInv(DevAfter(d, acts)) && (GivenOk(d) ==> GivenOk(DevAfter(d, acts)))
    decreases |acts|
  {
    hide DevInv, GivenOk, Takes, Does;
    if acts != [] {
      ActKeeps(d, acts[0]);
      if GivenOk(d) { GivenKeeps(d, acts[0]); }
      DevRunKeeps(Does(d, acts[0]), acts[1..]);
    }
  }

  lemma DevReachable(data: seq<char>, acts: seq<Act>)
    requires |data| == RBUFSZ && DevRun(Opened(data), acts)
    ensures DevInv(DevAfter(Opened(data), acts)) && GivenOk(DevAfter(Opened(data), acts))
  {
    hide DevRun, DevAfter;
    var d := Opened(data);
    assert forall t :: By(d.log, t) == [];
    assert DevInv(d);
    DevRunKeeps(d, acts);
  }

  /**
   What went out on the line is a prefix of what writers put in, and what reads returned, followed by
   what a read in progress has in hand, is exactly the part of the received stream taken out, so a
   prefix of it. Occupancy stays within the rings.
   */
  lemma InOrder(data: seq<char>, acts: seq<Act>)
    requires |data| == RBUFSZ && DevRun(Opened(data), acts)
    ensures var d := DevAfter(Opened(data), acts);
      && d.port.sent <= Chars(d.log) && |d.log| - |d.port.sent| <= RBUFSZ
      && d.taken <= |d.heard| <= d.taken + RBUFSZ
      && d.given + InHand(PcOf(d.pc, d.cur)) == d.heard[..d.taken] && d.given <= d.heard
      && (IsFull(d.port.tx) <==> |d.log| - |d.port.sent| == RBUFSZ) && (IsEmpty(d.port.rx) <==> |d.heard| == d.taken)
  {
    hide DevRun, DevAfter, RingOk, IsFull, IsEmpty;
    DevReachable(data, acts);
    var d := DevAfter(Opened(data), acts);
    Counts(d);
    hide MidOk, OthersOk, IerOk;
    assert d.given == (d.given + InHand(PcOf(d.pc, d.cur)))[..|d.given|];
  }

  /** A uart_read about to return has the next unread bytes, at least one and at most as many as asked for. */
  lemma ReadsInOrder(data: seq<char>, acts: seq<Act>)
    requires |data| == RBUFSZ && DevRun(Opened(data), acts)
    requires var d := DevAfter(Opened(data), acts); PcOf(d.pc, d.cur).ReadStoreIer?
    ensures var d := DevAfter(Opened(data), acts); var p := PcOf(d.pc, d.cur);
      0 < |p.out| <= p.n && p.from + |p.out| == d.taken <= |d.heard| && p.out == d.heard[p.from..d.taken]
  {
    DevReachable(data, acts);
  }

  /**
   The tests of the loops, on the streams: a reader waits exactly if nothing is left to take, and stops
   taking exactly if it has all it asked for or nothing is left; a writer waits exactly if the ring
   holds 64 bytes not yet sent, and stops putting in exactly if its buffer is through or the ring is full.
   */
  lemma LoopsExact(data: seq<char>, acts: seq<Act>)
    requires |data| == RBUFSZ && DevRun(Opened(data), acts) && Takes(DevAfter(Opened(data), acts), Step)
    ensures var d := DevAfter(Opened(data), acts); var p' := PcOf(Does(d, Step).pc, d.cur);
      match PcOf(d.pc, d.cur)
      case ReadCheck(n) => p' == if |d.heard| == d.taken then ReadWait(n) else ReadLoop(n, d.taken, [])
      case ReadLoop(n, from, out) =>
        p' == if |out| == n || |d.heard| == d.taken then ReadLoadIer(n, from, out) else ReadGet(n, from, out)
      case WriteCheck(buf, i, base) => p' == if |d.log| - |d.port.sent| == RBUFSZ then WriteWait(buf, i, base) else WriteLoop(buf, i, base)
      case WriteLoop(buf, i, base) =>
        p' == if i == |buf| || |d.log| - |d.port.sent| == RBUFSZ then WriteLoadIer(buf, i, base) else WritePut(buf, i, base)
      case WriteStoreIer(buf, i, base, _) => p' == if i == |buf| then Away else WriteCheck(buf, i, base)
      case _ => true
  {
    DevReachable(data, acts);
    var d := DevAfter(Opened(data), acts);
    Counts(d);
    assert ThreadOk(d, d.cur);
    hide DevRun, DevAfter, RingsOk, IsEmpty, IsFull;
  }

  /** A uart_write about to return has put in its whole buffer, in order, after all it wrote before. */
  lemma WritesInOrder(data: seq<char>, acts: seq<Act>)
    requires |data| == RBUFSZ && DevRun(Opened(data), acts)
    requires var d := DevAfter(Opened(data), acts); var p := PcOf(d.pc, d.cur); p.WriteStoreIer? && p.p >= |p.buf|
    ensures var d := DevAfter(Opened(data), acts); var p := PcOf(d.pc, d.cur); By(d.log, d.cur) == p.base + p.buf
  {
    DevReachable(data, acts);
    var d := DevAfter(Opened(data), acts);
    assert ThreadOk(d, d.cur);
    var p := PcOf(d.pc, d.cur);
    assert p.buf[..p.p] == p.buf;
  }

  /**
   No lost wake-up, although the enable register is read, modified and written with interrupts on:
   a blocked writer has a full ring and transmit interrupts enabled, a blocked reader an empty ring
   and receive interrupts enabled.
   */
  lemma NoLostWakeup(data: seq<char>, acts: seq<Act>, t: nat)
    requires |data| == RBUFSZ && DevRun(Opened(data), acts)
    ensures var d := DevAfter(Opened(data), acts);
      && (PcOf(d.pc, t).WriteWait? ==> IsFull(d.port.tx) && d.port.ier.thre)
      && (PcOf(d.pc, t).ReadWait? ==> IsEmpty(d.port.rx) && d.port.ier.dre)
  {
    DevReachable(data, acts);
    var d := DevAfter(Opened(data), acts);
    Counts(d);
    assert ThreadOk(d, t);
  }

  /** The very next interrupt of the matching kind wakes the blocked thread. */
  lemma NextInterruptWakes(data: seq<char>, acts: seq<Act>, t: nat, dr: bool, c: char, thre: bool)
    requires |data| == RBUFSZ && DevRun(Opened(data), acts) && Takes(DevAfter(Opened(data), acts), Isr(dr, c, thre))
    ensures var d := DevAfter(Opened(data), acts); var p := PcOf(Does(d, Isr(dr, c, thre)).pc, t);
      && (PcOf(d.pc, t).WriteWait? && thre ==> p.WriteCheck?)
      && (PcOf(d.pc, t).ReadWait? && dr ==> p.ReadCheck?)
  {
    NoLostWakeup(data, acts, t);
    DevReachable(data, acts);
    hide DevRun, DevAfter, DevInv;
    var d := DevAfter(Opened(data), acts);
    assert IsFull(d.port.tx) ==> !IsEmpty(d.port.tx);
    assert IsEmpty(d.port.rx) ==> !IsFull(d.port.rx);
  }

  // ---------------------------------------------------------------- the enable bits

  /** A writer's store to the enable register, and a reader's. */
  predicate WriterStores(d: Dev, a: Act) { a == Step && PcOf(d.pc, d.cur).WriteStoreIer? }

  predicate ReaderStores(d: Dev, a: Act) { a == Step && PcOf(d.pc, d.cur).ReadStoreIer? }

  /** The current thread loaded the register with the bit on, and has not stored it back yet. */
  predicate StaleThre(d: Dev) { var p := PcOf(d.pc, d.cur); p.ReadStoreIer? && p.v.thre }

  predicate StaleDre(d: Dev) { var p := PcOf(d.pc, d.cur); p.WriteStoreIer? && p.v.dre }

  /**
   Each enable bit after any step of any run: the routine turns it off exactly if its interrupt found
   nothing to do, its own user turns it on, the other kind of user stores back what it loaded, and
   nothing else changes it.
   */
  lemma EnableBitsExact(data: seq<char>, acts: seq<Act>, a: Act)
    requires |data| == RBUFSZ && DevRun(Opened(data), acts) && Takes(DevAfter(Opened(data), acts), a)
    ensures var d := DevAfter(Opened(data), acts); var ier, ier' := d.port.ier, Does(d, a).port.ier;
      && ier'.thre == (if WriterStores(d, a) then true else if ReaderStores(d, a) then StaleThre(d)
                       else ier.thre && !(a.Isr? && a.thre && |d.log| == |d.port.sent|))
      && ier'.dre == (if ReaderStores(d, a) then true else if WriterStores(d, a) then StaleDre(d)
                      else ier.dre && !(a.Isr? && a.dr && |d.heard| - d.taken == RBUFSZ))
  {
    hide DevRun, DevAfter;
    DevReachable(data, acts);
    EnableBits(DevAfter(Opened(data), acts), a);
  }

  lemma EnableBits(d: Dev, a: Act)
    requires DevInv(d) && Takes(d, a)
    ensures var ier, ier' := d.port.ier, Does(d, a).port.ier;
      && ier'.thre == (if WriterStores(d, a) then true else if ReaderStores(d, a) then StaleThre(d)
                       else ier.thre && !(a.Isr? && a.thre && |d.log| == |d.port.sent|))
      && ier'.dre == (if ReaderStores(d, a) then true else if WriterStores(d, a) then StaleDre(d)
                      else ier.dre && !(a.Isr? && a.dr && |d.heard| - d.taken == RBUFSZ))
  {
    Counts(d);
    if a.Isr? { IsrBits(d.port, a.dr, a.c, a.thre); }
    hide DevInv, IsEmpty, IsFull, IsRing, IsrStep, Store, PublishPut, PublishGet, Fetch;
  }

  ghost predicate NoStore(d: Dev, acts: seq<Act>, byWriter: bool)
    requires DevRun(d, acts)
    decreases |acts|
  {
    acts != [] ==>
      && !(if byWriter then WriterStores(d, acts[0]) else ReaderStores(d, acts[0]))
      && NoStore(Does(d, acts[0]), acts[1..], byWriter)
  }

  /** Off, and nobody holds an old copy of the register with the bit on. */
  predicate ThreOff(d: Dev) { !d.port.ier.thre && !StaleThre(d) }

  predicate DreOff(d: Dev) { !d.port.ier.dre && !StaleDre(d) }

  /** A copy loaded after the bit went off has it off, and only the current thread holds a copy. */
  lemma OffStep(d: Dev, a: Act)
    requires DevInv(d) && Takes(d, a)
    ensures ThreOff(d) && !WriterStores(d, a) ==> ThreOff(Does(d, a))
    ensures DreOff(d) && !ReaderStores(d, a) ==> DreOff(Does(d, a))
  {
    EnableBits(d, a);
    assert a.Go? ==> ThreadOk(d, a.t);
    hide RingOk, MidOk, IsEmpty, IsFull, IsRing, IsrStep, Store, PublishPut, PublishGet, Fetch, ThreadOk, OthersOk, IerOk;
    if a.Isr? {
      var d' := Does(d, a);
      assert PcOf(d'.pc, d.cur) == WokenPc(PcOf(d.pc, d.cur), d'.port.wake);
    } else if a.Go? {
      SwitchedTo(d, a.t);
    }
  }

  lemma SwitchedTo(d: Dev, t: nat)
    requires ThreadOk(d, t)
    ensures t == d.cur || CanSwitch(PcOf(d.pc, t))
  {
  }

  lemma {:induction false} OffRun(d: Dev, acts: seq<Act>)
    requires DevInv(d) && DevRun(d, acts)
    ensures ThreOff(d) && NoStore(d, acts, true) ==> ThreOff(DevAfter(d, acts))
    ensures DreOff(d) && NoStore(d, acts, false) ==> DreOff(DevAfter(d, acts))
    decreases |acts|
  {
    hide DevInv, Takes, Does, ThreOff, DreOff, WriterStores, ReaderStores;
    if acts != [] {
      ActKeeps(d, acts[0]);
      OffStep(d, acts[0]);
      OffRun(Does(d, acts[0]), acts[1..]);
    }
  }

  /**
   After a handler run that found the transmitter ready and nothing to send, transmit interrupts stay
   off until a writer stores to the register, whatever else happens, unless the interrupted thread is a
   reader that had loaded the register with the bit on (EnableBitsExact says that its store turns it
   on again). The same for receive interrupts and a full receive ring, with the roles exchanged.
   */
  lemma TurnedOffStaysOff(data: seq<char>, acts: seq<Act>, dr: bool, c: char, thre: bool, more: seq<Act>)
    requires |data| == RBUFSZ && DevRun(Opened(data), acts) && Takes(DevAfter(Opened(data), acts), Isr(dr, c, thre))
    requires DevRun(Does(DevAfter(Opened(data), acts), Isr(dr, c, thre)), more)
    ensures var d := DevAfter(Opened(data), acts); var d1 := Does(d, Isr(dr, c, thre));
      && (thre && |d.log| == |d.port.sent| && !StaleThre(d) && NoStore(d1, more, true) ==> !DevAfter(d1, more).port.ier.thre)
      && (dr && |d.heard| - d.taken == RBUFSZ && !StaleDre(d) && NoStore(d1, more, false) ==> !DevAfter(d1, more).port.ier.dre)
  {
    hide DevRun, DevAfter, NoStore, DevInv;
    DevReachable(data, acts);
    var d := DevAfter(Opened(data), acts);
    var d1 := Does(d, Isr(dr, c, thre));
    ActKeeps(d, Isr(dr, c, thre));
    EnableBits(d, Isr(dr, c, thre));
    OffRun(d1, more);
    hide IsrStep, IsEmpty, IsFull, IsRing;
    assert PcOf(d1.pc, d.cur) == WokenPc(PcOf(d.pc, d.cur), d1.port.wake);
  }

  // ---------------------------------------------------------------- no run gets stuck

  /**
   In every run a thread in the driver that is not waiting can take its next step, one outside can
   call, one that waits or is outside can be switched from, and the interrupt can always come.
   */
  lemma DriverNeverStuck(data: seq<char>, acts: seq<Act>)
    requires |data| == RBUFSZ && DevRun(Opened(data), acts)
    ensures var d := DevAfter(Opened(data), acts); var p := PcOf(d.pc, d.cur);
      && (p != Away && !Waits(p) ==> Takes(d, Step))
      && (p == Away ==> (forall n: nat :: 0 < n ==> Takes(d, Read(n))) && forall buf :: buf != [] ==> Takes(d, Write(buf)))
      && (p == Away || Waits(p) ==> forall t: nat :: !Waits(PcOf(d.pc, t)) ==> Takes(d, Go(t)))
      && (forall dr, c, thre :: Takes(d, Isr(dr, c, thre)))
  {
    DevReachable(data, acts);
    var d := DevAfter(Opened(data), acts);
    Counts(d);
    hide DevRun, DevAfter, RingsOk, IsRing, OthersOk, IerOk;
  }
}
