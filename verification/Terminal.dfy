/**
 ioterm_read and ioterm_write (src/kern/io.c:545-718): the optimised, chunked
 implementations, proved to run the two transducers of module Crlf.
 */
module Terminal {
  import opened Crlf

  const EIO := 5

  /**
   What a call that wrote to the device may answer: a negative result is the code of the one device
   write of this call that failed, or -EIO for a single character the device did not accept; with any
   other result no device write failed. before and after are the device's refusals.
   */
  ghost predicate Answered(before: seq<int>, after: seq<int>, r: int) {
    var n, m := |before|, |after|;
    && n <= m && before == after[..n]
    && (r >= 0 ==> forall k :: n <= k < m ==> after[k] == 0)
    && (r < 0 ==> n < m && (forall k :: n <= k < m - 1 ==> after[k] == 0) && (after[m - 1] == r || (after[m - 1] == 0 && r == -EIO)))
  }

  lemma AnsweredMore(a: seq<int>, b: seq<int>, c: seq<int>, r: int, r': int)
    requires Answered(a, b, r) && r >= 0 && Answered(b, c, r')
    ensures Answered(a, c, r') && (c == a ==> b == a) && (|c| <= |a| + 1 && r' < 0 ==> b == a)
  {
    assert c[..|a|] == b[..|a|];
    assert forall k :: |a| <= k < |b| ==> c[k] == b[k];
  }

  /** The outcome of writing all of out, of which the last byte does not count. */
  ghost predicate Flushed(w: string, ref: seq<int>, out: string, w': string, ref': seq<int>, r: int, stop: bool) {
    && Answered(ref, ref', r) && r < |out| && (stop ==> ref' != ref) && w <= w'
    && (ref' == ref ==> r == |out| - 1 && !stop && w' == w + out)
    && (r < 0 && |ref'| == |ref| + 1 ==> w' <= w + out)
  }

  /**
   The raw device under the terminal. A write accepts any number of bytes up to the number offered,
   or fails with a negative code; a read delivers any number from one up to the number asked for, or
   fails.
   */
  class RawIo {
    var written: string   // every byte accepted so far
    var incoming: string  // bytes the device has still to deliver
    var readCalls: nat    // number of read calls made
    ghost var refusals: seq<int>    // results of the writes that accepted nothing: 0 or a negative code
    ghost var readErrors: seq<int>  // results of the reads that failed

    constructor (incoming: string)
      ensures written == [] && this.incoming == incoming && readCalls == 0 && refusals == [] && readErrors == []
    {
      written, this.incoming, readCalls, refusals, readErrors := [], incoming, 0, [], [];
    }

    method Write(buf: string) returns (cnt: int)
      modifies this`written, this`refusals
      ensures cnt <= |buf|
      ensures written == old(written) + if cnt < 0 then [] else buf[..cnt]
      ensures refusals == old(refusals) + if cnt <= 0 then [cnt] else []
    {
      cnt :| -16 < cnt <= |buf|;
      if 0 < cnt {
        written := written + buf[..cnt];
      } else {
        refusals := refusals + [cnt];
      }
    }

    /** Zero when there is no room or nothing left to deliver; a device that waits then waits for ever. */
    method Read(buf: array<char>) returns (cnt: int)
      modifies this`incoming, this`readCalls, this`readErrors, buf
      ensures readErrors == old(readErrors) + if cnt < 0 then [cnt] else []
      ensures cnt <= buf.Length && cnt <= |old(incoming)|
      ensures cnt == 0 <==> cnt >= 0 && (buf.Length == 0 || old(incoming) == [])
      ensures 0 <= cnt ==> old(incoming) == buf[..cnt] + incoming
      ensures cnt < 0 ==> incoming == old(incoming)
      ensures readCalls == old(readCalls) + 1
    {
      readCalls := readCalls + 1;
      if buf.Length == 0 || incoming == [] {
        cnt :| -16 < cnt <= 0;
        readErrors := readErrors + if cnt < 0 then [cnt] else [];
        return;
      }
      cnt :| -16 < cnt <= buf.Length && cnt <= |incoming| && cnt != 0;
      readErrors := readErrors + if cnt < 0 then [cnt] else [];
      if 0 < cnt {
        for i := 0 to cnt
          invariant incoming == old(incoming) && readCalls == old(readCalls) + 1 && readErrors == old(readErrors)
          invariant forall k :: 0 <= k < i ==> buf[k] == incoming[k]
        {
          buf[i] := incoming[i];
        }
        assert buf[..cnt] == incoming[..cnt];
        incoming := incoming[cnt..];
      }
    }

    /**
     iowrite, src/kern/io.c:77-93: repeats short writes until everything is accepted or the device
     accepts nothing. The count is what was accepted; all of it exactly if no write was refused.
     */
    method WriteAll(buf: string) returns (r: int)
      modifies this`written, this`refusals
      ensures refusals == old(refusals) + if r < 0 then [r] else if r < |buf| then [0] else []
      ensures r <= |buf| && (0 <= r ==> written == old(written) + buf[..r])
      ensures old(written) <= written <= old(written) + buf && (r < |buf| ==> written != old(written) + buf)
    {
      var acc := 0;
      while acc < |buf|
        invariant 0 <= acc <= |buf| && written == old(written) + buf[..acc] && refusals == old(refusals)
      {
        var cnt := Write(buf[acc..]);
        if cnt < 0 {
          return cnt;
        } else if cnt == 0 {
          return acc;
        }
        assert buf[..acc] + buf[acc..][..cnt] == buf[..acc + cnt];
        acc := acc + cnt;
      }
      return acc;
    }

    /** ioputc, src/kern/io.h:243-255. */
    method PutChar(c: char) returns (r: int)
      modifies this`written, this`refusals
      ensures Answered(old(refusals), refusals, r) && (0 <= r ==> refusals == old(refusals)) && |refusals| <= |old(refusals)| + 1
      ensures written == old(written) + if 0 <= r then [c] else []
    {
      var wlen := WriteAll([c]);
      if wlen < 0 {
        return wlen;
      } else if wlen == 0 {
        return -EIO;
      }
      return c as int;
    }

    /**
     Writes out what is pending, then one more byte that does not count (src/kern/io.c:648-660, 682-694);
     stop when the device has accepted nothing of what was pending.
     */
    method FlushThen(pending: string, extra: char) returns (r: int, stop: bool)
      modifies this`written, this`refusals
      ensures Flushed(old(written), old(refusals), pending + [extra], written, refusals, r, stop)
    {
      r, stop := 0, false;
      if pending != [] {
        r := WriteAll(pending);
        if r <= 0 { return r, true; }
      }
      assert r == |pending| ==> pending[..r] == pending;
      ghost var between := refusals;
      assert Answered(old(refusals), between, r);
      var cnt := PutChar(extra);
      AnsweredMore(old(refusals), between, refusals, r, cnt);
      if cnt < 0 { return cnt, false; }
    }
  }

  class IoTerm {
    const raw: RawIo
    var crOut: bool
    var crIn: bool

    /** ioterm_init, src/kern/io.c:419-433. */
    constructor (raw: RawIo)
      ensures this.raw == raw && !crOut && !crIn
    {
      this.raw, crOut, crIn := raw, false, false;
    }

    /**
     Whatever the raw device accepts per call, as long as it accepts something, exactly the
     transducer's output reaches it. The count returned falls one short precisely when the call
     opens with an LF that completes the CR of an earlier call. When a device write fails, the result
     is its code and the device has a prefix of that output.
     */
    method Write(buf: string) returns (r: int)
      modifies this`crOut, raw`written, raw`refusals
      ensures Sent(buf, old(crOut), old(raw.written), old(raw.refusals), raw.written, raw.refusals, crOut, r)
    {
      hide InLoop, Sent, Flushed;
      ghost var cr0, w0, ref0 := crOut, raw.written, raw.refusals;
      LoopStarts(buf, cr0, w0, ref0);
      var acc, wp, rp := 0, 0, 0;
      while rp < |buf|
        invariant 0 <= wp <= rp <= |buf|
        invariant InLoop(buf, cr0, w0, ref0, raw.written, raw.refusals, crOut, wp, rp, acc)
      {
        ghost var w, ref := raw.written, raw.refusals;
        var ch := buf[rp];
        rp := rp + 1;
        if ch == CR {
          if rp < |buf| && buf[rp] == LF {
            Unflushed(buf, cr0, w0, ref0, w, ref, crOut, wp, rp - 1, acc);
            crOut := false;
            rp := rp + 1;
          } else {
            var cnt, stop := raw.FlushThen(buf[wp..rp], LF);
            LoneCrFlushed(buf, cr0, w0, ref0, w, ref, crOut, wp, rp - 1, acc, raw.written, raw.refusals, cnt, stop);
            if cnt < 0 { return cnt; }
            if stop { return acc; }
            acc, wp, crOut := acc + cnt, wp + cnt, true;
          }
        } else if ch == LF {
          if crOut {
            Unflushed(buf, cr0, w0, ref0, w, ref, crOut, wp, rp - 1, acc);
            wp, crOut := wp + 1, false;
          } else {
            var cnt, stop := raw.FlushThen(buf[wp..rp - 1], CR);
            LfFlushed(buf, cr0, w0, ref0, w, ref, crOut, wp, rp - 1, acc, raw.written, raw.refusals, cnt, stop);
            if cnt < 0 { return cnt; }
            if stop { return acc; }
            acc, wp, crOut := acc + cnt, wp + cnt, false;
          }
        } else {
          Unflushed(buf, cr0, w0, ref0, w, ref, crOut, wp, rp - 1, acc);
          crOut := false;
        }
      }
      ghost var w, ref := raw.written, raw.refusals;
      if rp != wp {
        var cnt := raw.WriteAll(buf[wp..rp]);
        LoopEnds(buf, cr0, w0, ref0, w, ref, crOut, wp, acc, raw.written, raw.refusals, cnt);
        if cnt < 0 { return cnt; }
        if cnt == 0 { return acc; }
        acc := acc + cnt;
      } else {
        LoopEnds(buf, cr0, w0, ref0, w, ref, crOut, wp, acc, w, ref, 0);
      }
      return acc;
    }

    /** What a call has done: ref0 and w0 are the device's records before it, ref and w those after it. */
    static ghost predicate Sent(buf: string, cr0: bool, w0: string, ref0: seq<int>, w: string, ref: seq<int>, cr: bool, r: int) {
      && Answered(ref0, ref, r) && w0 <= w
      && (ref == ref0 ==>
            && w == w0 + Emit(OutRules, cr0, buf) && cr == State(OutRules, cr0, buf)
            && r == |buf| - if cr0 && buf != [] && buf[0] == LF then 1 else 0)
      && (r < 0 && |ref| == |ref0| + 1 ==> w <= w0 + Emit(OutRules, cr0, buf))
    }

    /** Nothing is known about the output once the device has accepted nothing, or not all, of a write. */
    static ghost predicate InLoop(buf: string, cr0: bool, w0: string, ref0: seq<int>, w: string, ref: seq<int>, cr: bool, wp: int, rp: int, acc: int)
      requires 0 <= wp <= rp <= |buf|
    {
      && 0 <= acc && w0 <= w && Answered(ref0, ref, 0)
      && (ref == ref0 ==> Progress(buf, cr0, w0, w, cr, wp, rp) && acc == wp - if cr0 && 0 < rp && buf[0] == LF then 1 else 0)
    }

    static lemma LoopStarts(buf: string, cr0: bool, w0: string, ref0: seq<int>)
      ensures InLoop(buf, cr0, w0, ref0, w0, ref0, cr0, 0, 0, 0)
    {
      AtStart(buf, cr0, w0);
    }

    /** The steps that write nothing out: a CR LF pair, the LF after an earlier CR, any other character. */
    static lemma Unflushed(buf: string, cr0: bool, w0: string, ref0: seq<int>, w: string, ref: seq<int>, cr: bool, wp: int, rp: int, acc: int)
      requires 0 <= wp <= rp < |buf| && InLoop(buf, cr0, w0, ref0, w, ref, cr, wp, rp, acc)
      ensures buf[rp] == CR && rp + 1 < |buf| && buf[rp + 1] == LF ==> InLoop(buf, cr0, w0, ref0, w, ref, false, wp, rp + 2, acc)
      ensures buf[rp] == LF && cr ==> InLoop(buf, cr0, w0, ref0, w, ref, false, wp + 1, rp + 1, acc)
      ensures buf[rp] != CR && buf[rp] != LF ==> InLoop(buf, cr0, w0, ref0, w, ref, false, wp, rp + 1, acc)
    {
      hide Progress, Answered;
      if ref == ref0 {
        if buf[rp] == CR {
          if rp + 1 < |buf| && buf[rp + 1] == LF { AtPair(buf, cr0, w0, w, cr, wp, rp); }
        } else if buf[rp] == LF {
          AtLf(buf, cr0, w0, w, cr, wp, rp);
        } else {
          AtOther(buf, cr0, w0, w, cr, wp, rp);
        }
      }
    }

    static lemma LoneCrFlushed(buf: string, cr0: bool, w0: string, ref0: seq<int>, w: string, ref: seq<int>, cr: bool, wp: int, rp: int, acc: int,
                               w': string, ref': seq<int>, cnt: int, stop: bool)
      requires 0 <= wp <= rp < |buf| && InLoop(buf, cr0, w0, ref0, w, ref, cr, wp, rp, acc)
      requires buf[rp] == CR && (rp + 1 < |buf| ==> buf[rp + 1] != LF)
      requires Flushed(w, ref, buf[wp..rp + 1] + [LF], w', ref', cnt, stop)
      ensures cnt <= rp + 1 - wp
      ensures cnt < 0 ==> forall crOut :: Sent(buf, cr0, w0, ref0, w', ref', crOut, cnt)
      ensures cnt >= 0 && stop ==> forall crOut :: Sent(buf, cr0, w0, ref0, w', ref', crOut, acc)
      ensures cnt >= 0 && !stop ==> InLoop(buf, cr0, w0, ref0, w', ref', true, wp + cnt, rp + 1, acc + cnt)
    {
      hide Progress, Answered, Emit, State;
      AfterFlush(ref0, ref, ref', cnt);
      if ref == ref0 {
        AtLoneCr(buf, cr0, w0, w, cr, wp, rp);
        assert w + (buf[wp..rp + 1] + [LF]) == w + buf[wp..rp + 1] + [LF];
        Within(buf, cr0, w0, w + buf[wp..rp + 1] + [LF], true, rp + 1, rp + 1, w');
      }
    }

    static lemma LfFlushed(buf: string, cr0: bool, w0: string, ref0: seq<int>, w: string, ref: seq<int>, cr: bool, wp: int, rp: int, acc: int,
                           w': string, ref': seq<int>, cnt: int, stop: bool)
      requires 0 <= wp <= rp < |buf| && InLoop(buf, cr0, w0, ref0, w, ref, cr, wp, rp, acc)
      requires buf[rp] == LF && !cr
      requires Flushed(w, ref, buf[wp..rp] + [CR], w', ref', cnt, stop)
      ensures cnt <= rp - wp
      ensures cnt < 0 ==> forall crOut :: Sent(buf, cr0, w0, ref0, w', ref', crOut, cnt)
      ensures cnt >= 0 && stop ==> forall crOut :: Sent(buf, cr0, w0, ref0, w', ref', crOut, acc)
      ensures cnt >= 0 && !stop ==> InLoop(buf, cr0, w0, ref0, w', ref', false, wp + cnt, rp + 1, acc + cnt)
    {
      hide Progress, Answered, Emit, State;
      AfterFlush(ref0, ref, ref', cnt);
      if ref == ref0 {
        AtLf(buf, cr0, w0, w, cr, wp, rp);
        assert w + (buf[wp..rp] + [CR]) == w + buf[wp..rp] + [CR];
        Within(buf, cr0, w0, w + buf[wp..rp] + [CR], false, rp, rp + 1, w');
      }
    }

    /** The last write, of everything not yet out; nothing to write is written in full. */
    static lemma LoopEnds(buf: string, cr0: bool, w0: string, ref0: seq<int>, w: string, ref: seq<int>, cr: bool, wp: int, acc: int,
                          w': string, ref': seq<int>, cnt: int)
      requires 0 <= wp <= |buf| && InLoop(buf, cr0, w0, ref0, w, ref, cr, wp, |buf|, acc)
      requires cnt <= |buf| - wp && ref' == ref + if cnt < 0 then [cnt] else if cnt < |buf| - wp then [0] else []
      requires w <= w' <= w + buf[wp..] && (0 <= cnt ==> w' == w + buf[wp..][..cnt])
      ensures cnt < 0 ==> Sent(buf, cr0, w0, ref0, w', ref', cr, cnt)
      ensures cnt >= 0 ==> Sent(buf, cr0, w0, ref0, w', ref', cr, acc + cnt)
    {
      hide Progress, Emit, State;
      assert Answered(ref, ref', cnt);
      hide Answered;
      AfterFlush(ref0, ref, ref', cnt);
      if ref == ref0 {
        AtEnd(buf, cr0, w0, w, cr, wp);
        assert cnt == |buf| - wp ==> buf[wp..][..cnt] == buf[wp..];
      }
    }

    static lemma AfterFlush(ref0: seq<int>, ref: seq<int>, ref': seq<int>, cnt: int)
      requires Answered(ref0, ref, 0) && Answered(ref, ref', cnt)
      ensures Answered(ref0, ref', cnt) && (cnt >= 0 ==> forall acc :: acc >= 0 ==> Answered(ref0, ref', acc))
      ensures ref' == ref0 ==> ref == ref0 && cnt >= 0
      ensures |ref'| == |ref0| + 1 && cnt < 0 ==> ref == ref0
    {
      AnsweredMore(ref0, ref, ref', 0, cnt);
    }

    /** What has gone out of a part of the output is a prefix of the whole output. */
    static lemma Within(buf: string, cr0: bool, w0: string, all: string, cr: bool, wp: int, rp: int, written: string)
      requires 0 <= wp <= rp <= |buf| && Progress(buf, cr0, w0, all, cr, wp, rp)
      ensures written <= all ==> written <= w0 + Emit(OutRules, cr0, buf)
    {
      hide Emit, State;
      assert buf == buf[..rp] + buf[rp..];
      Concat(OutRules, cr0, buf[..rp], buf[rp..]);
      var rest := Emit(OutRules, State(OutRules, cr0, buf[..rp]), buf[rp..]);
      assert w0 + Emit(OutRules, cr0, buf) == all + buf[wp..rp] + rest;
    }

    static lemma AtStart(buf: string, cr0: bool, w0: string)
      ensures Progress(buf, cr0, w0, w0, cr0, 0, 0)
    {
    }

    static lemma AtEnd(buf: string, cr0: bool, w0: string, written: string, cr: bool, wp: int)
      requires 0 <= wp <= |buf| && Progress(buf, cr0, w0, written, cr, wp, |buf|)
      ensures w0 + Emit(OutRules, cr0, buf) == written + buf[wp..|buf|]
      ensures cr == State(OutRules, cr0, buf)
      ensures wp == |buf| ==> w0 + Emit(OutRules, cr0, buf) == written
    {
      assert buf[..|buf|] == buf;
    }

    /** Everything before wp is on the device; the bytes from wp to rp are to go out verbatim. */
    static ghost predicate Progress(buf: string, cr0: bool, w0: string, written: string, cr: bool, wp: int, rp: int)
      requires 0 <= wp <= rp <= |buf|
    {
      && w0 + Emit(OutRules, cr0, buf[..rp]) == written + buf[wp..rp]
      && cr == State(OutRules, cr0, buf[..rp])
      && (cr ==> wp == rp)
      && (cr && 0 < rp < |buf| ==> buf[rp] != LF)
    }

    static lemma Advance(buf: string, cr0: bool, w0: string, written: string, cr: bool, wp: int, rp: int)
      requires 0 <= wp <= rp < |buf| && Progress(buf, cr0, w0, written, cr, wp, rp)
      ensures w0 + Emit(OutRules, cr0, buf[..rp + 1]) == written + buf[wp..rp] + OutRules(cr, buf[rp]).0
      ensures State(OutRules, cr0, buf[..rp + 1]) == OutRules(cr, buf[rp]).1
    {
      assert buf[..rp + 1] == buf[..rp] + [buf[rp]];
      Snoc(OutRules, cr0, buf[..rp], buf[rp]);
      var e, x := Emit(OutRules, cr0, buf[..rp]), OutRules(cr, buf[rp]).0;
      assert w0 + (e + x) == (w0 + e) + x;
    }

    static lemma AtPair(buf: string, cr0: bool, w0: string, written: string, cr: bool, wp: int, rp: int)
      requires 0 <= wp <= rp < rp + 1 < |buf| && Progress(buf, cr0, w0, written, cr, wp, rp)
      requires buf[rp] == CR && buf[rp + 1] == LF
      ensures Progress(buf, cr0, w0, written, false, wp, rp + 2)
    {
      Advance(buf, cr0, w0, written, cr, wp, rp);
      assert buf[..rp + 2] == buf[..rp + 1] + [LF];
      Snoc(OutRules, cr0, buf[..rp + 1], LF);
      assert written + buf[wp..rp + 2] == written + buf[wp..rp] + [CR, LF];
    }

    static lemma AtLoneCr(buf: string, cr0: bool, w0: string, written: string, cr: bool, wp: int, rp: int)
      requires 0 <= wp <= rp < |buf| && Progress(buf, cr0, w0, written, cr, wp, rp)
      requires buf[rp] == CR && (rp + 1 < |buf| ==> buf[rp + 1] != LF)
      ensures Progress(buf, cr0, w0, written + buf[wp..rp + 1] + [LF], true, rp + 1, rp + 1)
    {
      Advance(buf, cr0, w0, written, cr, wp, rp);
      assert written + buf[wp..rp + 1] + [LF] == written + buf[wp..rp] + [CR, LF];
    }

    static lemma AtLf(buf: string, cr0: bool, w0: string, written: string, cr: bool, wp: int, rp: int)
      requires 0 <= wp <= rp < |buf| && Progress(buf, cr0, w0, written, cr, wp, rp)
      requires buf[rp] == LF
      ensures cr ==> wp == rp == 0 && cr0 && Progress(buf, cr0, w0, written, false, wp + 1, rp + 1)
      ensures !cr ==> Progress(buf, cr0, w0, written + buf[wp..rp] + [CR], false, rp, rp + 1) && (rp == 0 ==> !cr0)
    {
      Advance(buf, cr0, w0, written, cr, wp, rp);
      assert written + buf[wp..rp] + [CR] + buf[rp..rp + 1] == written + buf[wp..rp] + [CR, LF];
    }

    static lemma AtOther(buf: string, cr0: bool, w0: string, written: string, cr: bool, wp: int, rp: int)
      requires 0 <= wp <= rp < |buf| && Progress(buf, cr0, w0, written, cr, wp, rp)
      requires buf[rp] != LF && buf[rp] != CR
      ensures Progress(buf, cr0, w0, written, false, wp, rp + 1)
    {
      Advance(buf, cr0, w0, written, cr, wp, rp);
      assert written + buf[wp..rp + 1] == written + buf[wp..rp] + [buf[rp]];
    }

    /**
     Whatever the raw device delivers per call, the caller's buffer receives the transducer's
     output on the bytes consumed. The call returns at least one byte and needs at most two raw
     reads. The result 0 stands for a call that never returns, which happens exactly when there is
     no room or the bytes still to come yield no character. A negative result is the code of the one
     raw read that failed, and what was consumed before it yields nothing.
     */
    method Read(buf: array<char>) returns (r: int)
      modifies this`crIn, raw`incoming, raw`readCalls, raw`readErrors, buf
      ensures raw.readErrors == old(raw.readErrors) + if r < 0 then [r] else []
      ensures r < 0 ==> Delivered(old(crIn), old(raw.incoming), crIn, raw.incoming, [])
      ensures 0 <= r ==> r <= buf.Length && Delivered(old(crIn), old(raw.incoming), crIn, raw.incoming, buf[..r])
      ensures 0 <= r ==> (r == 0 <==> buf.Length == 0 || Emit(InRules, old(crIn), old(raw.incoming)) == [])
      ensures r > 0 ==> raw.readCalls <= old(raw.readCalls) + 2
    {
      hide Emit, State;
      ghost var cr0, in0, taken := crIn, raw.incoming, [];
      AtReadStart(cr0, in0);
      r := 0;
      while r == 0
        invariant in0 == taken + raw.incoming
        invariant 0 <= r <= buf.Length && buf[..r] == Emit(InRules, cr0, taken) && crIn == State(InRules, cr0, taken)
        invariant raw.readCalls <= old(raw.readCalls) + if taken == [] then 0 else if r == 0 then 1 else 2
        invariant Emit(InRules, cr0, in0) == Emit(InRules, cr0, taken) + Emit(InRules, crIn, raw.incoming)
        invariant r == 0 ==> taken == [] || !crIn
        invariant raw.readErrors == old(raw.readErrors)
        decreases r == 0, crIn
      {
        AtReadStart(crIn, raw.incoming);
        var cnt := raw.Read(buf);
        if cnt < 0 {
          assert in0[..|taken|] == taken && in0[|taken|..] == raw.incoming;
          return cnt;
        }
        if cnt == 0 {
          assert in0[..|taken|] == taken && in0[|taken|..] == raw.incoming;
          return 0;
        }
        ghost var chunk := buf[..cnt];
        Concat(InRules, cr0, taken, chunk);
        Concat(InRules, crIn, chunk, raw.incoming);
        taken := taken + chunk;
        r := Normalize(buf, cnt);
      }
      assert in0[..|taken|] == taken && in0[|taken|..] == raw.incoming;
    }

    static lemma AtReadStart(cr: bool, incoming: string)
      ensures Emit(InRules, cr, []) == [] && State(InRules, cr, []) == cr
      ensures [] + Emit(InRules, cr, incoming) == Emit(InRules, cr, incoming)
    {
    }

    /** out is the transduction of exactly the bytes that left the incoming stream. */
    static ghost predicate Delivered(cr: bool, incoming: string, cr': bool, incoming': string, out: string) {
      var n := |incoming| - |incoming'|;
      && 0 <= n && incoming[n..] == incoming'
      && out == Emit(InRules, cr, incoming[..n]) && cr' == State(InRules, cr, incoming[..n])
    }

    static lemma NormalizeStep(cr0: bool, src: string, rp: int)
      requires 0 <= rp < |src|
      ensures Emit(InRules, cr0, src[..rp + 1]) == Emit(InRules, cr0, src[..rp]) + InRules(State(InRules, cr0, src[..rp]), src[rp]).0
      ensures State(InRules, cr0, src[..rp + 1]) == InRules(State(InRules, cr0, src[..rp]), src[rp]).1
    {
      assert src[..rp + 1] == src[..rp] + [src[rp]];
      Snoc(InRules, cr0, src[..rp], src[rp]);
    }

    /** The in-place pass over a freshly filled buffer, src/kern/io.c:573-599. */
    method Normalize(buf: array<char>, cnt: int) returns (wp: int)
      requires 0 < cnt <= buf.Length
      modifies this`crIn, buf
      ensures 0 <= wp <= cnt
      ensures buf[..wp] == Emit(InRules, old(crIn), old(buf[..cnt])) && crIn == State(InRules, old(crIn), old(buf[..cnt]))
      ensures wp == 0 ==> old(crIn) && !crIn
    {
      hide Emit, State;
      ghost var src, cr0 := buf[..cnt], crIn;
      AtReadStart(cr0, src);
      var rp := 0;
      wp := 0;
      while rp < cnt
        invariant 0 <= wp <= rp <= cnt
        invariant buf[..wp] == Emit(InRules, cr0, src[..rp]) && crIn == State(InRules, cr0, src[..rp])
        invariant forall k :: rp <= k < cnt ==> buf[k] == src[k]
        invariant wp == 0 && 0 < rp ==> rp == 1 && cr0 && !crIn
      {
        NormalizeStep(cr0, src, rp);
        var ch := buf[rp];
        rp := rp + 1;
        if crIn {
          if ch == CR {
            buf[wp] := LF;
            wp := wp + 1;
          } else if ch == LF {
            crIn := false;
          } else {
            crIn := false;
            buf[wp] := ch;
            wp := wp + 1;
          }
        } else if ch == CR {
          crIn := true;
          buf[wp] := LF;
          wp := wp + 1;
        } else {
          buf[wp] := ch;
          wp := wp + 1;
        }
      }
      assert src[..rp] == src;
    }

    // -------------------------------------------------------------- whole streams

    /**
     However a stream is split into ioterm_write calls, its transduction reaches the device, and a
     prefix of it when one of them fails.
     */
    method WriteChunks(chunks: seq<string>) returns (r: int)
      modifies this`crOut, raw`written, raw`refusals
      ensures Answered(old(raw.refusals), raw.refusals, r) && old(raw.written) <= raw.written
      ensures raw.refusals == old(raw.refusals) ==>
        && r == 0 && raw.written == old(raw.written) + Emit(OutRules, old(crOut), Flatten(chunks))
        && crOut == State(OutRules, old(crOut), Flatten(chunks))
      ensures r < 0 && |raw.refusals| == |old(raw.refusals)| + 1 ==>
        raw.written <= old(raw.written) + Emit(OutRules, old(crOut), Flatten(chunks))
    {
      hide Sent, Answered;
      ghost var cr0, w0, ref0 := crOut, raw.written, raw.refusals;
      var i := 0;
      NoChunks(cr0, w0, ref0);
      while i < |chunks|
        invariant 0 <= i <= |chunks| && SentChunks(chunks[..i], cr0, w0, ref0, raw.written, raw.refusals, crOut, 0)
      {
        ghost var cr1, w1, ref1 := crOut, raw.written, raw.refusals;
        r := Write(chunks[i]);
        OneMore(chunks, i, cr0, w0, ref0, cr1, w1, ref1, crOut, raw.written, raw.refusals, r);
        if r < 0 {
          return;
        }
        i := i + 1;
      }
      assert chunks[..i] == chunks;
      r := 0;
    }

    /** What a sequence of calls has done, the last of them returning r. */
    static ghost predicate SentChunks(chunks: seq<string>, cr0: bool, w0: string, ref0: seq<int>, w: string, ref: seq<int>, cr: bool, r: int) {
      && Answered(ref0, ref, r) && w0 <= w
      && (ref == ref0 ==> w == w0 + Emit(OutRules, cr0, Flatten(chunks)) && cr == State(OutRules, cr0, Flatten(chunks)))
      && (r < 0 && |ref| == |ref0| + 1 ==> w <= w0 + Emit(OutRules, cr0, Flatten(chunks)))
    }

    static lemma OneMore(chunks: seq<string>, i: nat, cr0: bool, w0: string, ref0: seq<int>, cr1: bool, w1: string, ref1: seq<int>,
                         cr: bool, w: string, ref: seq<int>, r: int)
      requires i < |chunks| && SentChunks(chunks[..i], cr0, w0, ref0, w1, ref1, cr1, 0)
      requires Sent(chunks[i], cr1, w1, ref1, w, ref, cr, r)
      ensures SentChunks(chunks[..i + 1], cr0, w0, ref0, w, ref, cr, if r < 0 then r else 0)
      ensures r < 0 ==> SentChunks(chunks, cr0, w0, ref0, w, ref, cr, r) && ref != ref0
    {
      hide Emit, State, Answered, Flatten;
      AfterFlush(ref0, ref1, ref, r);
      var done, rest := Flatten(chunks[..i]), Flatten(chunks[i + 1..]);
      assert chunks[..i + 1] == chunks[..i] + [chunks[i]];
      FlattenSnoc(chunks[..i], chunks[i]);
      Concat(OutRules, cr0, done, chunks[i]);
      assert (w0 + Emit(OutRules, cr0, done)) + Emit(OutRules, cr1, chunks[i]) == w0 + (Emit(OutRules, cr0, done) + Emit(OutRules, cr1, chunks[i]));
      if r < 0 {
        assert chunks == chunks[..i + 1] + chunks[i + 1..];
        FlattenConcat(chunks[..i + 1], chunks[i + 1..]);
        Concat(OutRules, cr0, Flatten(chunks[..i + 1]), rest);
      }
    }

    static lemma NoChunks(cr: bool, w: string, ref: seq<int>)
      ensures SentChunks([], cr, w, ref, w, ref, cr, 0)
    {
    }

    /**
     However many reads of whatever sizes the device splits and the caller makes, what they return,
     put together, is the transduction of what was consumed. It ends early only when a raw read fails
     or a call never returns: there was no room, or all that will ever come has been delivered.
     */
    method ReadChunks(sizes: seq<nat>) returns (ok: bool, out: string)
      modifies this`crIn, raw`incoming, raw`readCalls, raw`readErrors
      ensures Delivered(old(crIn), old(raw.incoming), crIn, raw.incoming, out)
      ensures ok ==> |out| >= |sizes| && raw.readErrors == old(raw.readErrors)
      ensures !ok && raw.readErrors == old(raw.readErrors) ==> 0 in sizes || out == Emit(InRules, old(crIn), old(raw.incoming))
    {
      hide Emit, State, Delivered;
      ghost var cr0, in0 := crIn, raw.incoming;
      out := [];
      NothingDelivered(cr0, in0);
      var i := 0;
      while i < |sizes|
        invariant 0 <= i <= |sizes| && |out| >= i
        invariant Delivered(cr0, in0, crIn, raw.incoming, out) && raw.readErrors == old(raw.readErrors)
      {
        var buf := new char[sizes[i]];
        ghost var cr1, in1 := crIn, raw.incoming;
        var r := Read(buf);
        ghost var got := if r < 0 then [] else buf[..r];
        DeliveredMore(cr0, in0, cr1, in1, crIn, raw.incoming, out, got);
        if r <= 0 {
          assert out + got == out;
          if r == 0 && sizes[i] != 0 { DeliveredAll(cr0, in0, cr1, in1, out); }
          return false, out;
        }
        out := out + buf[..r];
        i := i + 1;
      }
      ok := true;
    }

    static lemma NothingDelivered(cr: bool, incoming: string)
      ensures Delivered(cr, incoming, cr, incoming, [])
    {
    }

    static lemma DeliveredAll(cr0: bool, in0: string, cr1: bool, in1: string, out: string)
      requires Delivered(cr0, in0, cr1, in1, out) && Emit(InRules, cr1, in1) == []
      ensures out == Emit(InRules, cr0, in0)
    {
      var n := |in0| - |in1|;
      assert in0 == in0[..n] + in1;
      Concat(InRules, cr0, in0[..n], in1);
    }

    static lemma DeliveredMore(cr0: bool, in0: string, cr1: bool, in1: string, cr2: bool, in2: string, a: string, b: string)
      requires Delivered(cr0, in0, cr1, in1, a) && Delivered(cr1, in1, cr2, in2, b)
      ensures Delivered(cr0, in0, cr2, in2, a + b)
    {
      var n, m := |in0| - |in1|, |in1| - |in2|;
      assert in0[..n + m] == in0[..n] + in1[..m];
      Concat(InRules, cr0, in0[..n], in1[..m]);
    }
  }
}
