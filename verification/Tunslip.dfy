/**
 tunslip6's code on its own arrays and indices, proved against the functions of
 module Link.  A method that returns ok == false has called err().
 */
module Tunslip {
  import opened Bytes
  import opened Slip
  import opened Link

  class Tunnel {
    // serial_to_tun's static buffer, and the ESC it may have pushed back on the stream
    const inbuf: array<byte>
    var inbufptr: nat
    var ungot: bool
    // the output queue
    const slipBuf: array<byte>
    var slipBegin: nat
    var slipEnd: nat
    // the outside: accepted writes and completed frames
    var wire: seq<byte>
    var frames: seq<seq<byte>>
    const addr: seq<byte>
    // history
    ghost var input: seq<byte>
    ghost var log: seq<Message>

    ghost predicate Valid()
      reads this
    {
      && inbuf.Length == CAPACITY && slipBuf.Length == CAPACITY && inbuf != slipBuf
      && inbufptr < CAPACITY
      && slipBegin <= slipEnd <= CAPACITY
      && (slipBegin == slipEnd ==> slipEnd == 0)
    }

    ghost function TheQueue(): Queue
      requires slipBuf.Length == CAPACITY && slipBegin <= slipEnd <= CAPACITY
      reads this, slipBuf
    {
      Queue(slipBegin, slipBuf[slipBegin..slipEnd], wire)
    }

    ghost function TheDecoder(): Decoder
      requires inbuf.Length == CAPACITY && inbufptr <= CAPACITY
      reads this, inbuf
    {
      Decoder(inbuf[..inbufptr], ungot, inbuf[1])
    }

    ghost function TheHost(): Host
      requires Valid()
      reads this, inbuf, slipBuf
    {
      Host(TheDecoder(), TheQueue(), input, frames, log)
    }

    /** The program up to the select loop: zeroed statics and the first slip_send(END). */
    constructor (addr: seq<byte>)
      ensures Valid() && this.addr == addr && TheHost() == START
      ensures fresh(inbuf) && fresh(slipBuf)
    {
      this.addr := addr;
      var inb := new byte[CAPACITY](i => 0);
      inbuf := inb;
      slipBuf := new byte[CAPACITY](i => if i == 0 then END else 0);
      inbufptr, ungot, slipBegin, slipEnd := 0, false, 0, 1;
      wire, frames, input, log := [], [], [], [];
    }

    method SlipSend(c: byte) returns (ok: bool)
      requires Valid()
      modifies this`slipEnd, slipBuf
      ensures Valid()
      ensures match Enqueue(old(TheQueue()), [c])
              case Some(q) => ok && TheQueue() == q
              case None => !ok && TheQueue() == old(TheQueue())
    {
      if slipEnd >= slipBuf.Length {
        return false;
      }
      slipBuf[slipEnd] := c;
      slipEnd := slipEnd + 1;
      return true;
    }

    method SlipSendChar(c: byte) returns (ok: bool)
      requires Valid()
      modifies this`slipEnd, slipBuf
      ensures Valid()
      ensures ok <==> Enqueue(old(TheQueue()), StuffByte(c)).Some?
      ensures ok ==> TheQueue() == Enqueue(old(TheQueue()), StuffByte(c)).value
    {
      if c == END {
        ok := SlipSend(ESC);
        if !ok { return; }
        ok := SlipSend(ESC_END);
      } else if c == ESC {
        ok := SlipSend(ESC);
        if !ok { return; }
        ok := SlipSend(ESC_ESC);
      } else {
        ok := SlipSend(c);
      }
    }

    method SlipEmpty() returns (empty: bool)
      requires Valid()
      ensures empty <==> TheQueue().pending == []
    {
      empty := slipEnd == 0;
    }

    method SlipFlushbuf(w: WriteResult) returns (ok: bool)
      requires Valid()
      modifies this`slipBegin, this`slipEnd, this`wire
      ensures Valid()
      ensures ok <==> Flush(old(TheQueue()), w).Some?
      ensures ok ==> TheQueue() == Flush(old(TheQueue()), w).value
    {
      var empty := SlipEmpty();
      if empty {
        return true;
      }
      match w {
        case Failed => return false;
        case Again =>
        case Wrote(_) =>
          var n := Min(w.n, slipEnd - slipBegin);
          ghost var pending := slipBuf[slipBegin..slipEnd];
          assert pending[n..] == slipBuf[slipBegin + n..slipEnd] && pending[..n] == slipBuf[slipBegin..slipBegin + n];
          wire := wire + slipBuf[slipBegin..slipBegin + n];
          slipBegin := slipBegin + n;
          if slipBegin == slipEnd {
            slipBegin, slipEnd := 0, 0;
          }
      }
      return true;
    }

    /** Enqueues p stuffed, byte by byte: the loop write_to_serial and the prefix reply share. */
    method SendStuffed(p: seq<byte>) returns (ok: bool)
      requires Valid()
      modifies this`slipEnd, slipBuf
      ensures Valid()
      ensures ok <==> Enqueue(old(TheQueue()), Stuff(p)).Some?
      ensures ok ==> TheQueue() == Enqueue(old(TheQueue()), Stuff(p)).value
    {
      ghost var q := TheQueue();
      var i := 0;
      assert q.pending + Stuff(p[..0]) == q.pending;
      while i < |p|
        invariant 0 <= i <= |p| && Valid()
        invariant TheQueue() == q.(pending := q.pending + Stuff(p[..i]))
      {
        StuffSplit(p, i);
        ConcatAssoc(q.pending, Stuff(p[..i]), StuffByte(p[i]));
        ok := SlipSendChar(p[i]);
        if !ok { return; }
        i := i + 1;
      }
      assert p[..i] == p;
      return true;
    }

    method WriteToSerial(p: seq<byte>) returns (ok: bool)
      requires Valid()
      modifies this`slipEnd, slipBuf
      ensures Valid()
      ensures ok <==> Enqueue(old(TheQueue()), Encode(p)).Some?
      ensures ok ==> TheQueue() == Enqueue(old(TheQueue()), Encode(p)).value
    {
      ok := SendStuffed(p);
      if !ok { return; }
      ok := SlipSend(END);
    }

    /** The answer to "?P": '!' and 'P' raw, the address stuffed, END. */
    method SendPrefix() returns (ok: bool)
      requires Valid()
      modifies this`slipEnd, slipBuf
      ensures Valid()
      ensures ok <==> Enqueue(old(TheQueue()), ReplyBytes(addr)).Some?
      ensures ok ==> TheQueue() == Enqueue(old(TheQueue()), ReplyBytes(addr)).value
    {
      ok := SlipSend(BANG);
      if !ok { return; }
      ok := SlipSend(LETTER_P);
      if !ok { return; }
      ok := SendStuffed(addr);
      if !ok { return; }
      ok := SlipSend(END);
      ReplyChain(old(TheQueue()).pending, Stuff(addr));
    }

    /** The host has come from was by the output done, input bookkeeping aside. */
    ghost predicate Sofar(was: Host, done: Output)
      requires Valid()
      reads this, inbuf, slipBuf
    {
      && TheDecoder() == done.dec
      && Enqueue(was.q, Replies(addr, done.asks)) == Some(TheQueue())
      && frames == was.frames + done.frames
      && log == was.log + Asked(done.asks)
      && input == was.input
    }

    /** How a part of serial_to_tun ends: with the output total done, or with answers that do not fit. */
    ghost predicate Ended(ok: bool, was: Host, total: Output)
      requires Valid()
      reads this, inbuf, slipBuf
    {
      if ok then Sofar(was, total) else Enqueue(was.q, Replies(addr, total.asks)) == None
    }

    /** Between two turns of the goto loop: c is in hand, and the chunk from k on still to read. */
    ghost predicate Midway(was: Host, done: Output, total: Output, c: byte, chunk: seq<byte>, k: nat)
      requires Valid()
      reads this, inbuf, slipBuf
    {
      k <= |chunk| && !ungot && Sofar(was, done) && Ahead(total, done, c, chunk, k)
    }

    /** The case SLIP_END of serial_to_tun. */
    method EndFrame(ghost was: Host, ghost done: Output) returns (ok: bool)
      requires Valid() && !ungot && Sofar(was, done)
      modifies this, slipBuf
      ensures Valid() && !ungot
      ensures var o := Then(done, Step(CAPACITY, done.dec, END));
              if ok then Sofar(was, o) else Enqueue(was.q, Replies(addr, o.asks)) == None
    {
      ok := true;
      if inbufptr > 0 {
        if inbuf[0] == QUESTION && inbuf[1] == LETTER_P {
          OneReply(addr, was, done.asks);
          ok := SendPrefix();
          if !ok { return; }
          log := log + [Reply];
        }
        frames := frames + [inbuf[..inbufptr]];
        inbufptr := 0;
      }
    }

    /** The default case of serial_to_tun and the size check it meets at read_more. */
    method StoreByte(c: byte, ghost was: Host, ghost done: Output)
      requires Valid() && !ungot && Sofar(was, done)
      modifies this`inbufptr, inbuf
      ensures Valid() && Sofar(was, Then(done, Output(Store(CAPACITY, done.dec, c), [], 0)))
    {
      inbuf[inbufptr] := c;
      inbufptr := inbufptr + 1;
      assert inbuf[..inbufptr] == old(inbuf[..inbufptr]) + [c];
      if inbufptr >= inbuf.Length {
        inbufptr := 0;
      }
    }

    /** Handles c, which ESC may have escaped, as the switch of serial_to_tun does. */
    method Switch(escaped: bool, c: byte, ghost was: Host, ghost done: Output, ghost asks: nat) returns (ok: bool)
      requires Valid() && !ungot && Sofar(was, done) && (c == ESC ==> escaped)
      requires done.asks + AdvanceStep(done.dec, escaped, c).asks <= asks
      modifies this, inbuf, slipBuf
      ensures Valid() && !ungot
      ensures if ok then Sofar(was, Then(done, AdvanceStep(done.dec, escaped, c)))
              else Enqueue(was.q, Replies(addr, asks)) == None
    {
      ok := true;
      if c == END && !escaped {
        ok := EndFrame(was, done);
        if !ok {
          NoRoom(addr, was.q, done.asks + AdvanceStep(done.dec, escaped, c).asks, asks);
        }
      } else {
        StoreByte(if escaped then Unescape(c) else c, was, done);
      }
    }

    /** One turn of the goto loop: c has been read, an ESC reads on or, at the end of the bytes, is pushed back. */
    method Turn(c: byte, k: nat, chunk: seq<byte>, ghost was: Host, ghost done: Output, ghost total: Output)
      returns (ok: bool, k': nat, ghost done': Output)
      requires Valid() && Midway(was, done, total, c, chunk, k)
      modifies this, inbuf, slipBuf
      ensures Valid() && k <= k' <= |chunk|
      ensures if !ok || ungot || k' == |chunk| then Ended(ok, was, total)
              else Midway(was, done', total, chunk[k'], chunk, k' + 1)
    {
      k', done' := k, total;
      if c == ESC && k == |chunk| {
        EndsInEsc(total, done, chunk);
        ungot := true;
        return true, k', done';
      }
      ghost var o := Advance(total, done, c, chunk, k);
      done' := Then(done, o);
      if c == ESC {
        k' := k + 1;
        ok := Switch(true, chunk[k], was, done, total.asks);
      } else {
        ok := Switch(false, c, was, done, total.asks);
      }
    }

    /** serial_to_tun from its label after_fread on, with c read and chunk[k..] still to read. */
    method AfterFread(first: byte, start: nat, chunk: seq<byte>, ghost was: Host,
                      ghost sofar: Output, ghost total: Output)
      returns (ok: bool)
      requires Valid() && Midway(was, sofar, total, first, chunk, start)
      modifies this, inbuf, slipBuf
      ensures Valid() && Ended(ok, was, total)
    {
      var c, k := first, start;
      ghost var done := sofar;
      while true
        invariant Valid() && 0 <= k <= |chunk| && Midway(was, done, total, c, chunk, k)
        decreases |chunk| - k
      {
        ok, k, done := Turn(c, k, chunk, was, done, total);
        if !ok || ungot || k == |chunk| {
          return;
        }
        c, k := chunk[k], k + 1;
      }
    }

    /**
     serial_to_tun on the bytes available until the line runs dry, Linux entry:
     the first byte is read before the size check, and reading none is an error.
     */
    method SerialToTun(chunk: seq<byte>) returns (ok: bool)
      requires Valid()
      modifies this, inbuf, slipBuf
      ensures Valid()
      ensures ok <==> Receive(addr, old(TheHost()), chunk).Some?
      ensures ok ==> TheHost() == Receive(addr, old(TheHost()), chunk).value
    {
      ghost var was := TheHost();
      ghost var total := Run(CAPACITY, was.dec, chunk);
      if !ungot && chunk == [] {
        return false;
      }
      var c: byte, k := ESC, 0;
      if ungot {
        ungot := false;
      } else {
        c, k := chunk[0], 1;
      }
      EntryRun(was.dec, chunk, k, c);
      assert was.q.pending + Replies(addr, 0) == was.q.pending;
      ok := AfterFread(c, k, chunk, was, Output(TheDecoder(), [], 0), total);
      input := input + chunk;
    }

    /** tun_to_serial, having read p, and the flush main follows it with. */
    method SendTunPacket(p: seq<byte>, w: WriteResult) returns (ok: bool)
      requires Valid()
      modifies this, slipBuf
      ensures Valid()
      ensures ok <==> SendPacket(old(TheHost()), p, w).Some?
      ensures ok ==> TheHost() == SendPacket(old(TheHost()), p, w).value
    {
      ok := WriteToSerial(p);
      if !ok { return; }
      log := log + [Packet(p)];
      ok := SlipFlushbuf(w);
    }

    /** One pass of main's select loop. */
    method Select(e: Event) returns (ok: bool)
      requires Valid()
      modifies this, inbuf, slipBuf
      ensures Valid()
      ensures ok <==> Pass(addr, old(TheHost()), e).Some?
      ensures ok ==> TheHost() == Pass(addr, old(TheHost()), e).value
    {
      ok := true;
      var idle := SlipEmpty();
      if e.arrived.Some? {
        ok := SerialToTun(e.arrived.value);
        if !ok { return; }
      }
      if e.writable && !idle {
        ok := SlipFlushbuf(e.firstWrite);
        if !ok { return; }
      }
      if e.delayOver {
        var empty := SlipEmpty();
        if empty && idle && e.tun.Some? {
          ok := SendTunPacket(TunRead(e.tun.value), e.secondWrite);
        }
      }
    }

    /** The select loop, for as long as there are events. */
    method Loop(es: seq<Event>) returns (ok: bool)
      requires Valid()
      modifies this, inbuf, slipBuf
      ensures Valid()
      ensures ok <==> Passes(addr, old(TheHost()), es).Some?
      ensures ok ==> TheHost() == Passes(addr, old(TheHost()), es).value
    {
      ghost var end := Passes(addr, TheHost(), es);
      var i := 0;
      while i < |es|
        invariant 0 <= i <= |es| && Valid()
        invariant Passes(addr, TheHost(), es[i..]) == end
      {
        ok := Select(es[i]);
        if !ok { return; }
        assert es[i..][1..] == es[i + 1..];
        i := i + 1;
      }
      return true;
    }
  }

  lemma StuffSplit(p: seq<byte>, i: nat)
    requires i < |p|
    ensures Stuff(p[..i + 1]) == Stuff(p[..i]) + StuffByte(p[i])
    ensures |Stuff(p)| >= |Stuff(p[..i + 1])|
  {
    assert p[..i + 1] == p[..i] + [p[i]] && p == p[..i + 1] + p[i + 1..];
    StuffAppend(p[..i], p[i]);
    StuffConcat(p[..i + 1], p[i + 1..]);
  }

  /** Reading a pushed-back ESC first is the same as having kept it in the state. */
  lemma EntryRun(d: Decoder, chunk: seq<byte>, k: nat, c: byte)
    requires if d.esc then k == 0 && c == ESC else chunk != [] && k == 1 && c == chunk[0]
    ensures Ahead(Run(CAPACITY, d, chunk), Output(d.(esc := false), [], 0), c, chunk, k)
  {
  }

  /** The output of one unit of input: a plain byte, or ESC and the byte it escapes. */
  ghost function AdvanceStep(d: Decoder, escaped: bool, c: byte): Output {
    if escaped then Output(Store(CAPACITY, d, Unescape(c)), [], 0) else Step(CAPACITY, d, c)
  }

  lemma RunEscaped(d: Decoder, c: byte, rest: seq<byte>)
    requires !d.esc
    ensures var o := AdvanceStep(d, true, c);
            Run(CAPACITY, d, [ESC] + ([c] + rest)) == Then(o, Run(CAPACITY, o.dec, rest))
  {
  }

  /** What remains to be done: the byte in hand, then the chunk from k on. */
  ghost predicate Ahead(total: Output, done: Output, c: byte, chunk: seq<byte>, k: nat) {
    k <= |chunk| && !done.dec.esc && total == Then(done, Run(CAPACITY, done.dec, [c] + chunk[k..]))
  }

  /** The unit that c begins: c itself, or the byte it escapes. */
  lemma RunUnit(d: Decoder, c: byte, chunk: seq<byte>, k: nat) returns (o: Output)
    requires k <= |chunk| && !d.esc && (c == ESC ==> k < |chunk|)
    ensures o == if c == ESC then AdvanceStep(d, true, chunk[k]) else AdvanceStep(d, false, c)
    ensures Run(CAPACITY, d, [c] + chunk[k..])
            == Then(o, Run(CAPACITY, o.dec, chunk[if c == ESC then k + 1 else k..]))
  {
    if c == ESC {
      o := AdvanceStep(d, true, chunk[k]);
      assert chunk[k..] == [chunk[k]] + chunk[k + 1..];
      RunEscaped(d, chunk[k], chunk[k + 1..]);
    } else {
      o := AdvanceStep(d, false, c);
      RunCons(CAPACITY, d, c, chunk[k..]);
    }
  }

  /** Consuming one unit moves its output from what is ahead to what is done. */
  lemma Advance(total: Output, done: Output, c: byte, chunk: seq<byte>, k: nat) returns (o: Output)
    requires Ahead(total, done, c, chunk, k) && (c == ESC ==> k < |chunk|)
    ensures o == if c == ESC then AdvanceStep(done.dec, true, chunk[k]) else AdvanceStep(done.dec, false, c)
    ensures var j := if c == ESC then k + 1 else k;
            && (j == |chunk| ==> total == Then(done, o))
            && (j < |chunk| ==> Ahead(total, Then(done, o), chunk[j], chunk, j + 1))
    ensures total.asks >= done.asks + o.asks
  {
    o := RunUnit(done.dec, c, chunk, k);
    var j := if c == ESC then k + 1 else k;
    ThenAssoc(done, o, Run(CAPACITY, o.dec, chunk[j..]));
    if j == |chunk| {
      assert Run(CAPACITY, o.dec, chunk[j..]) == Output(o.dec, [], 0);
    } else {
      assert chunk[j..] == [chunk[j]] + chunk[j + 1..];
    }
  }

  lemma EndsInEsc(total: Output, done: Output, chunk: seq<byte>)
    requires Ahead(total, done, ESC, chunk, |chunk|)
    ensures total == done.(dec := done.dec.(esc := true))
  {
    assert chunk[|chunk|..] == [];
    RunCons(CAPACITY, done.dec, ESC, []);
    assert done.frames + [] == done.frames;
  }

  lemma ReplyChain(s: seq<byte>, stuffed: seq<byte>)
    ensures (((s + [BANG]) + [LETTER_P]) + stuffed) + [END] == s + ([BANG, LETTER_P] + stuffed + [END])
  {
  }

  lemma OneReply(addr: seq<byte>, was: Host, n: nat)
    ensures was.q.pending + Replies(addr, n + 1) == (was.q.pending + Replies(addr, n)) + ReplyBytes(addr)
    ensures was.log + Asked(n + 1) == (was.log + Asked(n)) + [Reply]
  {
  }

  /** Answers without room stay without room when there are more of them. */
  lemma {:induction false} NoRoom(addr: seq<byte>, q: Queue, m: nat, n: nat)
    requires m <= n && Enqueue(q, Replies(addr, m)) == None
    ensures Enqueue(q, Replies(addr, n)) == None
    decreases n
  {
    if m < n {
      NoRoom(addr, q, m, n - 1);
    }
  }
}
