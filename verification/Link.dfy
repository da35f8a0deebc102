/**
 One tunslip6 process as a state machine: the decoder, the output queue and the
 queue discipline of main's select loop, and what every run of it keeps.
 None stands for err(), which ends the process.
 */
module Link {
  import opened Bytes
  import opened Slip

  const BANG: byte := 33

  // ---------- The output queue ----------

  /**
   begin is slip_begin, pending is slip_buf[slip_begin..slip_end], and wire is
   everything write() has accepted so far.
   */
  datatype Queue = Queue(begin: nat, pending: seq<byte>, wire: seq<byte>)

  /** What write() answers: it took at most n bytes, or failed with EAGAIN, or failed otherwise. */
  datatype WriteResult = Wrote(n: nat) | Again | Failed

  predicate ValidQueue(q: Queue) {
    q.begin + |q.pending| <= CAPACITY && (q.pending == [] ==> q.begin == 0)
  }

  function Enqueue(q: Queue, s: seq<byte>): Option<Queue> {
    if q.begin + |q.pending| + |s| <= CAPACITY then Some(q.(pending := q.pending + s)) else None
  }

  function Min(a: nat, b: nat): (r: nat)
    ensures r <= a && r <= b && (r == a || r == b)
  {
    if a < b then a else b
  }

  function Flush(q: Queue, w: WriteResult): Option<Queue> {
    if q.pending == [] || w == Again then Some(q)
    else if w == Failed then None
    else
      var k := Min(w.n, |q.pending|);
      Some(Queue(if k == |q.pending| then 0 else q.begin + k, q.pending[k..], q.wire + q.pending[..k]))
  }

  /** Conservation: flushing moves bytes to the wire and neither loses, adds nor reorders any. */
  lemma FlushConserves(q: Queue, w: WriteResult)
    requires ValidQueue(q) && Flush(q, w).Some?
    ensures var r := Flush(q, w).value;
            ValidQueue(r) && r.wire + r.pending == q.wire + q.pending && q.wire <= r.wire
  {
  }

  /**
   Progress: what write() accepts leaves the queue for the wire, and the end of the
   queued bytes stays where it is until they are all gone.
   */
  lemma FlushAdvances(q: Queue, w: WriteResult)
    requires ValidQueue(q)
    ensures Flush(q, w) == None <==> q.pending != [] && w == Failed
    ensures q.pending == [] || w == Again ==> Flush(q, w) == Some(q)
    ensures q.pending != [] && w.Wrote? ==>
              var r, k := Flush(q, w).value, if w.n < |q.pending| then w.n else |q.pending|;
              && r.wire == q.wire + q.pending[..k] && r.pending == q.pending[k..]
              && (if r.pending == [] then r.begin == 0 else r.begin + |r.pending| == q.begin + |q.pending|)
  {
  }

  /** On an empty queue the overflow error strikes exactly when packet, stuffing and END exceed 2000 bytes. */
  lemma PacketOverflow(q: Queue, p: seq<byte>)
    requires ValidQueue(q) && q.pending == []
    ensures Enqueue(q, Encode(p)) == None <==> |p| + Specials(p) + 1 > CAPACITY
  {
    EncodeShape(p);
  }

  // ---------- The process ----------

  /** A whole frame put into the output queue: a packet read from the tun device, or the answer to "?P". */
  datatype Message = Packet(p: seq<byte>) | Reply

  /** input and frames are all bytes read from the line and all frames decoded; log is all frames enqueued. */
  datatype Host = Host(dec: Decoder, q: Queue, input: seq<byte>, frames: seq<seq<byte>>, log: seq<Message>)

  /** What one pass of the select loop meets: which descriptors are ready, and what read() and write() return. */
  datatype Event = Event(arrived: Option<seq<byte>>, writable: bool, firstWrite: WriteResult,
                         delayOver: bool, tun: Option<seq<byte>>, secondWrite: WriteResult)

  function Payload(addr: seq<byte>, m: Message): seq<byte> {
    match m
    case Packet(p) => p
    case Reply => [BANG, LETTER_P] + addr
  }

  function Payloads(addr: seq<byte>, log: seq<Message>): seq<seq<byte>> {
    seq(|log|, i requires 0 <= i < |log| => Payload(addr, log[i]))
  }

  /** The answer to a prefix request: "!P", the eight address bytes stuffed, END. */
  function ReplyBytes(addr: seq<byte>): seq<byte> {
    [BANG, LETTER_P] + Stuff(addr) + [END]
  }

  function Replies(addr: seq<byte>, n: nat): seq<byte> {
    if n == 0 then [] else Replies(addr, n - 1) + ReplyBytes(addr)
  }

  function Asked(n: nat): seq<Message> {
    seq(n, i => Reply)
  }

  /** tun_to_serial reads at most 2000 bytes of a packet. */
  function TunRead(p: seq<byte>): seq<byte> {
    p[..Min(|p|, CAPACITY)]
  }

  /** slip_send(END) before the loop. */
  const START := Host(FRESH, Queue(0, [END], []), [], [], [])

  /** serial_to_tun on the bytes available before the line runs dry; with none at all the first fread fails. */
  function Receive(addr: seq<byte>, h: Host, chunk: seq<byte>): Option<Host> {
    if chunk == [] && !h.dec.esc then None
    else
      var o := Run(CAPACITY, h.dec, chunk);
      match Enqueue(h.q, Replies(addr, o.asks))
      case None => None
      case Some(q) => Some(Host(o.dec, q, h.input + chunk, h.frames + o.frames, h.log + Asked(o.asks)))
  }

  function SendPacket(h: Host, p: seq<byte>, w: WriteResult): Option<Host> {
    match Enqueue(h.q, Encode(p))
    case None => None
    case Some(q) =>
      match Flush(q, w)
      case None => None
      case Some(q') => Some(h.(q := q', log := h.log + [Packet(p)]))
  }

  /** One pass of the select loop.  The read and write sets are fixed before anything is read. */
  function Pass(addr: seq<byte>, h: Host, e: Event): Option<Host> {
    var idle := h.q.pending == [];
    match (if e.arrived.Some? then Receive(addr, h, e.arrived.value) else Some(h))
    case None => None
    case Some(h1) =>
      match (if e.writable && !idle then Flush(h1.q, e.firstWrite) else Some(h1.q))
      case None => None
      case Some(q2) =>
        var h2 := h1.(q := q2);
        if e.delayOver && h2.q.pending == [] && idle && e.tun.Some? then
          SendPacket(h2, TunRead(e.tun.value), e.secondWrite)
        else Some(h2)
  }

  function Passes(addr: seq<byte>, h: Host, es: seq<Event>): Option<Host>
    decreases |es|
  {
    if es == [] then Some(h)
    else
      match Pass(addr, h, es[0])
      case None => None
      case Some(h') => Passes(addr, h', es[1..])
  }

  // ---------- What every run keeps ----------

  /**
   The bytes written followed by the bytes queued are one END and the encodings
   of all messages in order; the frames are what the decoder makes of all input.
   */
  ghost predicate Inv(addr: seq<byte>, h: Host) {
    && ValidQueue(h.q)
    && h.q.wire + h.q.pending == [END] + EncodeAll(Payloads(addr, h.log))
    && (forall m :: m in h.log ==> |Payload(addr, m)| < CAPACITY)
    && h.dec == Run(CAPACITY, FRESH, h.input).dec
    && h.frames == Run(CAPACITY, FRESH, h.input).frames
  }

  /** The hand-written reply is a properly encoded frame. */
  lemma ReplyIsEncoded(addr: seq<byte>)
    ensures ReplyBytes(addr) == Encode(Payload(addr, Reply)) == Encode([33, 80] + addr)
  {
    StuffConcat([BANG, LETTER_P], addr);
    assert Stuff([BANG, LETTER_P]) == [BANG, LETTER_P] by {
      assert [BANG, LETTER_P][1..] == [LETTER_P] && [LETTER_P][1..] == [];
    }
  }

  lemma EncodeAllSingle(p: seq<byte>)
    ensures EncodeAll([p]) == Encode(p)
  {
  }

  /** Putting one encoded message behind the queue keeps the invariant. */
  lemma LogMessage(addr: seq<byte>, h: Host, m: Message, h': Host)
    requires Inv(addr, h)
    requires Enqueue(h.q, Encode(Payload(addr, m))).Some?
    requires h' == h.(q := Enqueue(h.q, Encode(Payload(addr, m))).value, log := h.log + [m])
    ensures Inv(addr, h')
  {
    var p, ps := Payload(addr, m), Payloads(addr, h.log);
    EncodeShape(p);
    assert EncodeAll(Payloads(addr, h'.log)) == EncodeAll(ps) + Encode(p) by {
      assert Payloads(addr, h'.log) == ps + [p];
      EncodeAllConcat(ps, [p]);
      EncodeAllSingle(p);
    }
    ConcatAssoc(h.q.wire, h.q.pending, Encode(p));
    ConcatAssoc([END], EncodeAll(ps), Encode(p));
  }

  /** The host with n answers put behind its queue, which fit. */
  function Replied(addr: seq<byte>, h: Host, n: nat): Host {
    h.(q := h.q.(pending := h.q.pending + Replies(addr, n)), log := h.log + Asked(n))
  }

  lemma RepliedOne(addr: seq<byte>, h: Host, n: nat)
    requires n > 0
    ensures Replied(addr, h, n)
            == var m := Replied(addr, h, n - 1);
               m.(q := m.q.(pending := m.q.pending + ReplyBytes(addr)), log := m.log + [Reply])
  {
    ConcatAssoc(h.q.pending, Replies(addr, n - 1), ReplyBytes(addr));
    assert Asked(n) == Asked(n - 1) + [Reply];
    ConcatAssoc(h.log, Asked(n - 1), [Reply]);
  }

  lemma {:induction false} LogReplies(addr: seq<byte>, h: Host, n: nat)
    requires Inv(addr, h) && Enqueue(h.q, Replies(addr, n)).Some?
    ensures Inv(addr, Replied(addr, h, n))
  {
    if n == 0 {
      assert Replied(addr, h, 0) == h;
    } else {
      LogReplies(addr, h, n - 1);
      ReplyIsEncoded(addr);
      RepliedOne(addr, h, n);
      LogMessage(addr, Replied(addr, h, n - 1), Reply, Replied(addr, h, n));
    }
  }

  lemma ReceiveKeeps(addr: seq<byte>, h: Host, chunk: seq<byte>)
    requires Inv(addr, h) && Receive(addr, h, chunk).Some?
    ensures Inv(addr, Receive(addr, h, chunk).value)
  {
    var o := Run(CAPACITY, h.dec, chunk);
    RunConcat(CAPACITY, FRESH, h.input, chunk);
    var h1 := Receive(addr, h, chunk).value;
    LogReplies(addr, h, o.asks);
  }

  lemma PassKeeps(addr: seq<byte>, h: Host, e: Event)
    requires Inv(addr, h) && Pass(addr, h, e).Some?
    ensures Inv(addr, Pass(addr, h, e).value)
    ensures h.q.wire <= Pass(addr, h, e).value.q.wire
  {
    var h1 := if e.arrived.Some? then Receive(addr, h, e.arrived.value).value else h;
    if e.arrived.Some? {
      ReceiveKeeps(addr, h, e.arrived.value);
    }
    if e.writable && h.q.pending != [] {
      FlushConserves(h1.q, e.firstWrite);
    }
    var h2 := h1.(q := if e.writable && h.q.pending != [] then Flush(h1.q, e.firstWrite).value else h1.q);
    if e.delayOver && h2.q.pending == [] && h.q.pending == [] && e.tun.Some? {
      var p := TunRead(e.tun.value);
      var h3 := h2.(q := Enqueue(h2.q, Encode(p)).value, log := h2.log + [Packet(p)]);
      LogMessage(addr, h2, Packet(p), h3);
      FlushConserves(h3.q, e.secondWrite);
    }
  }

  /**
   What a pass enqueues: an answer per prefix request that arrived and, exactly when
   the queue was empty at select and no answer was queued, the packet waiting on the tun device.
   */
  lemma PassLog(addr: seq<byte>, h: Host, e: Event)
    requires Inv(addr, h) && Pass(addr, h, e).Some?
    ensures var asks := if e.arrived.Some? then Run(CAPACITY, h.dec, e.arrived.value).asks else 0;
            var takes := e.delayOver && e.tun.Some? && h.q.pending == [] && asks == 0;
            Pass(addr, h, e).value.log
            == h.log + Asked(asks) + (if takes then [Packet(TunRead(e.tun.value))] else [])
  {
  }

  lemma {:induction false} PassesKeep(addr: seq<byte>, h: Host, es: seq<Event>)
    requires Inv(addr, h) && Passes(addr, h, es).Some?
    ensures Inv(addr, Passes(addr, h, es).value)
    decreases |es|
  {
    if es != [] {
      PassKeeps(addr, h, es[0]);
      PassesKeep(addr, Pass(addr, h, es[0]).value, es[1..]);
    }
  }

  // ---------- When a run ends ----------

  lemma {:induction false} RepliesLength(addr: seq<byte>, n: nat)
    ensures |Replies(addr, n)| == n * (|addr| + Specials(addr) + 3)
  {
    StuffShape(addr);
    if n > 0 {
      RepliesLength(addr, n - 1);
      var each := |addr| + Specials(addr) + 3;
      assert n * each == (n - 1) * each + each;
    }
  }

  /**
   The four ways a pass calls err(): an empty first read, answers without room, a
   write that fails for good, a packet too long.
   */
  predicate Breaks(addr: seq<byte>, h: Host, e: Event) {
    var asks := if e.arrived.Some? then Run(CAPACITY, h.dec, e.arrived.value).asks else 0;
    var idle := h.q.pending == [];
    || (e.arrived == Some([]) && !h.dec.esc)
    || h.q.begin + |h.q.pending| + asks * (|addr| + Specials(addr) + 3) > CAPACITY
    || (e.writable && !idle && e.firstWrite == Failed)
    || (e.delayOver && e.tun.Some? && idle && asks == 0
        && (var p := TunRead(e.tun.value); |p| + Specials(p) + 1 > CAPACITY || e.secondWrite == Failed))
  }

  lemma ReceiveEnds(addr: seq<byte>, h: Host, chunk: seq<byte>)
    ensures var asks := Run(CAPACITY, h.dec, chunk).asks;
            && (Receive(addr, h, chunk) == None
                <==> (chunk == [] && !h.dec.esc)
                     || h.q.begin + |h.q.pending| + asks * (|addr| + Specials(addr) + 3) > CAPACITY)
            && (Receive(addr, h, chunk).Some? ==>
                  var q := Receive(addr, h, chunk).value.q;
                  q.begin == h.q.begin && (q.pending == [] <==> h.q.pending == [] && asks == 0))
  {
    var asks := Run(CAPACITY, h.dec, chunk).asks;
    RepliesLength(addr, asks);
    if asks > 0 {
      assert Replies(addr, asks) == Replies(addr, asks - 1) + ReplyBytes(addr);
    }
  }

  lemma SendEnds(h: Host, p: seq<byte>, w: WriteResult)
    requires ValidQueue(h.q) && h.q.pending == []
    ensures SendPacket(h, p, w) == None <==> |p| + Specials(p) + 1 > CAPACITY || w == Failed
  {
    PacketOverflow(h.q, p);
    EncodeShape(p);
  }

  /** A pass ends the process in these ways and no other. */
  lemma PassEnds(addr: seq<byte>, h: Host, e: Event)
    requires Inv(addr, h)
    ensures Pass(addr, h, e) == None <==> Breaks(addr, h, e)
  {
    if e.arrived.Some? {
      ReceiveEnds(addr, h, e.arrived.value);
    }
    if e.delayOver && e.tun.Some? && h.q.pending == [] {
      var h1 := if e.arrived.Some? then Receive(addr, h, e.arrived.value) else Some(h);
      if h1.Some? && h1.value.q.pending == [] {
        SendEnds(h1.value, TunRead(e.tun.value), e.secondWrite);
      }
    }
  }

  /** A run ends early if and only if one of its passes does, in the state the passes before it left. */
  lemma {:induction false} PassesEnd(addr: seq<byte>, h: Host, es: seq<Event>)
    requires Inv(addr, h)
    ensures Passes(addr, h, es) == None
       <==> exists k :: 0 <= k < |es| && BreaksAt(addr, h, es, k)
    decreases |es|
  {
    if es != [] {
      PassEnds(addr, h, es[0]);
      assert BreaksAt(addr, h, es, 0) <==> Breaks(addr, h, es[0]);
      if !Breaks(addr, h, es[0]) {
        PassKeeps(addr, h, es[0]);
        var h' := Pass(addr, h, es[0]).value;
        PassesEnd(addr, h', es[1..]);
        forall k | 0 <= k < |es| - 1
          ensures BreaksAt(addr, h, es, k + 1) <==> BreaksAt(addr, h', es[1..], k)
        {
          BreaksNext(addr, h, es, k);
        }
        EndsLater(addr, h, es, h');
      }
    }
  }

  ghost predicate BreaksAt(addr: seq<byte>, h: Host, es: seq<Event>, k: nat)
    requires k < |es|
  {
    Passes(addr, h, es[..k]).Some? && Breaks(addr, Passes(addr, h, es[..k]).value, es[k])
  }

  lemma BreaksNext(addr: seq<byte>, h: Host, es: seq<Event>, k: nat)
    requires k < |es| - 1 && Pass(addr, h, es[0]).Some?
    ensures BreaksAt(addr, h, es, k + 1) <==> BreaksAt(addr, Pass(addr, h, es[0]).value, es[1..], k)
  {
    assert es[..k + 1][0] == es[0] && es[..k + 1][1..] == es[1..][..k];
  }

  lemma EndsLater(addr: seq<byte>, h: Host, es: seq<Event>, h': Host)
    requires es != [] && !BreaksAt(addr, h, es, 0)
    requires forall k :: 0 <= k < |es| - 1 ==> (BreaksAt(addr, h, es, k + 1) <==> BreaksAt(addr, h', es[1..], k))
    ensures (exists k :: 0 <= k < |es| && BreaksAt(addr, h, es, k))
       <==> exists k :: 0 <= k < |es| - 1 && BreaksAt(addr, h', es[1..], k)
  {
    if k :| 0 <= k < |es| && BreaksAt(addr, h, es, k) {
      assert BreaksAt(addr, h', es[1..], k - 1);
    }
  }

  /** Packets of up to 2000 bytes are taken whole, longer ones cut to 2000. */
  lemma TunWhole(p: seq<byte>)
    ensures |p| <= 2000 ==> TunRead(p) == p
    ensures |p| > 2000 ==> |TunRead(p)| == 2000 && TunRead(p) <= p
  {
  }

  /** How many bytes a pass gives to the line: none, or what one write accepts of what is queued. */
  lemma PassWrites(addr: seq<byte>, h: Host, e: Event, t: Host)
    requires Inv(addr, h) && Pass(addr, h, e) == Some(t)
    ensures var asks := if e.arrived.Some? then Run(CAPACITY, h.dec, e.arrived.value).asks else 0;
            |t.q.wire| - |h.q.wire|
            == if h.q.pending != [] then
                 (if e.writable && e.firstWrite.Wrote?
                  then Min(e.firstWrite.n, |h.q.pending| + |Replies(addr, asks)|) else 0)
               else if asks == 0 && e.delayOver && e.tun.Some? && e.secondWrite.Wrote? then
                 Min(e.secondWrite.n, |Encode(TunRead(e.tun.value))|)
               else 0
  {
    if e.arrived.Some? {
      ReceiveEnds(addr, h, e.arrived.value);
    }
    var h1 := if e.arrived.Some? then Receive(addr, h, e.arrived.value).value else h;
    if h.q.pending != [] {
      if e.writable {
        FlushWrites(h1.q, e.firstWrite);
      }
    } else if e.delayOver && e.tun.Some? && h1.q.pending == [] {
      EncodeShape(TunRead(e.tun.value));
      FlushWrites(h1.q.(pending := h1.q.pending + Encode(TunRead(e.tun.value))), e.secondWrite);
    }
  }

  lemma FlushWrites(q: Queue, w: WriteResult)
    requires Flush(q, w).Some? && q.pending != []
    ensures |Flush(q, w).value.wire| - |q.wire| == if w.Wrote? then Min(w.n, |q.pending|) else 0
  {
  }

  // ---------- The queue is drained, and the next packet taken ----------

  /** Nothing arrives, and write() takes its n bytes or what there is. */
  predicate Quiet(e: Event) {
    e.arrived == None && e.writable && e.firstWrite.Wrote?
  }

  function Accepted(es: seq<Event>): nat {
    if es == [] then 0
    else (if es[0].firstWrite.Wrote? then es[0].firstWrite.n else 0) + Accepted(es[1..])
  }

  /** Passes that write until n bytes are gone, and no longer. */
  ghost predicate Drain(es: seq<Event>, n: nat) {
    && (forall e :: e in es ==> Quiet(e))
    && Accepted(es) >= n && (es == [] || Accepted(es[..|es| - 1]) < n)
  }

  lemma DrainNext(es: seq<Event>, n: nat)
    requires Drain(es, n) && es != []
    ensures Quiet(es[0]) && n > 0
    ensures var k := es[0].firstWrite.n; Drain(es[1..], if k < n then n - k else 0)
  {
    assert es[0] in es;
    if |es| > 1 {
      assert es[..|es| - 1][0] == es[0] && es[..|es| - 1][1..] == es[1..][..|es| - 2];
    }
  }

  /** One quiet pass. */
  lemma QuietPass(addr: seq<byte>, h: Host, e: Event)
    requires ValidQueue(h.q) && h.q.pending != [] && Quiet(e)
    ensures var k := if e.firstWrite.n < |h.q.pending| then e.firstWrite.n else |h.q.pending|;
            && Pass(addr, h, e).Some? && ValidQueue(Pass(addr, h, e).value.q)
            && Pass(addr, h, e).value == h.(q := Pass(addr, h, e).value.q)
            && Pass(addr, h, e).value.q.wire == h.q.wire + h.q.pending[..k]
            && Pass(addr, h, e).value.q.pending == h.q.pending[k..]
  {
    FlushAdvances(h.q, e.firstWrite);
    FlushConserves(h.q, e.firstWrite);
  }

  /** When the write counts add up to the bytes queued, all of them are on the wire and nothing else has changed. */
  lemma {:induction false} Drains(addr: seq<byte>, h: Host, es: seq<Event>)
    requires ValidQueue(h.q) && Drain(es, |h.q.pending|)
    ensures Passes(addr, h, es) == Some(h.(q := Queue(0, [], h.q.wire + h.q.pending)))
    decreases |es|
  {
    if es == [] {
      assert h.q == Queue(0, [], h.q.wire + h.q.pending);
    } else {
      DrainNext(es, |h.q.pending|);
      QuietPass(addr, h, es[0]);
      var t := Pass(addr, h, es[0]).value;
      var k := if es[0].firstWrite.n < |h.q.pending| then es[0].firstWrite.n else |h.q.pending|;
      assert t.q.wire + t.q.pending == h.q.wire + h.q.pending by {
        ConcatAssoc(h.q.wire, h.q.pending[..k], h.q.pending[k..]);
        assert h.q.pending[..k] + h.q.pending[k..] == h.q.pending;
      }
      Drains(addr, t, es[1..]);
    }
  }

  /** A packet that fits, waiting when the queue is empty and the delay over. */
  predicate Offers(e: Event) {
    && e.arrived == None && e.delayOver && e.tun.Some? && e.secondWrite != Failed
    && |TunRead(e.tun.value)| + Specials(TunRead(e.tun.value)) + 1 <= CAPACITY
  }

  /** It is taken, encoded behind what was sent, and what the one write accepts of it is on the wire. */
  lemma Takes(addr: seq<byte>, h: Host, e: Event)
    requires Inv(addr, h) && h.q.pending == [] && Offers(e)
    ensures var p := TunRead(e.tun.value); var n := if e.secondWrite.Wrote? then e.secondWrite.n else 0;
            && Pass(addr, h, e).Some?
            && Pass(addr, h, e).value.log == h.log + [Packet(p)]
            && Pass(addr, h, e).value.q.wire == h.q.wire + Encode(p)[..Min(n, |Encode(p)|)]
            && Pass(addr, h, e).value.q.pending == Encode(p)[Min(n, |Encode(p)|)..]
  {
    var p := TunRead(e.tun.value);
    PassEnds(addr, h, e);
    EncodeShape(p);
    assert [] + Encode(p) == Encode(p);
    FlushAdvances(Queue(0, Encode(p), h.q.wire), e.secondWrite);
  }

  /** A packet taken, and passes that write the rest of it. */
  datatype Round = Round(take: Event, drain: seq<Event>)

  ghost predicate Carries(r: Round) {
    && Offers(r.take)
    && var size := |Encode(TunRead(r.take.tun.value))|;
       Drain(r.drain, size - Min(if r.take.secondWrite.Wrote? then r.take.secondWrite.n else 0, size))
  }

  function Events(rs: seq<Round>): seq<Event> {
    if rs == [] then [] else [rs[0].take] + rs[0].drain + Events(rs[1..])
  }

  function Packets(rs: seq<Round>): seq<Message> {
    if rs == [] then []
    else (if rs[0].take.tun.Some? then [Packet(TunRead(rs[0].take.tun.value))] else []) + Packets(rs[1..])
  }

  lemma {:induction false} PassesConcat(addr: seq<byte>, h: Host, a: seq<Event>, b: seq<Event>)
    ensures Passes(addr, h, a + b)
            == match Passes(addr, h, a) case None => None case Some(t) => Passes(addr, t, b)
    decreases |a|
  {
    if a == [] {
      assert a + b == b;
    } else {
      assert (a + b)[0] == a[0] && (a + b)[1..] == a[1..] + b;
      if Pass(addr, h, a[0]).Some? {
        PassesConcat(addr, Pass(addr, h, a[0]).value, a[1..], b);
      }
    }
  }

  lemma OneRound(addr: seq<byte>, h: Host, r: Round)
    requires Inv(addr, h) && h.q.pending == [] && Carries(r)
    ensures Passes(addr, h, [r.take] + r.drain).Some?
    ensures var t := Passes(addr, h, [r.take] + r.drain).value;
            Inv(addr, t) && t.q.pending == [] && t.log == h.log + [Packet(TunRead(r.take.tun.value))]
  {
    Takes(addr, h, r.take);
    PassKeeps(addr, h, r.take);
    var t := Pass(addr, h, r.take).value;
    assert ([r.take] + r.drain)[1..] == r.drain;
    Drains(addr, t, r.drain);
    PassesKeep(addr, t, r.drain);
  }

  /** Every packet of a list of rounds is taken, in order, and all of it sent. */
  lemma {:induction false} AllTaken(addr: seq<byte>, h: Host, rs: seq<Round>)
    requires Inv(addr, h) && h.q.pending == [] && forall r :: r in rs ==> Carries(r)
    ensures Passes(addr, h, Events(rs)).Some?
    ensures var t := Passes(addr, h, Events(rs)).value;
            Inv(addr, t) && t.q.pending == [] && t.log == h.log + Packets(rs)
    decreases |rs|
  {
    if rs == [] {
      assert h.log + Packets(rs) == h.log;
    } else {
      var r := rs[0];
      assert Carries(r);
      OneRound(addr, h, r);
      PassesConcat(addr, h, [r.take] + r.drain, Events(rs[1..]));
      var t := Passes(addr, h, [r.take] + r.drain).value;
      AllTaken(addr, t, rs[1..]);
      ConcatAssoc(h.log, [Packet(TunRead(r.take.tun.value))], Packets(rs[1..]));
    }
  }

  // ---------- Two hosts ----------

  lemma StartInv(addr: seq<byte>)
    ensures Inv(addr, START)
  {
  }

  /** The leading END is an empty frame to the peer. */
  lemma PeerDecodes(s: seq<byte>)
    ensures Run(CAPACITY, FRESH, [END] + s) == Run(CAPACITY, FRESH, s)
  {
  }

  lemma {:induction false} TrimShort(ps: seq<seq<byte>>)
    requires forall p :: p in ps ==> |p| < CAPACITY
    ensures Trim(ps) == NonEmpty(ps)
  {
    if ps != [] {
      assert ps[0] in ps;
      TrimShort(ps[1..]);
    }
  }

  /** What the bytes sent and queued by a host decode to: its non-empty messages, in order. */
  lemma StreamDecodes(addr: seq<byte>, h: Host)
    requires Inv(addr, h)
    ensures Run(CAPACITY, FRESH, h.q.wire + h.q.pending).frames == NonEmpty(Payloads(addr, h.log))
  {
    PeerDecodes(EncodeAll(Payloads(addr, h.log)));
    EncodeThenDecode(Payloads(addr, h.log));
    TrimShort(Payloads(addr, h.log));
  }

  /**
   End to end: two hosts joined by a line that keeps order, with any packets, any
   prefix requests, any partial or refused writes and any chunking of reads on
   both sides.  What b has decoded is always the beginning of a's messages, whole,
   unaltered and in order, and all of them once the line and a's queue are drained.
   */
  lemma EndToEnd(addrA: seq<byte>, addrB: seq<byte>, esA: seq<Event>, esB: seq<Event>)
    requires Passes(addrA, START, esA).Some? && Passes(addrB, START, esB).Some?
    requires Passes(addrB, START, esB).value.input <= Passes(addrA, START, esA).value.q.wire
    ensures var a := Passes(addrA, START, esA).value; var b := Passes(addrB, START, esB).value;
            && b.frames <= NonEmpty(Payloads(addrA, a.log))
            && (b.input == a.q.wire && a.q.pending == [] ==> b.frames == NonEmpty(Payloads(addrA, a.log)))
  {
    StartInv(addrA);
    StartInv(addrB);
    PassesKeep(addrA, START, esA);
    PassesKeep(addrB, START, esB);
    var a, b := Passes(addrA, START, esA).value, Passes(addrB, START, esB).value;
    StreamDecodes(addrA, a);
    assert b.input <= a.q.wire + a.q.pending;
    DecodePrefix(CAPACITY, FRESH, b.input, a.q.wire + a.q.pending);
    if a.q.pending == [] {
      assert a.q.wire + a.q.pending == a.q.wire;
    }
  }

  /**
   Every message arrives: after any run of a, the line takes what is queued and then one
   packet after another, over any number of partial writes; a peer that has read all of
   it has decoded all of a's messages, those packets among them.
   */
  lemma EveryMessageArrives(addrA: seq<byte>, addrB: seq<byte>, esA: seq<Event>, es: seq<Event>, rs: seq<Round>,
                            esB: seq<Event>)
    requires Passes(addrA, START, esA).Some? && Passes(addrB, START, esB).Some?
    requires Drain(es, |Passes(addrA, START, esA).value.q.pending|) && forall r :: r in rs ==> Carries(r)
    ensures var a := Passes(addrA, START, esA).value; var end := Passes(addrA, START, esA + es + Events(rs));
            && end.Some? && end.value.q.pending == []
            && (var b := Passes(addrB, START, esB).value;
                b.input == end.value.q.wire ==> b.frames == NonEmpty(Payloads(addrA, a.log + Packets(rs))))
  {
    var a := Passes(addrA, START, esA).value;
    StartInv(addrA);
    PassesKeep(addrA, START, esA);
    Drains(addrA, a, es);
    PassesKeep(addrA, a, es);
    var d := Passes(addrA, a, es).value;
    AllTaken(addrA, d, rs);
    PassesConcat(addrA, START, esA, es);
    PassesConcat(addrA, START, esA + es, Events(rs));
    var end := Passes(addrA, START, esA + es + Events(rs)).value;
    if Passes(addrB, START, esB).value.input == end.q.wire {
      EndToEnd(addrA, addrB, esA + es + Events(rs), esB);
    }
  }
}
