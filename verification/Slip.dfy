/**
 SLIP framing as tunslip6 speaks it (section "PROTOCOL" of RFC 1055), on values:
 the encoder, the byte-by-byte decoder with its buffer limit, and the laws that
 relate them.  Module Tunslip proves the array code against these functions.
 */
module Slip {
  import opened Bytes

  const END: byte := 0xC0
  const ESC: byte := 0xDB
  const ESC_END: byte := 0xDC
  const ESC_ESC: byte := 0xDD
  const QUESTION: byte := 63
  const LETTER_P: byte := 80

  /** sizeof(uip.inbuf) and sizeof(slip_buf). */
  const CAPACITY := 2000

  // ---------- Encoder ----------

  function StuffByte(c: byte): seq<byte> {
    if c == END then [ESC, ESC_END] else if c == ESC then [ESC, ESC_ESC] else [c]
  }

  function Stuff(p: seq<byte>): seq<byte> {
    if p == [] then [] else StuffByte(p[0]) + Stuff(p[1..])
  }

  function Encode(p: seq<byte>): seq<byte> {
    Stuff(p) + [END]
  }

  function EncodeAll(ps: seq<seq<byte>>): seq<byte> {
    if ps == [] then [] else Encode(ps[0]) + EncodeAll(ps[1..])
  }

  /** How many bytes of p need stuffing. */
  function Specials(p: seq<byte>): nat {
    if p == [] then 0 else (if p[0] == END || p[0] == ESC then 1 else 0) + Specials(p[1..])
  }

  /** Stuffing adds one byte per special byte and leaves no END inside the frame. */
  lemma {:induction false} StuffShape(p: seq<byte>)
    ensures |Stuff(p)| == |p| + Specials(p)
    ensures END !in Stuff(p)
  {
    if p != [] {
      StuffShape(p[1..]);
    }
  }

  lemma EncodeShape(p: seq<byte>)
    ensures |Encode(p)| == |p| + Specials(p) + 1
    ensures forall k :: 0 <= k < |Encode(p)| ==> (Encode(p)[k] == END <==> k == |Encode(p)| - 1)
  {
    StuffShape(p);
  }

  /** The bytes on the line, as RFC 1055 numbers them: END is 192, ESC 219, and 220 and 221 stand for them. */
  lemma WireFormat(c: byte)
    ensures Encode([c]) == if c == 192 then [219, 220, 192] else if c == 219 then [219, 221, 192] else [c, 192]
  {
    assert Stuff([c]) == StuffByte(c) + Stuff([c][1..]) == StuffByte(c);
  }

  lemma {:induction false} StuffAppend(p: seq<byte>, c: byte)
    ensures Stuff(p + [c]) == Stuff(p) + StuffByte(c)
  {
    if p == [] {
      assert (p + [c])[1..] == [];
    } else {
      StuffAppend(p[1..], c);
      assert (p + [c])[1..] == p[1..] + [c];
    }
  }

  lemma {:induction false} EncodeAllConcat(a: seq<seq<byte>>, b: seq<seq<byte>>)
    ensures EncodeAll(a + b) == EncodeAll(a) + EncodeAll(b)
  {
    if a == [] {
      assert a + b == b;
    } else {
      assert (a + b)[0] == a[0] && (a + b)[1..] == a[1..] + b;
      EncodeAllConcat(a[1..], b);
      ConcatAssoc(Encode(a[0]), EncodeAll(a[1..]), EncodeAll(b));
    }
  }

  lemma {:induction false} StuffConcat(a: seq<byte>, b: seq<byte>)
    ensures Stuff(a + b) == Stuff(a) + Stuff(b)
  {
    if a == [] {
      assert a + b == b;
    } else {
      assert (a + b)[0] == a[0] && (a + b)[1..] == a[1..] + b;
      StuffConcat(a[1..], b);
      ConcatAssoc(StuffByte(a[0]), Stuff(a[1..]), Stuff(b));
    }
  }

  // ---------- Decoder ----------

  /**
   The decoder between two bytes: the accumulated frame, whether an ESC waits for
   its second byte, and the byte in slot 1 of the buffer, which survives the frame
   that stored it.
   */
  datatype Decoder = Decoder(buf: seq<byte>, esc: bool, second: byte)

  /** Where a piece of input leaves the decoder, the frames it completed and the prefix requests among them. */
  datatype Output = Output(dec: Decoder, frames: seq<seq<byte>>, asks: nat)

  const FRESH := Decoder([], false, 0)

  function Unescape(c: byte): byte {
    if c == ESC_END then END else if c == ESC_ESC then ESC else c
  }

  /** Appends c; a buffer that reaches the limit is dropped.  Limit 0 means no limit. */
  function Store(limit: nat, d: Decoder, c: byte): Decoder {
    var b := d.buf + [c];
    Decoder(if |b| == limit then [] else b, false, if |b| == 2 then c else d.second)
  }

  /** The test serial_to_tun applies to a finished frame: slot 0 is '?' and slot 1, possibly stale, is 'P'. */
  predicate AsksPrefix(d: Decoder)
    requires d.buf != []
  {
    d.buf[0] == QUESTION && d.second == LETTER_P
  }

  function Step(limit: nat, d: Decoder, c: byte): Output {
    if d.esc then Output(Store(limit, d, Unescape(c)), [], 0)
    else if c == END then
      if d.buf == [] then Output(d, [], 0)
      else Output(d.(buf := []), [d.buf], if AsksPrefix(d) then 1 else 0)
    else if c == ESC then Output(d.(esc := true), [], 0)
    else Output(Store(limit, d, c), [], 0)
  }

  /** Sequential composition of outputs. */
  function Then(first: Output, rest: Output): Output {
    Output(rest.dec, first.frames + rest.frames, first.asks + rest.asks)
  }

  lemma ThenAssoc(a: Output, b: Output, c: Output)
    ensures Then(a, Then(b, c)) == Then(Then(a, b), c)
  {
  }

  lemma ThenUnit(d: Decoder, o: Output)
    ensures Then(Output(d, [], 0), o) == o
  {
  }

  function Run(limit: nat, d: Decoder, s: seq<byte>): Output
    decreases |s|
  {
    if s == [] then Output(d, [], 0)
    else
      var o := Step(limit, d, s[0]);
      Then(o, Run(limit, o.dec, s[1..]))
  }

  /** Running on a stream that was cut anywhere is running on its pieces. */
  lemma {:induction false} RunConcat(limit: nat, d: Decoder, a: seq<byte>, b: seq<byte>)
    ensures Run(limit, d, a + b) == Then(Run(limit, d, a), Run(limit, Run(limit, d, a).dec, b))
    decreases |a|
  {
    if a == [] {
      assert a + b == b;
      ThenUnit(d, Run(limit, d, b));
    } else {
      var o := Step(limit, d, a[0]);
      var r := Run(limit, o.dec, a[1..]);
      assert a + b == [a[0]] + (a[1..] + b);
      RunCons(limit, d, a[0], a[1..] + b);
      RunConcat(limit, o.dec, a[1..], b);
      ThenAssoc(o, r, Run(limit, r.dec, b));
    }
  }

  lemma RunCons(limit: nat, d: Decoder, c: byte, s: seq<byte>)
    ensures Run(limit, d, [c] + s) == Then(Step(limit, d, c), Run(limit, Step(limit, d, c).dec, s))
  {
  }

  /** Calls on successive chunks, each resuming where the previous one stopped. */
  function RunChunks(limit: nat, d: Decoder, chunks: seq<seq<byte>>): Output
    decreases |chunks|
  {
    if chunks == [] then Output(d, [], 0)
    else
      var o := Run(limit, d, chunks[0]);
      Then(o, RunChunks(limit, o.dec, chunks[1..]))
  }

  /** Resumability: however the stream is chunked, also right after an ESC, the frames and the leftover state agree. */
  lemma {:induction false} Resumable(limit: nat, d: Decoder, chunks: seq<seq<byte>>)
    ensures RunChunks(limit, d, chunks) == Run(limit, d, Flatten(chunks))
    decreases |chunks|
  {
    if chunks != [] {
      RunConcat(limit, d, chunks[0], Flatten(chunks[1..]));
      Resumable(limit, Run(limit, d, chunks[0]).dec, chunks[1..]);
    }
  }

  /** Every decoded frame is non-empty and below the limit; the accumulated buffer stays below it. */
  lemma {:induction false} FrameBounds(limit: nat, d: Decoder, s: seq<byte>)
    requires limit > 0 && |d.buf| < limit
    ensures |Run(limit, d, s).dec.buf| < limit
    ensures forall f :: f in Run(limit, d, s).frames ==> 0 < |f| < limit
    decreases |s|
  {
    if s != [] {
      FrameBounds(limit, Step(limit, d, s[0]).dec, s[1..]);
    }
  }

  // ---------- What the limit does ----------

  /** The last |s| mod 2000 bytes of s. */
  function Wrap(s: seq<byte>): (w: seq<byte>)
    ensures |w| < CAPACITY
  {
    s[|s| - |s| % CAPACITY..]
  }

  /** The wrapped frames, without those that wrap to nothing. */
  function Trim(fs: seq<seq<byte>>): seq<seq<byte>> {
    if fs == [] then []
    else (if Wrap(fs[0]) == [] then [] else [Wrap(fs[0])]) + Trim(fs[1..])
  }

  lemma WrapStore(b: seq<byte>, c: byte)
    ensures Wrap(b + [c]) == if |Wrap(b)| + 1 == CAPACITY then [] else Wrap(b) + [c]
  {
  }

  lemma TrimSingle(f: seq<byte>)
    ensures Trim([f]) == if Wrap(f) == [] then [] else [Wrap(f)]
    ensures Wrap([]) == []
  {
  }

  lemma {:induction false} TrimConcat(a: seq<seq<byte>>, b: seq<seq<byte>>)
    ensures Trim(a + b) == Trim(a) + Trim(b)
  {
    if a == [] {
      assert a + b == b;
    } else {
      TrimConcat(a[1..], b);
      assert (a + b)[0] == a[0] && (a + b)[1..] == a[1..] + b;
      var kept := if Wrap(a[0]) == [] then [] else [Wrap(a[0])];
      ConcatAssoc(kept, Trim(a[1..]), Trim(b));
    }
  }

  lemma OverflowStep(d: Decoder, u: Decoder, c: byte)
    requires d.buf == Wrap(u.buf) && d.esc == u.esc
    ensures var od, ou := Step(CAPACITY, d, c), Step(0, u, c);
            od.dec.buf == Wrap(ou.dec.buf) && od.dec.esc == ou.dec.esc && od.frames == Trim(ou.frames)
  {
    if d.esc {
      WrapStore(u.buf, Unescape(c));
    } else if c == END {
      TrimSingle(u.buf);
    } else if c != ESC {
      WrapStore(u.buf, c);
    }
  }

  /**
   The exact overflow law, for every byte stream: the decoder with the 2000-byte
   buffer yields the frames of the unlimited decoder, each cut down to its last
   length-mod-2000 bytes, and loses those whose length is a multiple of 2000.
   */
  lemma {:induction false} OverflowLaw(d: Decoder, u: Decoder, s: seq<byte>)
    requires d.buf == Wrap(u.buf) && d.esc == u.esc
    ensures Run(CAPACITY, d, s).frames == Trim(Run(0, u, s).frames)
    ensures Run(CAPACITY, d, s).dec.buf == Wrap(Run(0, u, s).dec.buf)
    ensures Run(CAPACITY, d, s).dec.esc == Run(0, u, s).dec.esc
    decreases |s|
  {
    if s != [] {
      var od, ou := Step(CAPACITY, d, s[0]), Step(0, u, s[0]);
      OverflowStep(d, u, s[0]);
      OverflowLaw(od.dec, ou.dec, s[1..]);
      TrimConcat(ou.frames, Run(0, ou.dec, s[1..]).frames);
    }
  }

  // ---------- Round trips ----------

  lemma RunStuffByte(d: Decoder, c: byte)
    requires !d.esc
    ensures Run(0, d, StuffByte(c)) == Output(Store(0, d, c), [], 0)
  {
    if c == END || c == ESC {
      var x := StuffByte(c)[1];
      assert StuffByte(c) == [ESC] + [x] && [x] == [x] + [];
      RunCons(0, d, ESC, [x]);
      RunCons(0, d.(esc := true), x, []);
    } else {
      RunCons(0, d, c, []);
      assert StuffByte(c) == [c] + [];
    }
  }

  /** Without a limit, a stuffed payload only extends the buffer. */
  lemma {:induction false} RunStuff(d: Decoder, p: seq<byte>)
    requires !d.esc
    ensures Run(0, d, Stuff(p)).frames == []
    ensures Run(0, d, Stuff(p)).dec.buf == d.buf + p
    ensures !Run(0, d, Stuff(p)).dec.esc
    decreases |p|
  {
    if p == [] {
    } else {
      var c, rest := p[0], p[1..];
      var d1 := Store(0, d, c);
      RunStuff(d1, rest);
      var r := Run(0, d1, Stuff(rest));
      assert Run(0, d, Stuff(p)) == r by {
        RunStuffByte(d, c);
        RunConcat(0, d, StuffByte(c), Stuff(rest));
        ThenUnit(d1, r);
      }
      assert d1.buf + rest == d.buf + p by {
        assert p == [c] + rest;
        ConcatAssoc(d.buf, [c], rest);
      }
    }
  }

  function NonEmpty(ps: seq<seq<byte>>): seq<seq<byte>> {
    if ps == [] then [] else (if ps[0] == [] then [] else [ps[0]]) + NonEmpty(ps[1..])
  }

  lemma {:induction false} NonEmptyConcat(a: seq<seq<byte>>, b: seq<seq<byte>>)
    ensures NonEmpty(a + b) == NonEmpty(a) + NonEmpty(b)
  {
    if a == [] {
      assert a + b == b;
    } else {
      NonEmptyConcat(a[1..], b);
      assert (a + b)[0] == a[0] && (a + b)[1..] == a[1..] + b;
      var kept := if a[0] == [] then [] else [a[0]];
      ConcatAssoc(kept, NonEmpty(a[1..]), NonEmpty(b));
    }
  }

  lemma RunEncode(d: Decoder, p: seq<byte>)
    requires d.buf == [] && !d.esc
    ensures var o := Run(0, d, Encode(p)); o.frames == NonEmpty([p]) && o.dec.buf == [] && !o.dec.esc
  {
    RunStuff(d, p);
    var m := Run(0, d, Stuff(p));
    assert d.buf + p == p;
    RunConcat(0, d, Stuff(p), [END]);
    RunCons(0, m.dec, END, []);
    assert [END] == [END] + [] && [p][1..] == [];
    assert NonEmpty([p]) == if p == [] then [] else [p];
  }

  /** Without a limit, decoding an encoding gives back the packets; empty ones leave no frame. */
  lemma {:induction false} UnlimitedRoundTrip(d: Decoder, ps: seq<seq<byte>>)
    requires d.buf == [] && !d.esc
    ensures var o := Run(0, d, EncodeAll(ps)); o.frames == NonEmpty(ps) && o.dec.buf == [] && !o.dec.esc
    decreases |ps|
  {
    if ps != [] {
      var p := ps[0];
      RunEncode(d, p);
      RunConcat(0, d, Encode(p), EncodeAll(ps[1..]));
      NonEmptyConcat([p], ps[1..]);
      assert ps == [p] + ps[1..];
      UnlimitedRoundTrip(Run(0, d, Encode(p)).dec, ps[1..]);
    }
  }

  lemma {:induction false} TrimNonEmpty(ps: seq<seq<byte>>)
    ensures Trim(NonEmpty(ps)) == Trim(ps)
  {
    if ps != [] {
      TrimNonEmpty(ps[1..]);
      if ps[0] != [] {
        assert ([ps[0]] + NonEmpty(ps[1..]))[1..] == NonEmpty(ps[1..]);
      } else {
        assert [] + NonEmpty(ps[1..]) == NonEmpty(ps[1..]);
      }
    }
  }

  /** With the 2000-byte buffer, decoding the encodings of any packets gives their last length-mod-2000 bytes. */
  lemma EncodeThenDecode(ps: seq<seq<byte>>)
    ensures var o := Run(CAPACITY, FRESH, EncodeAll(ps)); o.frames == Trim(ps) && o.dec.buf == [] && !o.dec.esc
  {
    UnlimitedRoundTrip(FRESH, ps);
    OverflowLaw(FRESH, FRESH, EncodeAll(ps));
    TrimNonEmpty(ps);
  }

  lemma WrapShort(p: seq<byte>)
    ensures Wrap(p) == p <==> |p| < CAPACITY
  {
  }

  lemma {:induction false} TrimLength(ps: seq<seq<byte>>)
    ensures |Trim(ps)| <= |ps|
    ensures Trim(ps) == ps <==> forall p :: p in ps ==> 0 < |p| < CAPACITY
  {
    if ps != [] {
      var p, rest := ps[0], ps[1..];
      TrimLength(rest);
      WrapShort(p);
      assert ps == [p] + rest;
      if Wrap(p) == [] {
        assert Trim(ps) == Trim(rest);
        assert p in ps;
      } else {
        assert Trim(ps) == [Wrap(p)] + Trim(rest);
        assert Trim(ps)[0] == Wrap(p) && Trim(ps)[1..] == Trim(rest);
      }
    }
  }

  /** The round trip is the identity exactly on packets of 1 to 1999 bytes. */
  lemma RoundTripExactly(ps: seq<seq<byte>>)
    ensures Run(CAPACITY, FRESH, EncodeAll(ps)).frames == ps <==> forall p :: p in ps ==> 0 < |p| < CAPACITY
  {
    EncodeThenDecode(ps);
    TrimLength(ps);
  }

  /** Re-encoding whatever was decoded, from any byte stream, decodes to the same frames. */
  lemma DecodeEncodeDecode(s: seq<byte>)
    ensures var fs := Run(CAPACITY, FRESH, s).frames; Run(CAPACITY, FRESH, EncodeAll(fs)).frames == fs
  {
    FrameBounds(CAPACITY, FRESH, s);
    RoundTripExactly(Run(CAPACITY, FRESH, s).frames);
  }

  /** What a receiver has decoded from part of a stream is the beginning of what the whole stream decodes to. */
  lemma DecodePrefix(limit: nat, d: Decoder, a: seq<byte>, s: seq<byte>)
    requires a <= s
    ensures Run(limit, d, a).frames <= Run(limit, d, s).frames
  {
    assert s == a + s[|a|..];
    RunConcat(limit, d, a, s[|a|..]);
  }

  // ---------- Prefix requests ----------

  /** Frames that begin with "?P". */
  function Requests(fs: seq<seq<byte>>): nat {
    if fs == [] then 0
    else (if |fs[0]| >= 2 && fs[0][0] == QUESTION && fs[0][1] == LETTER_P then 1 else 0) + Requests(fs[1..])
  }

  /**
   Slot 1 of the 2000-byte buffer when the bytes f of a frame have been stored, given
   what it held before: the last byte stored there, in this round or the round before.
   */
  function Slot(f: seq<byte>, second: byte): byte {
    var r := |f| % CAPACITY;
    if r >= 2 then f[|f| - r + 1] else if |f| >= CAPACITY then f[|f| - r - CAPACITY + 1] else second
  }

  /** The test of serial_to_tun on the whole frame f: what is left of it begins with '?', and slot 1 holds 'P'. */
  predicate IsAnswered(f: seq<byte>, second: byte) {
    Wrap(f) != [] && Wrap(f)[0] == QUESTION && Slot(f, second) == LETTER_P
  }

  function Answered(fs: seq<seq<byte>>, second: byte): nat {
    if fs == [] then 0
    else (if IsAnswered(fs[0], second) then 1 else 0) + Answered(fs[1..], Slot(fs[0], second))
  }

  lemma SlotStore(b: seq<byte>, c: byte, second: byte)
    ensures Slot(b + [c], second) == if |Wrap(b)| == 1 then c else Slot(b, second)
  {
  }

  lemma SecondStep(d: Decoder, u: Decoder, second: byte, c: byte)
    requires d.buf == Wrap(u.buf) && d.second == Slot(u.buf, second)
    ensures Store(CAPACITY, d, c).second == Slot(Store(0, u, c).buf, second)
  {
    SlotStore(u.buf, c, second);
  }

  lemma AnsweredCons(f: seq<byte>, fs: seq<seq<byte>>, second: byte)
    ensures Answered([f] + fs, second) == (if IsAnswered(f, second) then 1 else 0) + Answered(fs, Slot(f, second))
  {
    assert ([f] + fs)[1..] == fs;
  }

  /** The answers of the decoder with its 2000-byte buffer, from the frames of the unlimited one, on any stream. */
  lemma {:induction false} AnswerLaw(d: Decoder, u: Decoder, second: byte, s: seq<byte>)
    requires d.buf == Wrap(u.buf) && d.esc == u.esc && d.second == Slot(u.buf, second)
    ensures Run(CAPACITY, d, s).asks == Answered(Run(0, u, s).frames, second)
    decreases |s|
  {
    if s != [] {
      var od, ou := Step(CAPACITY, d, s[0]), Step(0, u, s[0]);
      var rest := Run(0, ou.dec, s[1..]).frames;
      OverflowStep(d, u, s[0]);
      if ou.frames != [] {
        AnswerLaw(od.dec, ou.dec, Slot(u.buf, second), s[1..]);
        AnsweredCons(u.buf, rest, second);
      } else {
        if d.esc || s[0] != END {
          SecondStep(d, u, second, if d.esc then Unescape(s[0]) else s[0]);
        }
        AnswerLaw(od.dec, ou.dec, second, s[1..]);
        assert ou.frames + rest == rest;
      }
    }
  }

  /** What slot 1 holds when frame k ends. */
  function SlotAt(fs: seq<seq<byte>>, second: byte, k: nat): byte
    requires k < |fs|
    decreases k
  {
    if k == 0 then Slot(fs[0], second) else SlotAt(fs[1..], Slot(fs[0], second), k - 1)
  }

  /** Frame k ends as a lone '?' while slot 1 holds a 'P' it did not bring. */
  ghost predicate StaleAt(fs: seq<seq<byte>>, second: byte, k: nat) {
    k < |fs| && Wrap(fs[k]) == [QUESTION] && SlotAt(fs, second, k) == LETTER_P
  }

  lemma StaleCons(f: seq<byte>, fs: seq<seq<byte>>, second: byte)
    ensures (exists k: nat :: StaleAt([f] + fs, second, k))
       <==> (Wrap(f) == [QUESTION] && Slot(f, second) == LETTER_P) || exists k: nat :: StaleAt(fs, Slot(f, second), k)
  {
    var all := [f] + fs;
    assert all[1..] == fs;
    assert forall k: nat :: StaleAt(all, second, k + 1) <==> StaleAt(fs, Slot(f, second), k);
    if exists k: nat :: StaleAt(all, second, k) {
      var k: nat :| StaleAt(all, second, k);
      assert k > 0 ==> StaleAt(fs, Slot(f, second), k - 1);
    }
    if k: nat :| StaleAt(fs, Slot(f, second), k) {
      assert StaleAt(all, second, k + 1);
    } else if Wrap(f) == [QUESTION] && Slot(f, second) == LETTER_P {
      assert StaleAt(all, second, 0);
    }
  }

  lemma RequestsCons(f: seq<byte>, fs: seq<seq<byte>>)
    ensures Requests([f] + fs)
            == (if |f| >= 2 && f[0] == QUESTION && f[1] == LETTER_P then 1 else 0) + Requests(fs)
  {
  }

  lemma {:induction false} StaleExactly(fs: seq<seq<byte>>, second: byte)
    ensures Answered(fs, second) >= Requests(Trim(fs))
    ensures Answered(fs, second) == Requests(Trim(fs)) <==> !exists k: nat :: StaleAt(fs, second, k)
  {
    if fs != [] {
      var f, rest := fs[0], fs[1..];
      StaleExactly(rest, Slot(f, second));
      StaleCons(f, rest, second);
      assert [f] + rest == fs;
      if Wrap(f) == [] {
        assert Trim(fs) == Trim(rest);
      } else {
        RequestsCons(Wrap(f), Trim(rest));
      }
    }
  }

  /**
   From every state of the decoder, and u is that state without the limit: every frame
   "?P..." is answered, and no other frame is if and only if no frame ends as a lone
   '?' while slot 1 holds a 'P'.
   */
  lemma AnswersRequests(d: Decoder, u: Decoder, second: byte, s: seq<byte>)
    requires d.buf == Wrap(u.buf) && d.esc == u.esc && d.second == Slot(u.buf, second)
    ensures var o, fs := Run(CAPACITY, d, s), Run(0, u, s).frames;
            && o.asks == Answered(fs, second) && o.asks >= Requests(o.frames)
            && (o.asks == Requests(o.frames) <==> !exists k: nat :: StaleAt(fs, second, k))
  {
    AnswerLaw(d, u, second, s);
    OverflowLaw(d, u, s);
    StaleExactly(Run(0, u, s).frames, second);
  }

  /** The lone '?' is answered exactly when slot 1 still holds a 'P' from an earlier frame. */
  lemma LoneQuestion(limit: nat, d: Decoder)
    requires d.buf == [] && !d.esc && limit != 1
    ensures Run(limit, d, [QUESTION, END]) == Output(d, [[QUESTION]], if d.second == LETTER_P then 1 else 0)
  {
    RunCons(limit, d, QUESTION, [END]);
    var d1 := Store(limit, d, QUESTION);
    assert d1 == Decoder([QUESTION], false, d.second);
    RunCons(limit, d1, END, []);
    assert [QUESTION, END] == [QUESTION] + [END] && [END] == [END] + [];
  }

  /** An escaped byte other than 220 and 221 stands for itself. */
  lemma ReadEscaped(c: byte)
    ensures Run(CAPACITY, FRESH, [219, c]).dec.buf == [if c == 220 then 192 else if c == 221 then 219 else c]
  {
    assert [219, c] == [ESC] + [c] && [c] == [c] + [];
    RunCons(CAPACITY, FRESH, ESC, [c]);
    RunCons(CAPACITY, FRESH.(esc := true), c, []);
  }

  /** The request itself, '?' 'P' END, is answered. */
  lemma PlainRequest()
    ensures var o := Run(CAPACITY, FRESH, [63, 80, 192]); o.frames == [[63, 80]] && o.asks == 1
  {
    RunThree(FRESH, QUESTION, LETTER_P, END);
    assert Store(CAPACITY, FRESH, QUESTION) == Decoder([63], false, 0);
    assert Store(CAPACITY, Decoder([63], false, 0), LETTER_P) == Decoder([63, 80], false, LETTER_P);
  }

  /** So a request is answered that nobody made: 'x' 'P' END '?' END. */
  lemma StaleRequest()
    ensures var o := Run(CAPACITY, FRESH, [120, LETTER_P, END] + [QUESTION, END]);
            o.frames == [[120, LETTER_P], [QUESTION]] && Requests(o.frames) == 0 && o.asks == 1
  {
    RunConcat(CAPACITY, FRESH, [120, LETTER_P, END], [QUESTION, END]);
    RunThree(FRESH, 120, LETTER_P, END);
    assert Store(CAPACITY, FRESH, 120) == Decoder([120], false, 0);
    assert Store(CAPACITY, Decoder([120], false, 0), LETTER_P) == Decoder([120, LETTER_P], false, LETTER_P);
    var first := Output(Decoder([], false, LETTER_P), [[120, LETTER_P]], 0);
    assert Run(CAPACITY, FRESH, [120, LETTER_P, END]) == first;
    assert [[120, LETTER_P]] + [[QUESTION]] == [[120, LETTER_P], [QUESTION]];
    LoneQuestion(CAPACITY, Decoder([], false, LETTER_P));
    assert Requests([[120, LETTER_P], [QUESTION]]) == 0 by {
      assert [[120, LETTER_P], [QUESTION]][1..] == [[QUESTION]] && [[QUESTION]][1..] == [];
    }
  }

  lemma RunThree(d: Decoder, x: byte, y: byte, z: byte)
    ensures var ox := Step(CAPACITY, d, x); var oy := Step(CAPACITY, ox.dec, y); var oz := Step(CAPACITY, oy.dec, z);
            Run(CAPACITY, d, [x, y, z])
            == Output(oz.dec, ox.frames + oy.frames + oz.frames, ox.asks + oy.asks + oz.asks)
  {
    var ox := Step(CAPACITY, d, x);
    var oy := Step(CAPACITY, ox.dec, y);
    assert [x, y, z] == [x] + [y, z] && [y, z] == [y] + [z] && [z] == [z] + [];
    RunCons(CAPACITY, d, x, [y, z]);
    RunCons(CAPACITY, ox.dec, y, [z]);
    RunCons(CAPACITY, oy.dec, z, []);
  }
}
