/**
 scat's SLIP decoder, written independently of tunslip6's as nested loops over
 getc, and the proof that the two decoders agree.
 */
module Scat {
  import opened Bytes
  import opened Slip

  const EOF := -1

  /** The payload bytes of a stream, framing forgotten; esc says whether an ESC came just before it. */
  function Payload(esc: bool, s: seq<byte>): seq<byte>
    decreases |s|
  {
    if s == [] then []
    else if esc then [Unescape(s[0])] + Payload(false, s[1..])
    else if s[0] == END then Payload(false, s[1..])
    else if s[0] == ESC then Payload(true, s[1..])
    else [s[0]] + Payload(false, s[1..])
  }

  /** getc on a line that delivers s and then ends, having delivered s[..k]. */
  function Getc(s: seq<byte>, k: nat): (r: (int, nat))
    requires k <= |s|
    ensures EOF <= r.0 < 256 && k <= r.1 <= |s|
  {
    if k < |s| then (s[k], k + 1) else (EOF, k)
  }

  /** The payload still to be printed when the last getc gave c and left s[k..]. */
  ghost function Rest(esc: bool, c: int, s: seq<byte>, k: nat): seq<byte>
    requires k <= |s| && EOF <= c < 256
  {
    if c == EOF then [] else Payload(esc, [c] + s[k..])
  }

  lemma RestGetc(esc: bool, s: seq<byte>, k: nat)
    requires k <= |s|
    ensures var (c, j) := Getc(s, k); Rest(esc, c, s, j) == Payload(esc, s[k..])
  {
  }

  lemma PayloadCons(esc: bool, c: byte, s: seq<byte>)
    ensures Payload(esc, [c] + s)
            == if esc then [Unescape(c)] + Payload(false, s)
               else if c == END then Payload(false, s)
               else if c == ESC then Payload(true, s)
               else [c] + Payload(false, s)
  {
  }

  /** scat's main loop: the payload bytes it prints before the line ends, which stops it with an error. */
  method PrintPayload(s: seq<byte>) returns (out: seq<byte>)
    ensures out == Payload(false, s)
  {
    out := [];
    var k: nat := 0;
    assert s[0..] == s;
    while true
      invariant k <= |s| && Payload(false, s) == out + Payload(false, s[k..])
      decreases |s| - k
    {
      ghost var start := k;
      RestGetc(false, s, k);
      var (c, j) := Getc(s, k);
      k := j;
      while c == END
        invariant EOF <= c < 256 && start <= k <= |s| && (c == EOF || start < k)
        invariant Payload(false, s) == out + Rest(false, c, s, k)
        decreases |s| - k, if c == EOF then 0 else 1
      {
        PayloadCons(false, END, s[k..]);
        RestGetc(false, s, k);
        var r := Getc(s, k);
        c, k := r.0, r.1;
      }
      while true
        invariant EOF <= c < 256 && start <= k <= |s| && (c == EOF || start < k) && c != END
        invariant Payload(false, s) == out + Rest(false, c, s, k)
        decreases |s| - k, if c == EOF then 0 else 1
      {
        if c == ESC {
          PayloadCons(false, ESC, s[k..]);
          RestGetc(true, s, k);
          var r := Getc(s, k);
          c, k := r.0, r.1;
          if c != EOF {
            PayloadCons(true, c, s[k..]);
          }
          if c == ESC_ESC {
            c := ESC;
          } else if c == ESC_END {
            c := END;
          }
        } else if c != EOF {
          PayloadCons(false, c, s[k..]);
        }
        if c == EOF {
          return;
        }
        ConcatAssoc(out, [c], Payload(false, s[k..]));
        out := out + [c];
        RestGetc(false, s, k);
        var r := Getc(s, k);
        c, k := r.0, r.1;
        if c == END {
          PayloadCons(false, END, s[k..]);
          break;
        }
      }
    }
  }

  /** One byte moves payload from the stream to the buffer, or from the buffer to a frame. */
  lemma StepPayload(d: Decoder, c: byte, s: seq<byte>)
    ensures var o := Step(0, d, c);
            Flatten(o.frames) + (o.dec.buf + Payload(o.dec.esc, s)) == d.buf + Payload(d.esc, [c] + s)
  {
    var o := Step(0, d, c);
    PayloadCons(d.esc, c, s);
    if o.frames != [] {
      FlattenSingle(d.buf);
      assert [] + Payload(false, s) == Payload(false, s);
    } else {
      var stored := if d.esc then Unescape(c) else c;
      ConcatAssoc(d.buf, [stored], Payload(false, s));
      assert forall t: seq<byte> :: Flatten<byte>([]) + t == t;
    }
  }

  /** The unlimited decoder keeps every payload byte, in its frames or in its buffer. */
  lemma {:induction false} FramesArePayload(d: Decoder, s: seq<byte>)
    ensures var o := Run(0, d, s); Flatten(o.frames) + o.dec.buf == d.buf + Payload(d.esc, s)
    decreases |s|
  {
    if s != [] {
      var c, rest := s[0], s[1..];
      var o := Step(0, d, c);
      var r := Run(0, o.dec, rest);
      FramesArePayload(o.dec, rest);
      FlattenConcat(o.frames, r.frames);
      ConcatAssoc(Flatten(o.frames), Flatten(r.frames), r.dec.buf);
      StepPayload(d, c, rest);
      assert [c] + rest == s;
    }
  }

  /**
   The two decoders agree on every byte stream, misplaced escapes included: what
   scat prints is the frames of tunslip6's decoder with its limit removed, run
   together, and the frame still being received.
   */
  lemma DecodersAgree(s: seq<byte>)
    ensures var u := Run(0, FRESH, s); Payload(false, s) == Flatten(u.frames) + u.dec.buf
  {
    FramesArePayload(FRESH, s);
    assert [] + Payload(false, s) == Payload(false, s);
  }

  /** And if none of these reaches 2000 bytes, the decoder with its limit yields the same. */
  lemma DecodersAgreeBelowLimit(s: seq<byte>)
    requires forall f :: f in Run(0, FRESH, s).frames ==> |f| < CAPACITY
    requires |Run(0, FRESH, s).dec.buf| < CAPACITY
    ensures var o := Run(CAPACITY, FRESH, s); Payload(false, s) == Flatten(o.frames) + o.dec.buf
  {
    DecodersAgree(s);
    OverflowLaw(FRESH, FRESH, s);
    FrameNonEmpty(FRESH, s);
    TrimLength(Run(0, FRESH, s).frames);
    WrapShort(Run(0, FRESH, s).dec.buf);
  }

  lemma {:induction false} FrameNonEmpty(d: Decoder, s: seq<byte>)
    ensures forall f :: f in Run(0, d, s).frames ==> f != []
    decreases |s|
  {
    if s != [] {
      FrameNonEmpty(Step(0, d, s[0]).dec, s[1..]);
    }
  }
}
