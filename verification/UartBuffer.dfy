/**
 The UART ring buffers of the PIC firmware.  The four buffers are the same code on
 four sets of globals, so one class models them.  There is no test for a full
 buffer: the 64th unread byte makes put meet get, and the buffer reads as empty.
 */
module UartBuffer {
  import opened Bytes

  const BUFFER_SIZE := 64

  // ---------- The queue the buffer implements ----------

  /** Appending to a queue of 63 bytes empties it. */
  function Appended(q: seq<byte>, c: byte): seq<byte> {
    if |q| == BUFFER_SIZE - 1 then [] else q + [c]
  }

  class RingBuffer {
    const buffer: array<byte>
    var put: nat
    var get: nat

    ghost predicate Valid()
      reads this
    {
      buffer.Length == BUFFER_SIZE && put < BUFFER_SIZE && get < BUFFER_SIZE
    }

    ghost function Contents(): (q: seq<byte>)
      requires Valid()
      reads this, buffer
      ensures |q| == if get <= put then put - get else BUFFER_SIZE - get + put
    {
      if get <= put then buffer[get..put] else buffer[get..] + buffer[..put]
    }

    constructor ()
      ensures Valid() && Contents() == [] && fresh(buffer)
    {
      buffer := new byte[BUFFER_SIZE](i => 0);
      put, get := 0, 0;
    }

    method Reset()
      requires Valid()
      modifies this
      ensures Valid() && Contents() == []
    {
      put, get := 0, 0;
    }

    method AppendBuffer(c: byte)
      requires Valid()
      modifies this`put, buffer
      ensures Valid() && Contents() == Appended(old(Contents()), c)
    {
      buffer[put] := c;
      put := put + 1;
      if put >= BUFFER_SIZE {
        put := 0;
      }
    }

    method GetNext() returns (c: byte)
      requires Valid()
      modifies this`get
      ensures Valid()
      ensures if old(Contents()) == [] then c == 0 && Contents() == []
              else c == old(Contents())[0] && Contents() == old(Contents())[1..]
    {
      c := buffer[get];
      if get == put {
        return 0;
      }
      get := get + 1;
      if get >= BUFFER_SIZE {
        get := 0;
      }
    }

    /**
     DataAvailable as the code computes it.  It tells empty from non-empty, but it
     is the number of unread bytes exactly when the contents do not wrap; when they
     do, it is 128 minus that number.
     */
    method DataAvailable() returns (count: nat)
      requires Valid()
      ensures count == 0 <==> Contents() == []
      ensures count == |Contents()| <==> get <= put
      ensures get > put ==> count == 2 * BUFFER_SIZE - |Contents()|
    {
      if get > put {
        count := BUFFER_SIZE - put;
        count := count + get;
      } else {
        count := put - get;
      }
    }
  }

  /** InitBuffers clears the four arrays and leaves the pointers: unread bytes stay unread, as zeros. */
  method InitBuffers(b1: RingBuffer, b2: RingBuffer, b3: RingBuffer, b4: RingBuffer)
    requires b1.Valid() && b2.Valid() && b3.Valid() && b4.Valid()
    modifies b1.buffer, b2.buffer, b3.buffer, b4.buffer
    ensures b1.Contents() == Zeros(|old(b1.Contents())|) && b2.Contents() == Zeros(|old(b2.Contents())|)
    ensures b3.Contents() == Zeros(|old(b3.Contents())|) && b4.Contents() == Zeros(|old(b4.Contents())|)
  {
    var i := 0;
    while i < BUFFER_SIZE
      invariant 0 <= i <= BUFFER_SIZE
      invariant forall k :: 0 <= k < i ==>
                  b1.buffer[k] == 0 && b2.buffer[k] == 0 && b3.buffer[k] == 0 && b4.buffer[k] == 0
    {
      b1.buffer[i] := 0;
      b2.buffer[i] := 0;
      b3.buffer[i] := 0;
      b4.buffer[i] := 0;
      i := i + 1;
    }
    AllZero(b1);
    AllZero(b2);
    AllZero(b3);
    AllZero(b4);
  }

  function Zeros(n: nat): seq<byte> {
    seq(n, k => 0)
  }

  lemma AllZero(b: RingBuffer)
    requires b.Valid() && forall k :: 0 <= k < BUFFER_SIZE ==> b.buffer[k] == 0
    ensures b.Contents() == Zeros(|b.Contents()|)
  {
  }

  // ---------- Whole runs ----------

  datatype Op = Append(c: byte) | Get | Reset

  /** unread bytes, values GetNext returned, bytes appended and bytes taken since the last reset. */
  datatype State = State(q: seq<byte>, results: seq<byte>, appended: seq<byte>, taken: nat)

  /** One operation on the ring, or on an unbounded first-in first-out queue. */
  function Step(ring: bool, s: State, op: Op): State {
    match op
    case Append(c) => s.(q := if ring then Appended(s.q, c) else s.q + [c], appended := s.appended + [c])
    case Get =>
      if s.q == [] then s.(results := s.results + [0])
      else s.(q := s.q[1..], results := s.results + [s.q[0]], taken := s.taken + 1)
    case Reset => s.(q := [], appended := [], taken := 0)
  }

  function Replay(ring: bool, ops: seq<Op>): State {
    if ops == [] then State([], [], [], 0)
    else Step(ring, Replay(ring, ops[..|ops| - 1]), ops[|ops| - 1])
  }

  /** The operations on a new buffer. */
  method Run(ops: seq<Op>) returns (b: RingBuffer, results: seq<byte>)
    ensures fresh(b) && b.Valid()
    ensures b.Contents() == Replay(true, ops).q && results == Replay(true, ops).results
  {
    b := new RingBuffer();
    results := [];
    var k := 0;
    while k < |ops|
      invariant 0 <= k <= |ops| && fresh(b) && fresh(b.buffer) && b.Valid()
      invariant b.Contents() == Replay(true, ops[..k]).q && results == Replay(true, ops[..k]).results
    {
      assert ops[..k + 1][..k] == ops[..k];
      match ops[k] {
        case Append(c) =>
          b.AppendBuffer(c);
        case Get =>
          var c := b.GetNext();
          results := results + [c];
        case Reset =>
          b.Reset();
      }
      k := k + 1;
    }
    assert ops[..k] == ops;
  }

  /** The unread bytes are the newest ones, as many as were appended and not taken, modulo 64. */
  ghost predicate Newest(s: State) {
    && s.taken <= |s.appended|
    && |s.q| == (|s.appended| - s.taken) % BUFFER_SIZE
    && s.q == s.appended[|s.appended| - |s.q|..]
  }

  lemma ModuloStep(n: nat)
    ensures (n + 1) % BUFFER_SIZE == if n % BUFFER_SIZE == BUFFER_SIZE - 1 then 0 else n % BUFFER_SIZE + 1
    ensures n % BUFFER_SIZE != 0 ==> n > 0 && (n - 1) % BUFFER_SIZE == n % BUFFER_SIZE - 1
  {
  }

  lemma StepNewest(s: State, op: Op)
    requires Newest(s)
    ensures Newest(Step(true, s, op))
  {
    var n := |s.appended| - s.taken;
    ModuloStep(n);
    var s' := Step(true, s, op);
    match op {
      case Append(c) =>
        assert |s'.appended| - s'.taken == n + 1;
      case Get =>
        assert s.q != [] ==> |s'.appended| - s'.taken == n - 1;
      case Reset =>
    }
  }

  /** In every run, overruns included, what can be read is the newest bytes in the order they came. */
  lemma {:induction false} NewestModulo(ops: seq<Op>)
    ensures Newest(Replay(true, ops))
  {
    if ops != [] {
      NewestModulo(ops[..|ops| - 1]);
      StepNewest(Replay(true, ops[..|ops| - 1]), ops[|ops| - 1]);
    }
  }

  /** As long as fewer than 64 bytes are waiting, the ring is a faithful queue. */
  lemma {:induction false} FaithfulWithinSize(ops: seq<Op>)
    requires forall k :: 0 <= k <= |ops| ==> |Replay(false, ops[..k]).q| < BUFFER_SIZE
    ensures Replay(true, ops) == Replay(false, ops)
  {
    if ops != [] {
      var init := ops[..|ops| - 1];
      forall k | 0 <= k <= |init|
        ensures |Replay(false, init[..k]).q| < BUFFER_SIZE
      {
        assert init[..k] == ops[..k];
      }
      FaithfulWithinSize(init);
      assert ops[..|ops|] == ops;
    }
  }

  /** The ring and the queue agree throughout a run exactly if the backlog never reaches 64 bytes. */
  lemma FaithfulExactly(ops: seq<Op>)
    ensures (forall k :: 0 <= k <= |ops| ==> Replay(true, ops[..k]) == Replay(false, ops[..k]))
       <==> (forall k :: 0 <= k <= |ops| ==> |Replay(false, ops[..k]).q| < BUFFER_SIZE)
  {
    forall k | 0 <= k <= |ops|
      ensures |Replay(true, ops[..k]).q| < BUFFER_SIZE
    {
      NewestModulo(ops[..k]);
    }
    if forall k :: 0 <= k <= |ops| ==> |Replay(false, ops[..k]).q| < BUFFER_SIZE {
      forall k | 0 <= k <= |ops|
        ensures Replay(true, ops[..k]) == Replay(false, ops[..k])
      {
        assert forall j :: 0 <= j <= k ==> ops[..k][..j] == ops[..j];
        FaithfulWithinSize(ops[..k]);
      }
    }
  }

  // ---------- What GetNext returns ----------

  /** The bytes appended, in order. */
  function AllAppended(ops: seq<Op>): seq<byte> {
    if ops == [] then []
    else AllAppended(ops[..|ops| - 1]) + if ops[|ops| - 1].Append? then [ops[|ops| - 1].c] else []
  }

  /** No reset, and no GetNext on an empty queue. */
  ghost predicate Busy(ops: seq<Op>) {
    forall k :: 0 <= k < |ops| ==> ops[k] != Reset && (ops[k] == Get ==> Replay(false, ops[..k]).q != [])
  }

  lemma BusyInit(ops: seq<Op>)
    requires Busy(ops) && ops != []
    ensures Busy(ops[..|ops| - 1])
  {
    var init := ops[..|ops| - 1];
    forall k | 0 <= k < |init|
      ensures init[k] != Reset && (init[k] == Get ==> Replay(false, init[..k]).q != [])
    {
      assert init[k] == ops[k] && init[..k] == ops[..k];
    }
  }

  /** In order: what GetNext returned, and then what is unread, is what was appended. */
  lemma {:induction false} FirstInFirstOut(ops: seq<Op>)
    requires Busy(ops)
    ensures Replay(false, ops).results + Replay(false, ops).q == AllAppended(ops)
  {
    if ops != [] {
      var init, op := ops[..|ops| - 1], ops[|ops| - 1];
      BusyInit(ops);
      FirstInFirstOut(init);
      var s := Replay(false, init);
      if op.Append? {
        ConcatAssoc(s.results, s.q, [op.c]);
      } else {
        assert s.q == [s.q[0]] + s.q[1..];
        ConcatAssoc(s.results, [s.q[0]], s.q[1..]);
      }
    }
  }

  /**
   The ring does the same as long as fewer than 64 bytes are waiting.  A GetNext on an
   empty buffer returns 0.
   */
  lemma RingInOrder(ops: seq<Op>)
    requires Busy(ops) && forall k :: 0 <= k <= |ops| ==> |Replay(false, ops[..k]).q| < BUFFER_SIZE
    ensures Replay(true, ops).results + Replay(true, ops).q == AllAppended(ops)
    ensures Replay(true, []).q == [] && Replay(true, [Get]).results == [0]
  {
    FirstInFirstOut(ops);
    FaithfulWithinSize(ops);
    assert [Get][..0] == [];
  }
}
