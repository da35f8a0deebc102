/**
 The IPv6 address parser inside ifconf: hex digits are accumulated into eight
 16-bit groups, then the groups after "::" are shifted to the end in place.
 It is compared with the expansion section 2.2 of RFC 4291 asks for.
 */
module Ifconf {
  import opened Bytes

  const COLON: byte := 58
  const SLASH: byte := 47
  const WORD := 65536

  type group = x: int | 0 <= x < WORD

  // ---------- The two loops, on values ----------

  /** uint16_t digit: c-'0', or 10+(c&0xdf)-'A' when that is above 9, both modulo 65536. */
  function Digit(c: byte): group {
    var d := (c - 48) % WORD;
    if d <= 9 then d else (10 + (if (c / 32) % 2 == 1 then c - 32 else c) - 65) % WORD
  }

  /** The array, the current index, whether the previous character was a colon, and scc. */
  datatype Scanner = Scanner(a: seq<group>, ai: nat, colon: bool, scc: nat)

  function Scan(p: Scanner, s: seq<byte>): (r: Scanner)
    requires |p.a| == 8 && p.ai < 8 && p.scc < 8
    ensures |r.a| == 8 && r.ai <= 8 && r.scc < 8
    decreases |s|
  {
    if s == [] || s[0] == 0 || s[0] == SLASH then p
    else if s[0] == COLON then
      var p' := Scanner(p.a, p.ai + 1, true, if p.colon then p.ai else p.scc);
      if p'.ai > 7 then p' else Scan(p', s[1..])
    else
      Scan(p.(a := p.a[p.ai := (p.a[p.ai] * 16 + Digit(s[0])) % WORD], colon := false), s[1..])
  }

  const ZEROS: seq<group> := [0, 0, 0, 0, 0, 0, 0, 0]
  const BLANK := Scanner(ZEROS, 0, false, 0)

  /** Round i of the shift: slot 7-i gets slot ai-i if that lies after the "::", and 0 otherwise. */
  function ShiftRound(a: seq<group>, ai: nat, scc: nat, i: nat): (r: seq<group>)
    requires |a| == 8 && ai <= 8 && i < 8 - ai
    ensures |r| == 8
  {
    if ai - i <= scc then a[7 - i := 0] else a[7 - i := a[ai - i]][ai - i := 0]
  }

  function Shift(a: seq<group>, ai: nat, scc: nat, rounds: nat): (r: seq<group>)
    requires |a| == 8 && ai <= 8 && rounds <= 8 - ai
    ensures |r| == 8
  {
    if rounds == 0 then a else ShiftRound(Shift(a, ai, scc, rounds - 1), ai, scc, rounds - 1)
  }

  function Parse(s: seq<byte>): (r: seq<group>)
    ensures |r| == 8
  {
    var p := Scan(BLANK, s);
    Shift(p.a, p.ai, p.scc, 8 - p.ai)
  }

  /** The accumulate loop: for every string its indices stay inside a[8]. */
  method Accumulate(ipaddr: seq<byte>, a: array<group>) returns (ai: nat, scc: nat)
    requires a.Length == 8
    modifies a
    ensures Scan(Scanner(old(a[..]), 0, false, 0), ipaddr) .(colon := false) == Scanner(a[..], ai, false, scc)
  {
    ghost var start := Scanner(a[..], 0, false, 0);
    ai, scc := 0, 0;
    var cc := 0;
    var k := 0;
    assert ipaddr[0..] == ipaddr;
    while k < |ipaddr| && ipaddr[k] != 0
      invariant 0 <= k <= |ipaddr| && ai < 8 && scc < 8 && cc in {0, 1}
      invariant Scan(start, ipaddr) == Scan(Scanner(a[..], ai, cc == 1, scc), ipaddr[k..])
    {
      var c := ipaddr[k];
      assert ipaddr[k..][0] == c && ipaddr[k..][1..] == ipaddr[k + 1..];
      k := k + 1;
      if c == SLASH { break; }
      if c == COLON {
        if cc != 0 {
          scc := ai;
        }
        cc := 1;
        ai := ai + 1;
        if ai > 7 { break; }
      } else {
        cc := 0;
        var digit := (c - 48) % WORD;
        if digit > 9 {
          digit := (10 + (if (c / 32) % 2 == 1 then c - 32 else c) - 65) % WORD;
        }
        ghost var was := a[..];
        a[ai] := (a[ai] * 16 + digit) % WORD;
        assert a[..] == was[ai := (was[ai] * 16 + Digit(c)) % WORD];
      }
    }
  }

  /** The shift loop, in place. */
  method ShiftInPlace(a: array<group>, ai: nat, scc: nat)
    requires a.Length == 8 && ai <= 8
    modifies a
    ensures a[..] == Shift(old(a[..]), ai, scc, 8 - ai)
  {
    var cc := 8 - ai;
    var i := 0;
    while i < cc
      invariant 0 <= i <= cc
      invariant a[..] == Shift(old(a[..]), ai, scc, i)
    {
      if 8 - i - cc <= scc {
        a[7 - i] := 0;
      } else {
        a[7 - i] := a[8 - i - cc];
        a[8 - i - cc] := 0;
      }
      i := i + 1;
    }
  }

  /** The block of ifconf that fills a[8] from the address text. */
  method ParseAddress(ipaddr: seq<byte>) returns (a: array<group>)
    ensures fresh(a) && a.Length == 8 && a[..] == Parse(ipaddr)
  {
    a := new group[8];
    var ai := 0;
    while ai < 8
      invariant 0 <= ai <= 8
      invariant forall k :: 0 <= k < ai ==> a[k] == 0
    {
      a[ai] := 0;
      ai := ai + 1;
    }
    assert a[..] == ZEROS;
    var scc;
    ai, scc := Accumulate(ipaddr, a);
    ShiftInPlace(a, ai, scc);
  }

  // ---------- Addresses as section 2.2 of RFC 4291 writes them ----------

  predicate IsHex(c: byte) {
    48 <= c <= 57 || 65 <= c <= 70 || 97 <= c <= 102
  }

  function HexValue(c: byte): nat
    requires IsHex(c)
  {
    if c <= 57 then c - 48 else if c <= 70 then c - 65 + 10 else c - 97 + 10
  }

  /** A field: one to four hex digits. */
  ghost predicate IsField(f: seq<byte>) {
    1 <= |f| <= 4 && forall c :: c in f ==> IsHex(c)
  }

  function FieldValue(f: seq<byte>): nat
    requires forall c :: c in f ==> IsHex(c)
  {
    if f == [] then 0 else FieldValue(f[..|f| - 1]) * 16 + HexValue(f[|f| - 1])
  }

  function Fields(fs: seq<seq<byte>>): seq<byte> {
    if fs == [] then [] else if |fs| == 1 then fs[0] else fs[0] + [COLON] + Fields(fs[1..])
  }

  ghost predicate AreFields(fs: seq<seq<byte>>) {
    forall f :: f in fs ==> IsField(f)
  }

  lemma {:induction false} FieldBound(f: seq<byte>)
    requires |f| <= 4 && forall c :: c in f ==> IsHex(c)
    ensures |f| == 0 ==> FieldValue(f) == 0
    ensures |f| == 1 ==> FieldValue(f) < 16
    ensures |f| == 2 ==> FieldValue(f) < 256
    ensures |f| == 3 ==> FieldValue(f) < 4096
    ensures FieldValue(f) < WORD
  {
    if f != [] {
      FieldBound(f[..|f| - 1]);
      assert f[|f| - 1] in f;
    }
  }

  function Value(f: seq<byte>): group
    requires IsField(f)
  {
    FieldBound(f);
    FieldValue(f)
  }

  ghost function Values(fs: seq<seq<byte>>): (vs: seq<group>)
    requires AreFields(fs)
    ensures |vs| == |fs|
  {
    seq(|fs|, i requires 0 <= i < |fs| => Value(fs[i]))
  }

  /** What may follow the address: nothing, or a '/' and anything. */
  predicate IsTail(t: seq<byte>) {
    t == [] || t[0] == SLASH || t[0] == 0
  }

  /** The text with "::" between the fields g1 and g2. */
  function Text(g1: seq<seq<byte>>, g2: seq<seq<byte>>, tail: seq<byte>): seq<byte> {
    Fields(g1) + ([COLON] + ([COLON] + (Fields(g2) + tail)))
  }

  /** "::" stands for as many zero groups as are missing from eight. */
  function Expansion(v1: seq<group>, v2: seq<group>): (r: seq<group>)
    requires |v1| + |v2| <= 7
    ensures |r| == 8
  {
    v1 + seq(8 - |v1| - |v2|, i => 0) + v2
  }

  // ---------- The accumulate loop on such a text ----------

  lemma DigitIsHex(c: byte)
    requires IsHex(c)
    ensures Digit(c) == HexValue(c) && c != COLON && c != SLASH && c != 0
  {
  }

  /** One more digit: no overflow, and none of the characters the loop treats specially. */
  lemma FieldStep(f: seq<byte>, k: nat)
    requires IsField(f) && k < |f|
    ensures var v := FieldValue(f[..k]) * 16 + Digit(f[k]);
            v % WORD == v == FieldValue(f[..k + 1]) && f[k] != COLON && f[k] != SLASH && f[k] != 0
  {
    DigitIsHex(f[k]);
    FieldBound(f[..k + 1]);
    assert f[..k + 1][..k] == f[..k];
  }

  lemma ScanCons(p: Scanner, c: byte, s: seq<byte>)
    requires |p.a| == 8 && p.ai < 8 && p.scc < 8
    ensures Scan(p, [c] + s)
            == if c == 0 || c == SLASH then p
               else if c == COLON then
                 var p' := Scanner(p.a, p.ai + 1, true, if p.colon then p.ai else p.scc);
                 if p'.ai > 7 then p' else Scan(p', s)
               else Scan(p.(a := p.a[p.ai := (p.a[p.ai] * 16 + Digit(c)) % WORD], colon := false), s)
  {
  }

  lemma DropCons(f: seq<byte>, k: nat, rest: seq<byte>)
    requires k < |f|
    ensures f[k..] + rest == [f[k]] + (f[k + 1..] + rest)
  {
  }

  /** The loop on a digit that makes v of the group so far. */
  lemma ScanDigit(p: Scanner, c: byte, v: group, s: seq<byte>)
    requires |p.a| == 8 && p.ai < 8 && p.scc < 8 && c != COLON && c != SLASH && c != 0
    requires v == (p.a[p.ai] * 16 + Digit(c)) % WORD
    ensures Scan(p, [c] + s) == Scan(p.(a := p.a[p.ai := v], colon := false), s)
  {
    ScanCons(p, c, s);
  }

  lemma {:induction false} ScanField(p: Scanner, f: seq<byte>, k: nat, rest: seq<byte>)
    requires |p.a| == 8 && p.ai < 8 && p.scc < 8
    requires IsField(f) && k <= |f| && (k > 0 ==> !p.colon)
    requires p.a[p.ai] == FieldValue(f[..k])
    ensures Scan(p, f[k..] + rest) == Scan(p.(a := p.a[p.ai := Value(f)], colon := false), rest)
    decreases |f| - k
  {
    if k == |f| {
      assert f[k..] + rest == rest && f[..k] == f;
      assert p.a[p.ai := Value(f)] == p.a;
    } else {
      FieldStep(f, k);
      var v: group := FieldValue(f[..k + 1]);
      var p' := p.(a := p.a[p.ai := v], colon := false);
      assert Scan(p, f[k..] + rest) == Scan(p', f[k + 1..] + rest) by {
        DropCons(f, k, rest);
        ScanDigit(p, f[k], v, f[k + 1..] + rest);
      }
      ScanField(p', f, k + 1, rest);
      assert p'.a[p.ai := Value(f)] == p.a[p.ai := Value(f)];
    }
  }

  /** a with vs written from slot i on. */
  function Write(a: seq<group>, i: nat, vs: seq<group>): (r: seq<group>)
    requires i + |vs| <= |a|
    ensures |r| == |a|
  {
    seq(|a|, k requires 0 <= k < |a| => if i <= k < i + |vs| then vs[k - i] else a[k])
  }

  lemma WriteFirst(a: seq<group>, i: nat, v: group, vs: seq<group>)
    requires |a| == 8 && i + 1 + |vs| <= 8
    ensures Write(a, i, [v] + vs) == Write(a[i := v], i + 1, vs)
    ensures Write(a, i, [v]) == a[i := v]
  {
  }

  lemma ScanOnly(p: Scanner, f: seq<byte>, rest: seq<byte>)
    requires |p.a| == 8 && p.ai < 8 && p.scc < 8 && IsField(f) && p.a[p.ai] == 0
    ensures Scan(p, f + rest) == Scan(Scanner(p.a[p.ai := Value(f)], p.ai, false, p.scc), rest)
  {
    assert f[0..] == f;
    ScanField(p, f, 0, rest);
  }

  lemma ScanNext(p: Scanner, f: seq<byte>, rest: seq<byte>)
    requires |p.a| == 8 && p.ai < 7 && p.scc < 8 && IsField(f) && p.a[p.ai] == 0
    ensures Scan(p, f + ([COLON] + rest)) == Scan(Scanner(p.a[p.ai := Value(f)], p.ai + 1, true, p.scc), rest)
  {
    ScanOnly(p, f, [COLON] + rest);
    ScanCons(Scanner(p.a[p.ai := Value(f)], p.ai, false, p.scc), COLON, rest);
  }

  lemma FieldsCons(fs: seq<seq<byte>>, rest: seq<byte>)
    requires |fs| > 1
    ensures Fields(fs) + rest == fs[0] + ([COLON] + (Fields(fs[1..]) + rest))
  {
  }

  lemma ValuesCons(fs: seq<seq<byte>>)
    requires AreFields(fs) && fs != []
    ensures AreFields(fs[1..]) && Values(fs) == [Value(fs[0])] + Values(fs[1..])
  {
  }

  /** The first of several fields with its colon, or the only one. */
  lemma ScanFirst(p: Scanner, fs: seq<seq<byte>>, rest: seq<byte>)
    requires |p.a| == 8 && p.scc < 8 && AreFields(fs) && fs != [] && p.ai + |fs| <= 8 && p.a[p.ai] == 0
    ensures var a := p.a[p.ai := Value(fs[0])];
            Scan(p, Fields(fs) + rest)
            == if |fs| == 1 then Scan(Scanner(a, p.ai, false, p.scc), rest)
               else Scan(Scanner(a, p.ai + 1, true, p.scc), Fields(fs[1..]) + rest)
  {
    if |fs| == 1 {
      ScanOnly(p, fs[0], rest);
    } else {
      FieldsCons(fs, rest);
      ScanNext(p, fs[0], Fields(fs[1..]) + rest);
    }
  }

  lemma WriteValues(a: seq<group>, i: nat, fs: seq<seq<byte>>)
    requires |a| == 8 && AreFields(fs) && fs != [] && i + |fs| <= 8
    ensures Write(a, i, Values(fs)) == Write(a[i := Value(fs[0])], i + 1, Values(fs[1..]))
    ensures |fs| == 1 ==> Write(a, i, Values(fs)) == a[i := Value(fs[0])]
  {
    ValuesCons(fs);
    WriteFirst(a, i, Value(fs[0]), Values(fs[1..]));
  }

  lemma {:induction false} ScanFields(p: Scanner, fs: seq<seq<byte>>, rest: seq<byte>)
    requires |p.a| == 8 && p.scc < 8 && AreFields(fs) && fs != [] && p.ai + |fs| <= 8
    requires forall k :: p.ai <= k < 8 ==> p.a[k] == 0
    ensures Scan(p, Fields(fs) + rest)
            == Scan(Scanner(Write(p.a, p.ai, Values(fs)), p.ai + |fs| - 1, false, p.scc), rest)
    decreases |fs|
  {
    ScanFirst(p, fs, rest);
    WriteValues(p.a, p.ai, fs);
    if |fs| > 1 {
      ScanFields(Scanner(p.a[p.ai := Value(fs[0])], p.ai + 1, true, p.scc), fs[1..], rest);
    }
  }

  lemma ScanTail(p: Scanner, tail: seq<byte>)
    requires |p.a| == 8 && p.ai < 8 && p.scc < 8 && IsTail(tail)
    ensures Scan(p, tail) == p
  {
  }

  /** The slots "::" is counted after: no groups before it count as one. */
  function Before(n1: nat): nat {
    if n1 == 0 then 1 else n1
  }

  /** Up to and including "::". */
  lemma ScanBefore(g1: seq<seq<byte>>, rest: seq<byte>)
    requires AreFields(g1) && |g1| <= 7
    ensures var m := Before(|g1|); var a := Write(ZEROS, 0, Values(g1));
            Scan(BLANK, Fields(g1) + ([COLON] + ([COLON] + rest)))
            == if m == 7 then Scanner(a, 8, true, 7) else Scan(Scanner(a, m + 1, true, m), rest)
  {
    var m := Before(|g1|);
    var p := Scanner(Write(ZEROS, 0, Values(g1)), m - 1, false, 0);
    var s := [COLON] + ([COLON] + rest);
    assert Scan(BLANK, Fields(g1) + s) == Scan(p, s) by {
      if g1 == [] {
        assert Fields(g1) + s == s && p.a == ZEROS;
      } else {
        ScanFields(BLANK, g1, s);
      }
    }
    ScanCons(p, COLON, [COLON] + rest);
    ScanCons(Scanner(p.a, m, true, 0), COLON, rest);
  }

  /** a[8] as the accumulate loop leaves it: the fields where they were read, zeros elsewhere. */
  function Accumulated(v1: seq<group>, v2: seq<group>): (b: seq<group>)
    requires Before(|v1|) + |v2| <= 7
    ensures |b| == 8
  {
    Write(Write(ZEROS, 0, v1), Before(|v1|) + 1, v2)
  }

  /** The whole text, as long as the fields fit behind the slot "::" leaves empty. */
  lemma ScanText(g1: seq<seq<byte>>, g2: seq<seq<byte>>, tail: seq<byte>)
    requires AreFields(g1) && AreFields(g2) && IsTail(tail) && g2 != [] && Before(|g1|) + |g2| <= 7
    ensures var m := Before(|g1|);
            Scan(BLANK, Text(g1, g2, tail)) == Scanner(Accumulated(Values(g1), Values(g2)), m + |g2|, false, m)
  {
    var m := Before(|g1|);
    var a := Write(ZEROS, 0, Values(g1));
    ScanBefore(g1, Fields(g2) + tail);
    ScanFields(Scanner(a, m + 1, true, m), g2, tail);
    ScanTail(Scanner(Write(a, m + 1, Values(g2)), m + |g2|, false, m), tail);
  }

  // ---------- The shift loop ----------

  /** Slot k after r rounds: shifted groups at the end, cleared sources, the rest untouched. */
  ghost function Shifted(b: seq<group>, ai: nat, scc: nat, r: nat, k: nat): group
    requires |b| == 8 && ai <= 7 && k < 8 && r <= 8 - ai
  {
    if k + r > 7 then (if ai + k > scc + 7 then b[ai + k - 7] else 0)
    else if k > scc && ai - r < k <= ai then 0
    else b[k]
  }

  lemma {:induction false} ShiftClosed(b: seq<group>, ai: nat, scc: nat, r: nat)
    requires |b| == 8 && ai <= 6 && r <= 8 - ai
    ensures forall k :: 0 <= k < 8 ==> Shift(b, ai, scc, r)[k] == Shifted(b, ai, scc, r, k)
  {
    if r > 0 {
      ShiftClosed(b, ai, scc, r - 1);
      var s := Shift(b, ai, scc, r - 1);
      var i := r - 1;
      if ai - i > scc {
        assert s[ai - i] == b[ai - i];
      }
    }
  }

  lemma ShiftIs(b: seq<group>, ai: nat, scc: nat, target: seq<group>)
    requires |b| == 8 && ai <= 6 && |target| == 8
    requires forall k :: 0 <= k < 8 ==> Shifted(b, ai, scc, 8 - ai, k) == target[k]
    ensures Shift(b, ai, scc, 8 - ai) == target
  {
    var r := Shift(b, ai, scc, 8 - ai);
    ShiftClosed(b, ai, scc, 8 - ai);
    assert forall k :: 0 <= k < 8 ==> r[k] == target[k];
  }

  // ---------- When the result is the RFC's ----------

  ghost predicate ZeroFirst(v: seq<group>, n: int) {
    forall j :: 0 <= j < n && j < |v| ==> v[j] == 0
  }

  /**
   What the loops need of n1 groups before "::" and the groups v2 after it.  With
   eight slots used the index runs out before the last field is read; with seven the
   last slot is cleared; with fewer there are 8-m-n2 rounds for n2 moves, and the
   groups they do not move stay where they were read.
   */
  ghost predicate ComesRight(n1: nat, v2: seq<group>)
    requires n1 + |v2| <= 7
  {
    var m, n2 := Before(n1), |v2|;
    n2 == 0
    || if m + n2 == 8 then ZeroFirst(v2, n2)
       else if m + n2 == 7 then v2[n2 - 1] == 0
       else ZeroFirst(v2, m + 2 * n2 - 8)
  }

  lemma AccumulatedSlot(v1: seq<group>, v2: seq<group>, k: nat)
    requires Before(|v1|) + |v2| <= 7 && k < 8
    ensures var m := Before(|v1|);
            Accumulated(v1, v2)[k] == if k < |v1| then v1[k] else if m < k <= m + |v2| then v2[k - m - 1] else 0
  {
  }

  lemma ExpansionSlot(v1: seq<group>, v2: seq<group>, k: nat)
    requires |v1| + |v2| <= 7 && k < 8
    ensures Expansion(v1, v2)[k] == if k < |v1| then v1[k] else if k < 8 - |v2| then 0 else v2[k + |v2| - 8]
  {
  }

  /** Slot k when the shift is over: groups not moved, groups moved, zeros. */
  lemma FinalSlot(v1: seq<group>, v2: seq<group>, k: nat)
    requires |v1| + |v2| <= 7 && v2 != [] && Before(|v1|) + |v2| <= 6 && k < 8
    ensures var m, n2 := Before(|v1|), |v2|; var ai := m + n2;
            Shifted(Accumulated(v1, v2), ai, m, 8 - ai, k)
            == if k < |v1| then v1[k]
               else if m < k && k - m - 1 < m + 2 * n2 - 8 then v2[k - m - 1]
               else if ai <= k && 8 - n2 <= k then v2[k + n2 - 8]
               else 0
  {
  }

  lemma MovesRight(v1: seq<group>, v2: seq<group>)
    requires |v1| + |v2| <= 7 && v2 != [] && Before(|v1|) + |v2| <= 6
    requires ZeroFirst(v2, Before(|v1|) + 2 * |v2| - 8)
    ensures var m := Before(|v1|); var ai := m + |v2|;
            Shift(Accumulated(v1, v2), ai, m, 8 - ai) == Expansion(v1, v2)
  {
    var m := Before(|v1|);
    var b, ai, target := Accumulated(v1, v2), m + |v2|, Expansion(v1, v2);
    forall k | 0 <= k < 8
      ensures Shifted(b, ai, m, 8 - ai, k) == target[k]
    {
      FinalSlot(v1, v2, k);
      ExpansionSlot(v1, v2, k);
    }
    ShiftIs(b, ai, m, target);
  }

  /** A group left behind must be zero: its slot belongs to "::" or to a group left behind before it. */
  lemma {:induction false} LeftBehind(v1: seq<group>, v2: seq<group>, j: nat)
    requires |v1| + |v2| <= 7 && v2 != [] && Before(|v1|) + |v2| <= 6
    requires var m := Before(|v1|); var ai := m + |v2|;
             Shift(Accumulated(v1, v2), ai, m, 8 - ai) == Expansion(v1, v2)
    requires j < Before(|v1|) + 2 * |v2| - 8
    ensures v2[j] == 0
  {
    var m, n2 := Before(|v1|), |v2|;
    var ai, k := m + n2, m + 1 + j;
    ShiftClosed(Accumulated(v1, v2), ai, m, 8 - ai);
    FinalSlot(v1, v2, k);
    ExpansionSlot(v1, v2, k);
    if 8 - n2 <= k {
      LeftBehind(v1, v2, k + n2 - 8);
    }
  }

  /** With the index at the last slot, the shift copies slot 7 onto itself and clears it. */
  lemma ShiftLast(a: seq<group>, scc: nat)
    requires |a| == 8 && scc < 7
    ensures Shift(a, 7, scc, 1) == a[7 := 0]
  {
  }

  /** Seven slots used: everything is in place, and the last group is cleared. */
  lemma LastCleared(v1: seq<group>, v2: seq<group>)
    requires v2 != [] && |v1| + |v2| <= 7 && Before(|v1|) + |v2| == 7
    ensures Shift(Accumulated(v1, v2), 7, Before(|v1|), 1) == Expansion(v1, v2) <==> v2[|v2| - 1] == 0
  {
    var b, target := Accumulated(v1, v2), Expansion(v1, v2);
    ShiftLast(b, Before(|v1|));
    forall k | 0 <= k < 8
      ensures k < 7 ==> b[7 := 0][k] == target[k]
    {
      AccumulatedSlot(v1, v2, k);
      ExpansionSlot(v1, v2, k);
    }
    assert target[7] == v2[|v2| - 1];
  }

  lemma MovesExactly(v1: seq<group>, v2: seq<group>)
    requires |v1| + |v2| <= 7 && v2 != [] && Before(|v1|) + |v2| <= 7
    ensures var m := Before(|v1|); var ai := m + |v2|;
            Shift(Accumulated(v1, v2), ai, m, 8 - ai) == Expansion(v1, v2) <==> ComesRight(|v1|, v2)
  {
    var m := Before(|v1|);
    var ai := m + |v2|;
    if ai == 7 {
      LastCleared(v1, v2);
    } else if ZeroFirst(v2, m + 2 * |v2| - 8) {
      MovesRight(v1, v2);
    } else if Shift(Accumulated(v1, v2), ai, m, 8 - ai) == Expansion(v1, v2) {
      forall j | 0 <= j < m + 2 * |v2| - 8 && j < |v2|
        ensures v2[j] == 0
      {
        LeftBehind(v1, v2, j);
      }
    }
  }

  lemma OpenEnd(v: seq<group>)
    requires |v| <= 7
    ensures Write(ZEROS, 0, v) == Expansion(v, [])
  {
  }

  /** "::" at the end: the shift moves zeros. */
  lemma ExpandsOpenEnd(g1: seq<seq<byte>>, tail: seq<byte>)
    requires AreFields(g1) && IsTail(tail) && |g1| <= 7
    ensures Parse(Text(g1, [], tail)) == Expansion(Values(g1), [])
  {
    var m := Before(|g1|);
    var a := Write(ZEROS, 0, Values(g1));
    assert Parse(Text(g1, [], tail)) == Parse(Fields(g1) + ([COLON] + ([COLON] + tail))) by {
      assert Fields([]) + tail == tail;
    }
    ScanBefore(g1, tail);
    OpenEnd(Values(g1));
    if m < 7 {
      ScanTail(Scanner(a, m + 1, true, m), tail);
      ShiftZeros(a, m);
    }
  }

  lemma ShiftZeros(a: seq<group>, m: nat)
    requires |a| == 8 && m < 7 && forall k :: m <= k < 8 ==> a[k] == 0
    ensures Shift(a, m + 1, m, 7 - m) == a
  {
    if m < 6 {
      ShiftIs(a, m + 1, m, a);
    } else {
      ShiftLast(a, 6);
    }
  }

  lemma {:induction false} FieldsSplit(fs: seq<seq<byte>>, k: nat)
    requires 0 < k < |fs|
    ensures Fields(fs) == Fields(fs[..k]) + [COLON] + Fields(fs[k..])
    decreases k
  {
    if k == 1 {
    } else {
      FieldsSplit(fs[1..], k - 1);
      assert fs[1..][..k - 1] == fs[..k][1..] && fs[1..][k - 1..] == fs[k..];
    }
  }

  /** "::" and seven fields: the index runs out before the last field is read, and the six before it stay in place. */
  lemma ScanOverfull(g2: seq<seq<byte>>, tail: seq<byte>)
    requires AreFields(g2) && |g2| == 7
    ensures Parse(Text([], g2, tail)) == [0, 0] + Values(g2)[..6]
  {
    var a := Write(ZEROS, 0, Values([]));
    assert a == ZEROS;
    ScanBefore([], Fields(g2) + tail);
    FieldsSplit(g2, 6);
    var rest := Fields(g2[6..]) + tail;
    assert Fields(g2) + tail == Fields(g2[..6]) + ([COLON] + rest);
    ScanFields(Scanner(a, 2, true, 1), g2[..6], [COLON] + rest);
    ScanCons(Scanner(Write(a, 2, Values(g2[..6])), 7, false, 1), COLON, rest);
    assert Values(g2[..6]) == Values(g2)[..6];
    assert Write(a, 2, Values(g2[..6])) == [0, 0] + Values(g2)[..6];
  }

  lemma {:induction false} MovedZero(v: seq<group>, j: nat)
    requires |v| == 7 && v == [0] + v[..6] && j < 7
    ensures v[j] == 0
  {
    if j > 0 {
      MovedZero(v, j - 1);
      assert v[j] == ([0] + v[..6])[j];
    }
  }

  lemma MovedExpansion(v: seq<group>)
    requires |v| == 7
    ensures [0, 0] + v[..6] == Expansion([], v) <==> [0] + v[..6] == v
  {
    var w := [0] + v[..6];
    assert [0, 0] + v[..6] == [0] + w;
    assert Expansion([], v) == [0] + v;
    assert ([0] + w)[1..] == w && ([0] + v)[1..] == v;
  }

  /** Moved down by one slot, seven groups are what they were if and only if all are zero. */
  lemma OverfullExactly(v: seq<group>)
    requires |v| == 7
    ensures [0, 0] + v[..6] == Expansion([], v) <==> ZeroFirst(v, 7)
  {
    MovedExpansion(v);
    assert ZeroFirst(v, 7) ==> [0] + v[..6] == v;
    if [0] + v[..6] == v {
      forall j | 0 <= j < 7
        ensures v[j] == 0
      {
        MovedZero(v, j);
      }
    }
  }

  /**
   For every address with "::", whatever its groups: the result is the expansion of
   section 2.2 of RFC 4291 if and only if the groups behind "::" allow for the moves
   the loops do not make.
   */
  lemma ExpandsExactly(g1: seq<seq<byte>>, g2: seq<seq<byte>>, tail: seq<byte>)
    requires AreFields(g1) && AreFields(g2) && IsTail(tail) && |g1| + |g2| <= 7
    ensures Parse(Text(g1, g2, tail)) == Expansion(Values(g1), Values(g2)) <==> ComesRight(|g1|, Values(g2))
  {
    if g2 == [] {
      ExpandsOpenEnd(g1, tail);
    } else if Before(|g1|) + |g2| == 8 {
      assert g1 == [] && Values(g1) == [];
      ScanOverfull(g2, tail);
      OverfullExactly(Values(g2));
    } else {
      ScanText(g1, g2, tail);
      MovesExactly(Values(g1), Values(g2));
    }
  }

  /** The shapes that come out right whatever the digits. */
  predicate Handled(n1: nat, n2: nat) {
    n2 == 0 || (Before(n1) + n2 <= 6 && Before(n1) + 2 * n2 <= 8)
  }

  /** They are all such shapes: any other one fails on every address whose last groups begin and end non-zero. */
  lemma ExpandsHandled(g1: seq<seq<byte>>, g2: seq<seq<byte>>, tail: seq<byte>)
    requires AreFields(g1) && AreFields(g2) && IsTail(tail) && |g1| + |g2| <= 7
    ensures Handled(|g1|, |g2|) ==> Parse(Text(g1, g2, tail)) == Expansion(Values(g1), Values(g2))
    ensures !Handled(|g1|, |g2|) && Values(g2)[0] != 0 && Values(g2)[|g2| - 1] != 0
            ==> Parse(Text(g1, g2, tail)) != Expansion(Values(g1), Values(g2))
  {
    ExpandsExactly(g1, g2, tail);
  }

  /** An address written out in eight fields loses its last group, so it is parsed right exactly if that is zero. */
  lemma FullAddress(fs: seq<seq<byte>>, tail: seq<byte>)
    requires AreFields(fs) && |fs| == 8 && IsTail(tail)
    ensures Parse(Fields(fs) + tail) == Values(fs)[7 := 0]
    ensures Parse(Fields(fs) + tail) == Values(fs) <==> Values(fs)[7] == 0
  {
    ScanFields(BLANK, fs, tail);
    var a := Write(ZEROS, 0, Values(fs));
    assert a == Values(fs);
    ScanTail(Scanner(a, 7, false, 0), tail);
    ShiftLast(a, 0);
  }

  // ---------- Two addresses that come out wrong ----------

  function OneDigit(n: group): seq<byte>
    requires n < 10
  {
    var c: byte := n + 48;
    [c]
  }

  /** Groups of one decimal digit each, as fields. */
  function Single(ns: seq<group>): seq<seq<byte>>
    requires forall i :: 0 <= i < |ns| ==> ns[i] < 10
  {
    seq(|ns|, i requires 0 <= i < |ns| => OneDigit(ns[i]))
  }

  lemma SingleValues(ns: seq<group>)
    requires forall i :: 0 <= i < |ns| ==> ns[i] < 10
    ensures AreFields(Single(ns)) && Values(Single(ns)) == ns
  {
    forall i | 0 <= i < |ns|
      ensures IsField(Single(ns)[i]) && Value(Single(ns)[i]) == ns[i]
    {
      var f := OneDigit(ns[i]);
      assert f[..0] == [] && FieldValue(f[..0]) == 0;
      assert FieldValue(f) == FieldValue(f[..|f| - 1]) * 16 + HexValue(f[|f| - 1]);
    }
  }

  /** 1:1:1:1:1:1:1:1 loses its last group. */
  lemma FullAddressFails(v: seq<group>, tail: seq<byte>)
    requires v == [1, 1, 1, 1, 1, 1, 1, 1] && IsTail(tail)
    ensures Parse(Fields(Single(v)) + tail) == [1, 1, 1, 1, 1, 1, 1, 0]
  {
    SingleValues(v);
    FullAddress(Single(v), tail);
  }

  /** One group before "::" and five behind it: two rounds move two groups, and clear the third. */
  lemma OneAndFive(g1: seq<seq<byte>>, g2: seq<seq<byte>>, tail: seq<byte>)
    requires AreFields(g1) && AreFields(g2) && IsTail(tail) && |g1| == 1 && |g2| == 5
    ensures var v1, v2 := Values(g1), Values(g2);
            Parse(Text(g1, g2, tail)) == [v1[0], 0, v2[0], v2[1], v2[2], 0, v2[3], v2[4]]
  {
    var v1, v2 := Values(g1), Values(g2);
    ScanText(g1, g2, tail);
    FinalOfSix(v1, v2);
  }

  lemma FinalOfSix(v1: seq<group>, v2: seq<group>)
    requires |v1| == 1 && |v2| == 5
    ensures Shift(Accumulated(v1, v2), 6, 1, 2) == [v1[0], 0, v2[0], v2[1], v2[2], 0, v2[3], v2[4]]
  {
    var target := [v1[0], 0, v2[0], v2[1], v2[2], 0, v2[3], v2[4]];
    forall k | 0 <= k < 8
      ensures Shifted(Accumulated(v1, v2), 6, 1, 2, k) == target[k]
    {
      AccumulatedSlot(v1, v2, k);
    }
    ShiftIs(Accumulated(v1, v2), 6, 1, target);
  }

  /** 1::2:3:4:5:6 comes out as 1:0:2:3:4:0:5:6, not as 1:0:0:2:3:4:5:6. */
  lemma ShortAddressFails(v1: seq<group>, v2: seq<group>, tail: seq<byte>)
    requires v1 == [1] && v2 == [2, 3, 4, 5, 6] && IsTail(tail)
    ensures Parse(Text(Single(v1), Single(v2), tail)) == [1, 0, 2, 3, 4, 0, 5, 6]
    ensures Expansion(v1, v2) == [1, 0, 0, 2, 3, 4, 5, 6]
  {
    SingleValues(v1);
    SingleValues(v2);
    OneAndFive(Single(v1), Single(v2), tail);
  }
}
