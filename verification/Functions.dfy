/**
 The substring scan of UString, and its two users: replace, and the field parser
 jsonData, which reads a value out of a line of flat JSON without building a tree.
 */
module Functions {

  const NUL: char := 0 as char

  // ---------- What the scan finds ----------

  ghost predicate OccursAt(s: string, key: string, i: nat) {
    i + |key| <= |s| && s[i..i + |key|] == key
  }

  /** Looks for key at i, i+1, ...: the place of its first occurrence, or -1.  The empty key is never found. */
  function First(s: string, key: string, i: nat): (r: int)
    ensures -1 <= r && (r >= 0 ==> r + |key| <= |s|)
    decreases |s| - i
  {
    if key == [] || i + |key| > |s| then -1
    else if s[i..i + |key|] == key then i
    else First(s, key, i + 1)
  }

  /** It is the leftmost occurrence, and it misses none. */
  lemma {:induction false} FirstIsLeftmost(s: string, key: string, i: nat)
    ensures var r := First(s, key, i);
            && (r >= 0 ==> key != [] && i <= r && OccursAt(s, key, r)
                           && forall m :: i <= m < r ==> !OccursAt(s, key, m))
            && (r < 0 ==> key == [] || forall m :: i <= m ==> !OccursAt(s, key, m))
    decreases |s| - i
  {
    if key != [] && i + |key| <= |s| && s[i..i + |key|] != key {
      FirstIsLeftmost(s, key, i + 1);
      var r := First(s, key, i + 1);
      assert !OccursAt(s, key, i);
    }
  }

  /** The scan of jsonData and replace: rep is set by every matching character and cleared by the first that differs. */
  method Scan(s: string, key: string) returns (rep: bool, i: nat)
    ensures if rep then First(s, key, 0) == i else First(s, key, 0) < 0
  {
    rep := false;
    i := 0;
    while i < |s|
      invariant 0 <= i <= |s| && !rep
      invariant First(s, key, 0) == First(s, key, i)
    {
      var j := 0;
      while j < |key|
        invariant 0 <= j <= |key| && i + j <= |s|
        invariant forall m :: 0 <= m < j ==> s[i + m] == key[m]
        invariant rep <==> j > 0
      {
        if i + j < |s| && s[i + j] == key[j] {
          rep := true;
        } else {
          rep := false;
          if i + j < |s| {
            Differs(s, key, i, j);
          }
          break;
        }
        j := j + 1;
      }
      if rep {
        assert s[i..i + |key|] == key;
        return;
      }
      i := i + 1;
    }
  }

  /** What std::string reads at j: the terminator is part of the string. */
  function At(s: string, j: nat): char
    requires j <= |s|
  {
    if j < |s| then s[j] else NUL
  }

  /** The first place from j on that holds c or NUL. */
  function SkipTo(s: string, j: nat, c: char): (k: nat)
    requires j <= |s|
    ensures j <= k <= |s| && (At(s, k) == c || At(s, k) == NUL)
    decreases |s| - j
  {
    if At(s, j) == c || At(s, j) == NUL then j else SkipTo(s, j + 1, c)
  }

  lemma {:induction false} SkipToFirst(s: string, j: nat, c: char)
    requires j <= |s|
    ensures forall m :: j <= m < SkipTo(s, j, c) ==> s[m] != c && s[m] != NUL
    decreases |s| - j
  {
    if At(s, j) != c && At(s, j) != NUL {
      SkipToFirst(s, j + 1, c);
    }
  }

  /** jsonData's answer, or a read behind the terminator. */
  datatype Field = Value(v: string) | Overrun

  function FieldAfter(s: string, j: nat): Field
    requires j <= |s|
  {
    var q := SkipTo(s, SkipTo(s, j, ':'), '"') + 1;
    if q > |s| then Overrun else Value(s[q..SkipTo(s, q, '"')])
  }

  function JsonData(s: string, key: string): Field {
    var i := First(s, key, 0);
    if i < 0 then Value("") else FieldAfter(s, i + |key|)
  }

  /** The loop that jsonData runs twice: up to c or the end. */
  method SkipUntil(s: string, start: nat, c: char) returns (j: nat)
    requires start <= |s|
    ensures j == SkipTo(s, start, c)
  {
    j := start;
    while At(s, j) != c && At(s, j) != NUL
      invariant j <= |s| && SkipTo(s, start, c) == SkipTo(s, j, c)
      decreases |s| - j
    {
      j := j + 1;
    }
  }

  /** jsonData's third loop.  Its counter is never advanced, so the bound of 42 does not cut the value short. */
  method CopyValue(s: string, open: nat) returns (parsed: string)
    requires open <= |s|
    ensures parsed == s[open..SkipTo(s, open, '"')]
  {
    parsed := "";
    var i, j := 0, open;
    while At(s, j) != '"' && At(s, j) != NUL && i < 42
      invariant open <= j <= |s| && i == 0 && parsed == s[open..j]
      invariant SkipTo(s, open, '"') == SkipTo(s, j, '"')
      decreases |s| - j
    {
      parsed := parsed + [s[j]];
      j := j + 1;
    }
  }

  /** From behind the key: to the colon, to the opening quote, past it, and up to the closing one. */
  method ReadField(s: string, start: nat) returns (r: Field)
    requires start <= |s|
    ensures r == FieldAfter(s, start)
  {
    var j := SkipUntil(s, start, ':');
    j := SkipUntil(s, j, '"');
    j := j + 1;
    if j > |s| {
      return Overrun;
    }
    var parsed := CopyValue(s, j);
    r := Value(parsed);
  }

  /** A UString; its text is edited in place. */
  class UString {
    var text: string

    constructor (text: string)
      ensures this.text == text
    {
      this.text := text;
    }

    /** Replaces the leftmost occurrence and returns a copy of the edited string. */
    method Replace(before: string, after: string) returns (copy: string)
      modifies this
      ensures copy == text
      ensures var i := First(old(text), before, 0);
              text == if i < 0 then old(text) else old(text)[..i] + after + old(text)[i + |before|..]
    {
      var rep, i := Scan(text, before);
      if rep {
        text := text[..i] + after + text[i + |before|..];
      }
      copy := text;
    }

    method GetJsonData(key: string) returns (r: Field)
      ensures r == JsonData(text, key)
    {
      var rep, i := Scan(text, key);
      if rep {
        r := ReadField(text, i + |key|);
      } else {
        r := Value("");
      }
    }
  }

  /** A key that stands nowhere in the text yields the empty string; so does the empty key. */
  lemma KeyAbsent(s: string, key: string)
    requires key == "" || forall i :: 0 <= i <= |s| ==> !OccursAt(s, key, i)
    ensures JsonData(s, key) == Value("")
  {
    FirstIsLeftmost(s, key, 0);
  }

  // ---------- When it stays inside the string ----------

  /** From j on there is no NUL, and no colon with a quote after it. */
  ghost predicate NoValue(s: string, j: nat) {
    forall a :: j <= a < |s| ==> s[a] != NUL && (s[a] == ':' ==> forall b :: a < b < |s| ==> s[b] != '"')
  }

  lemma OverrunBehind(s: string, j: nat)
    requires j <= |s|
    ensures FieldAfter(s, j) == Overrun <==> NoValue(s, j)
  {
    var colon := SkipTo(s, j, ':');
    SkipToFirst(s, j, ':');
    SkipToFirst(s, colon, '"');
  }

  /**
   The parser reads behind the terminator exactly when the key occurs, no NUL comes
   after it, and no colon with a quote after that does.
   */
  lemma OverrunExactly(s: string, key: string)
    ensures JsonData(s, key) == Overrun <==> First(s, key, 0) >= 0 && NoValue(s, First(s, key, 0) + |key|)
  {
    if First(s, key, 0) >= 0 {
      OverrunBehind(s, First(s, key, 0) + |key|);
    }
  }

  /** It happens, for one, on a value without quotes at the end of the line. */
  lemma OverrunHappens()
    ensures JsonData("{\"cmd\":1}\n", "cmd") == Overrun
  {
    var s := "{\"cmd\":1}\n";
    assert s[2..5] == "cmd";
    assert s[..2] == "{\"";
    NoneBefore(s, "cmd", 2, 0);
    OverrunExactly(s, "cmd");
  }

  // ---------- Round trip ----------

  datatype Pair = Pair(key: string, value: string)

  function RenderPair(p: Pair): string {
    "\"" + p.key + "\":\"" + p.value + "\""
  }

  function RenderPairs(ps: seq<Pair>): string {
    if ps == [] then "" else if |ps| == 1 then RenderPair(ps[0])
    else RenderPair(ps[0]) + "," + RenderPairs(ps[1..])
  }

  /** A flat record: {"k":"v",...}. */
  function Render(ps: seq<Pair>): string {
    "{" + RenderPairs(ps) + "}"
  }

  /** Where the key of the m-th pair stands in RenderPairs. */
  function KeyPos(ps: seq<Pair>, m: nat): nat
    requires m < |ps|
  {
    if m == 0 then 1 else |RenderPair(ps[0])| + 1 + KeyPos(ps[1..], m - 1)
  }

  predicate IsPlain(v: string) {
    '"' !in v && NUL !in v
  }

  /** j is right behind a key, and the value v in quotes follows. */
  ghost predicate ValueBehind(s: string, j: nat, v: string) {
    && j + |v| + 4 <= |s| && s[j] == '"' && s[j + 1] == ':' && s[j + 2] == '"'
    && s[j + 3..j + 3 + |v|] == v && s[j + 3 + |v|] == '"'
  }

  /** The two loops over text without what they look for end where it stands. */
  lemma {:induction false} SkipOver(s: string, j: nat, k: nat, c: char)
    requires j <= k < |s| && s[k] == c && forall m :: j <= m < k ==> s[m] != c && s[m] != NUL
    ensures SkipTo(s, j, c) == k
    decreases k - j
  {
    if j < k {
      SkipOver(s, j + 1, k, c);
    }
  }

  /** A plain value yields itself, wherever it stands. */
  lemma FieldInContext(s: string, j: nat, v: string)
    requires IsPlain(v) && ValueBehind(s, j, v)
    ensures FieldAfter(s, j) == Value(v)
  {
    var open := j + 3;
    assert forall m :: 0 <= m < |v| ==> s[open..open + |v|][m] == v[m];
    SkipOver(s, j, j + 1, ':');
    SkipOver(s, j + 1, j + 2, '"');
    SkipOver(s, open, open + |v|, '"');
  }

  /** The m-th pair inside the rendered record. */
  lemma {:induction false} PairAt(ps: seq<Pair>, m: nat)
    requires m < |ps|
    ensures var t := RenderPair(ps[m]); var k := KeyPos(ps, m);
            1 <= k && k - 1 + |t| <= |RenderPairs(ps)| && RenderPairs(ps)[k - 1..k - 1 + |t|] == t
    decreases m
  {
    var r := RenderPairs(ps);
    if m == 0 {
      assert RenderPair(ps[0]) <= r;
    } else {
      var head := RenderPair(ps[0]) + ",";
      assert r == head + RenderPairs(ps[1..]);
      PairAt(ps[1..], m - 1);
      var t, k := RenderPair(ps[m]), KeyPos(ps[1..], m - 1);
      Inner(head, RenderPairs(ps[1..]), "", k - 1, |t|);
      assert head + RenderPairs(ps[1..]) + "" == r;
    }
  }

  /**
   Round trip: for every flat record and every field of it whose value is free of
   quotes and NULs, jsonData returns the whole value, provided the key's text does
   not occur before the key itself.  The line may go on behind the record.
   */
  lemma RoundTrip(ps: seq<Pair>, m: nat, rest: string)
    requires m < |ps| && IsPlain(ps[m].value)
    requires First(Render(ps) + rest, ps[m].key, 0) == 1 + KeyPos(ps, m)
    ensures JsonData(Render(ps) + rest, ps[m].key) == Value(ps[m].value)
  {
    var t, k := RenderPair(ps[m]), KeyPos(ps, m);
    PairAt(ps, m);
    InBraces(RenderPairs(ps), k, t, rest);
    PairParts(ps[m]);
    ReadBack(Render(ps) + rest, k, t, ps[m].key, ps[m].value);
  }

  lemma InBraces(r: string, k: nat, t: string, rest: string)
    requires 1 <= k && k - 1 + |t| <= |r| && r[k - 1..k - 1 + |t|] == t
    ensures var s := "{" + r + "}" + rest; k + |t| <= |s| && s[k..k + |t|] == t
  {
  }

  /** t is "key":"v". */
  ghost predicate IsPair(t: string, key: string, v: string) {
    var n := |key|;
    && |t| == n + |v| + 5
    && t[1 + n] == '"' && t[2 + n] == ':' && t[3 + n] == '"' && t[4 + n + |v|] == '"'
    && t[4 + n..4 + n + |v|] == v
  }

  lemma PairParts(p: Pair)
    ensures IsPair(RenderPair(p), p.key, p.value)
  {
  }

  lemma Transfer(s: string, k: nat, t: string)
    requires k + |t| <= |s| && s[k..k + |t|] == t
    ensures forall m :: 0 <= m < |t| ==> s[k + m] == t[m]
    ensures forall a, b :: 0 <= a <= b <= |t| ==> s[k + a..k + b] == t[a..b]
  {
  }

  lemma ReadBack(s: string, k: nat, t: string, key: string, v: string)
    requires k + |t| <= |s| && s[k..k + |t|] == t && IsPair(t, key, v)
    requires key != "" && IsPlain(v) && First(s, key, 0) == 1 + k
    ensures JsonData(s, key) == Value(v)
  {
    var j := 1 + k + |key|;
    Behind(s, k, t, key, v);
    FieldInContext(s, j, v);
  }

  lemma Behind(s: string, k: nat, t: string, key: string, v: string)
    requires k + |t| <= |s| && s[k..k + |t|] == t && IsPair(t, key, v)
    ensures ValueBehind(s, 1 + k + |key|, v)
  {
    var n := |key|;
    var j := 1 + k + n;
    Transfer(s, k, t);
    assert s[j + 3..j + 3 + |v|] == t[4 + n..4 + n + |v|] by {
      assert j + 3 == k + (4 + n) && j + 3 + |v| == k + (4 + n + |v|);
    }
    assert s[k + (4 + n + |v|)] == t[4 + n + |v|];
  }

  lemma Inner(a: string, b: string, c: string, k: nat, n: nat)
    requires k + n <= |b|
    ensures (a + b + c)[|a| + k..|a| + k + n] == b[k..k + n]
  {
  }

  lemma Differs(s: string, key: string, i: nat, q: nat)
    requires q < |key| && i + q < |s| && s[i + q] != key[q]
    ensures !OccursAt(s, key, i)
  {
  }

  /** Enough for that: some character of the key occurs neither before it in the text nor earlier in the key. */
  lemma NoneBefore(s: string, key: string, pos: nat, q: nat)
    requires OccursAt(s, key, pos) && q < |key| && key[q] !in s[..pos] && key[q] !in key[..q]
    ensures First(s, key, 0) == pos
  {
    FirstIsLeftmost(s, key, 0);
    forall i | 0 <= i < pos
      ensures !OccursAt(s, key, i)
    {
      assert forall k :: 0 <= k < |key| ==> s[pos + k] == s[pos..pos + |key|][k] == key[k];
      if i + q < pos {
        assert s[i + q] == s[..pos][i + q];
      } else {
        assert s[i + q] == key[i + q - pos] == key[..q][i + q - pos];
      }
      Differs(s, key, i, q);
    }
  }

  predicate IsPunctuation(c: char) {
    c == '{' || c == '"' || c == ':' || c == ','
  }

  /** c is no punctuation and stands in none of the first m pairs. */
  ghost predicate NotBefore(ps: seq<Pair>, m: nat, c: char)
    requires m <= |ps|
  {
    !IsPunctuation(c) && forall k :: 0 <= k < m ==> c !in ps[k].key && c !in ps[k].value
  }

  lemma {:induction false} HeadWithout(ps: seq<Pair>, m: nat, c: char)
    requires m < |ps| && NotBefore(ps, m, c)
    ensures KeyPos(ps, m) <= |RenderPairs(ps)| && c !in RenderPairs(ps)[..KeyPos(ps, m)]
    decreases m
  {
    PairAt(ps, m);
    var r := RenderPairs(ps);
    if m == 0 {
      assert RenderPair(ps[0]) <= r && r[..1] == ['"'];
    } else {
      var head := RenderPair(ps[0]) + ",";
      assert c !in head;
      assert forall k :: 0 <= k < m - 1 ==> ps[1..][k] == ps[k + 1];
      HeadWithout(ps[1..], m - 1, c);
      assert r[..KeyPos(ps, m)] == head + RenderPairs(ps[1..])[..KeyPos(ps[1..], m - 1)];
    }
  }

  lemma KeyOccurs(ps: seq<Pair>, m: nat, rest: string)
    requires m < |ps|
    ensures OccursAt(Render(ps) + rest, ps[m].key, 1 + KeyPos(ps, m))
  {
    PairAt(ps, m);
    PairKey(ps[m]);
    PairInBraces(RenderPairs(ps), KeyPos(ps, m), RenderPair(ps[m]), ps[m].key, rest);
  }

  lemma PairInBraces(r: string, k: nat, t: string, key: string, rest: string)
    requires 1 <= k && k - 1 + |t| <= |r| && r[k - 1..k - 1 + |t|] == t
    requires 1 + |key| <= |t| && t[1..1 + |key|] == key
    ensures OccursAt("{" + r + "}" + rest, key, 1 + k)
  {
    InBraces(r, k, t, rest);
    KeyInside("{" + r + "}" + rest, k, t, key);
  }

  lemma KeyInside(s: string, k: nat, t: string, key: string)
    requires k + |t| <= |s| && s[k..k + |t|] == t
    requires 1 + |key| <= |t| && t[1..1 + |key|] == key
    ensures OccursAt(s, key, 1 + k)
  {
    var j := k + (1 + |key|);
    Transfer(s, k, t);
    assert s[k + 1..j] == t[1..1 + |key|];
    assert j == 1 + k + |key|;
  }

  lemma PairKey(p: Pair)
    ensures 1 + |p.key| <= |RenderPair(p)| && RenderPair(p)[1..1 + |p.key|] == p.key
  {
  }

  /**
   The round trip under a condition on the record alone: some character of the key
   is no punctuation, does not stand earlier in the key, and stands in no pair before it.
   */
  lemma RoundTripRecord(ps: seq<Pair>, m: nat, q: nat, rest: string)
    requires m < |ps| && IsPlain(ps[m].value)
    requires q < |ps[m].key| && ps[m].key[q] !in ps[m].key[..q] && NotBefore(ps, m, ps[m].key[q])
    ensures JsonData(Render(ps) + rest, ps[m].key) == Value(ps[m].value)
  {
    var s, pos, c := Render(ps) + rest, 1 + KeyPos(ps, m), ps[m].key[q];
    KeyOccurs(ps, m, rest);
    HeadWithout(ps, m, c);
    assert s[..pos] == ['{'] + RenderPairs(ps)[..KeyPos(ps, m)];
    NoneBefore(s, ps[m].key, pos, q);
    RoundTrip(ps, m, rest);
  }

  // ---------- A key whose text stands in an earlier value ----------

  /** What the record holds from pair m on. */
  lemma {:induction false} SuffixAt(ps: seq<Pair>, m: nat)
    requires m < |ps|
    ensures var k := KeyPos(ps, m) - 1; 0 <= k <= |RenderPairs(ps)| && RenderPairs(ps)[k..] == RenderPairs(ps[m..])
    decreases m
  {
    if m == 0 {
      assert ps[0..] == ps;
    } else {
      SuffixAt(ps[1..], m - 1);
      assert ps[1..][m - 1..] == ps[m..];
      DropBoth(RenderPair(ps[0]) + ",", RenderPairs(ps[1..]), KeyPos(ps[1..], m - 1) - 1);
    }
  }

  lemma DropBoth(a: string, b: string, k: nat)
    requires k <= |b|
    ensures (a + b)[|a| + k..] == b[k..]
  {
  }

  /** The first two pairs, and the rest of the record. */
  lemma TwoPairs(ps: seq<Pair>) returns (more: string)
    requires |ps| >= 2
    ensures RenderPairs(ps) == RenderPair(ps[0]) + "," + (RenderPair(ps[1]) + more)
  {
    more := if |ps| == 2 then "" else "," + RenderPairs(ps[2..]);
    assert ps[1..][1..] == ps[2..];
  }

  /** Cut d characters into the value of the first of two pairs. */
  lemma CutValue(p: Pair, q: Pair, d: nat, more: string)
    requires d <= |p.value|
    ensures (RenderPair(p) + "," + (RenderPair(q) + more))[4 + |p.key| + d..]
            == p.value[d..] + Bridge(q.key) + (q.value + "\"" + more)
  {
    DropBoth("\"" + p.key + "\":\"", p.value + "\"", d);
    assert RenderPair(p) == "\"" + p.key + "\":\"" + (p.value + "\"");
    assert RenderPair(p)[4 + |p.key| + d..] == p.value[d..] + "\"";
    assert RenderPair(q) + more == "\"" + q.key + "\":\"" + (q.value + "\"" + more);
  }

  /** What stands between one value and the next. */
  function Bridge(key: string): string {
    "\",\"" + key + "\":\""
  }

  lemma FieldFromValue(s: string, j: nat, v: string, key: string, w: string, more: string)
    requires j <= |s| && s[j..] == v + Bridge(key) + (w + "\"" + more) && IsPlain(w)
    requires ':' !in v && NUL !in v && ':' !in key && NUL !in key
    ensures FieldAfter(s, j) == Value(w)
  {
    var colon := j + |v| + 4 + |key|;
    var open := colon + 2;
    BridgeParts(s, j, v, key, w, more);
    SkipOver(s, j, colon, ':');
    SkipOver(s, colon, colon + 1, '"');
    SkipOver(s, open, open + |w|, '"');
  }

  lemma BridgeParts(s: string, j: nat, v: string, key: string, w: string, more: string)
    requires j <= |s| && s[j..] == v + Bridge(key) + (w + "\"" + more) && IsPlain(w)
    requires ':' !in v && NUL !in v && ':' !in key && NUL !in key
    ensures var colon := j + |v| + 4 + |key|; var open := colon + 2;
            && open + |w| < |s| && s[colon] == ':' && s[colon + 1] == '"' && s[open + |w|] == '"'
            && s[open..open + |w|] == w
            && (forall m :: j <= m < colon ==> s[m] != ':' && s[m] != NUL)
            && forall m :: open <= m < open + |w| ==> s[m] != '"' && s[m] != NUL
  {
    var t := s[j..];
    assert forall m :: j <= m < |s| ==> s[m] == t[m - j];
    var open := |v| + 6 + |key|;
    assert t[open..open + |w|] == w;
    assert forall m :: 0 <= m < |w| ==> t[open + m] == w[m];
  }

  /** What follows d characters into the value of pair m. */
  lemma FromValue(ps: seq<Pair>, m: nat, d: nat) returns (more: string)
    requires m + 1 < |ps| && d <= |ps[m].value|
    ensures var k, n := KeyPos(ps, m), 4 + |ps[m].key| + d; var r := RenderPairs(ps);
            && 1 <= k && k - 1 + n <= |r|
            && r[k - 1 + n..] == ps[m].value[d..] + Bridge(ps[m + 1].key) + (ps[m + 1].value + "\"" + more)
  {
    var k, n := KeyPos(ps, m), 4 + |ps[m].key| + d;
    SuffixAt(ps, m);
    assert ps[m..][0] == ps[m] && ps[m..][1] == ps[m + 1];
    more := TwoPairs(ps[m..]);
    CutValue(ps[m], ps[m + 1], d, more);
    DropTwice(RenderPairs(ps), k - 1, n);
  }

  lemma DropTwice(r: string, k: nat, n: nat)
    requires k <= |r| && n <= |r[k..]|
    ensures r[k..][n..] == r[k + n..]
  {
  }

  /** The same in the line. */
  lemma InLine(r: string, e: nat, a: string, w: string, more: string, rest: string)
    requires e <= |r| && r[e..] == a + (w + "\"" + more)
    ensures var s := "{" + r + "}" + rest;
            1 + e <= |s| && s[1 + e..] == a + (w + "\"" + (more + "}" + rest))
  {
    var s := "{" + r + "}" + rest;
    assert s[1 + e..] == r[e..] + "}" + rest;
    assert a + (w + "\"" + more) + "}" + rest == a + (w + "\"" + (more + "}" + rest));
  }

  lemma LineFromValue(ps: seq<Pair>, m: nat, d: nat, rest: string, s: string, e: nat) returns (more: string)
    requires m + 1 < |ps| && d <= |ps[m].value|
    requires s == Render(ps) + rest && e == KeyPos(ps, m) + 4 + |ps[m].key| + d
    ensures e <= |s| && s[e..] == ps[m].value[d..] + Bridge(ps[m + 1].key) + (ps[m + 1].value + "\"" + more)
  {
    more := FromValue(ps, m, d);
    InLine(RenderPairs(ps), e - 1, ps[m].value[d..] + Bridge(ps[m + 1].key), ps[m + 1].value, more, rest);
    more := more + "}" + rest;
  }

  /**
   When the key's text first occurs elsewhere: if that occurrence ends inside the value
   of some pair, no colon follows in that value, and the next pair is plain, jsonData
   returns the value of the next pair.
   */
  lemma NextField(ps: seq<Pair>, m: nat, d: nat, key: string, rest: string)
    requires m + 1 < |ps| && d <= |ps[m].value|
    requires First(Render(ps) + rest, key, 0) >= 0
    requires First(Render(ps) + rest, key, 0) + |key| == KeyPos(ps, m) + 4 + |ps[m].key| + d
    requires ':' !in ps[m].value[d..] && NUL !in ps[m].value[d..]
    requires ':' !in ps[m + 1].key && NUL !in ps[m + 1].key && IsPlain(ps[m + 1].value)
    ensures JsonData(Render(ps) + rest, key) == Value(ps[m + 1].value)
  {
    var s, e := Render(ps) + rest, KeyPos(ps, m) + 4 + |ps[m].key| + d;
    FieldFromPair(ps, m, d, rest, s, e);
    FieldAtFirst(s, key, e, ps[m + 1].value);
  }

  lemma FieldFromPair(ps: seq<Pair>, m: nat, d: nat, rest: string, s: string, e: nat)
    requires m + 1 < |ps| && d <= |ps[m].value|
    requires ':' !in ps[m].value[d..] && NUL !in ps[m].value[d..]
    requires ':' !in ps[m + 1].key && NUL !in ps[m + 1].key && IsPlain(ps[m + 1].value)
    requires s == Render(ps) + rest && e == KeyPos(ps, m) + 4 + |ps[m].key| + d
    ensures e <= |s| && FieldAfter(s, e) == Value(ps[m + 1].value)
  {
    var more := LineFromValue(ps, m, d, rest, s, e);
    FieldFromValue(s, e, ps[m].value[d..], ps[m + 1].key, ps[m + 1].value, more);
  }

  lemma FieldAtFirst(s: string, key: string, e: nat, w: string)
    requires First(s, key, 0) >= 0 && First(s, key, 0) + |key| == e && FieldAfter(s, e) == Value(w)
    ensures JsonData(s, key) == Value(w)
  {
  }
}
