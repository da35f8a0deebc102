/** Lines of the sensor bus as processLine reads them: fields by jsonData, numbers by atoi. */
module Lines {
  import opened Functions

  /** What a line asks for; Overread is a line on which jsonData leaves the string. */
  datatype Line = Report(id: int, st: int, ty: int) | Badge(key: string) | Lock | Unlock | Other | Overread

  // ---------- atoi ----------

  predicate IsDigit(c: char) { '0' <= c <= '9' }

  predicate IsSpace(c: char) { c == ' ' || '\t' <= c <= '\r' }

  /** The digits s starts with, read behind those that made acc. */
  function AtoiDigits(s: string, acc: nat): nat {
    if s == "" || !IsDigit(s[0]) then acc else AtoiDigits(s[1..], acc * 10 + (s[0] as int - '0' as int))
  }

  function Atoi(s: string): int {
    if s != "" && IsSpace(s[0]) then Atoi(s[1..])
    else if s != "" && s[0] == '-' then -(AtoiDigits(s[1..], 0) as int)
    else if s != "" && s[0] == '+' then AtoiDigits(s[1..], 0)
    else AtoiDigits(s, 0)
  }

  function Decimal(n: nat): string {
    (if n < 10 then "" else Decimal(n / 10)) + [(n % 10 + '0' as int) as char]
  }

  lemma {:induction false} DecimalIsDigits(n: nat)
    ensures Decimal(n) != "" && forall c :: c in Decimal(n) ==> IsDigit(c)
  {
    if n >= 10 {
      DecimalIsDigits(n / 10);
    }
  }

  lemma {:induction false} AtoiAppend(s: string, acc: nat, c: char)
    requires IsDigit(c) && forall d :: d in s ==> IsDigit(d)
    ensures AtoiDigits(s + [c], acc) == AtoiDigits(s, acc) * 10 + (c as int - '0' as int)
    decreases |s|
  {
    if s == "" {
      assert (s + [c])[1..] == "";
    } else {
      assert (s + [c])[1..] == s[1..] + [c];
      assert IsDigit(s[0]);
      AtoiAppend(s[1..], acc * 10 + (s[0] as int - '0' as int), c);
    }
  }

  lemma {:induction false} AtoiDecimal(n: nat)
    ensures AtoiDigits(Decimal(n), 0) == n
  {
    var c := (n % 10 + '0' as int) as char;
    if n < 10 {
      AtoiAppend("", 0, c);
    } else {
      AtoiDecimal(n / 10);
      DecimalIsDigits(n / 10);
      AtoiAppend(Decimal(n / 10), 0, c);
    }
  }

  /** atoi reads back every number written in decimal. */
  lemma AtoiRoundTrip(n: nat)
    ensures Atoi(Decimal(n)) == n
  {
    DecimalIsDigits(n);
    AtoiDecimal(n);
    assert Decimal(n)[0] in Decimal(n);
  }

  // ---------- processLine's reading of a line ----------

  function ParseReport(s: string): Line {
    match (JsonData(s, "id"), JsonData(s, "st"), JsonData(s, "ty"))
    case (Value(id), Value(st), Value(ty)) => Report(Atoi(id), Atoi(st), Atoi(ty))
    case _ => Overread
  }

  function ParseLine(s: string): Line {
    match JsonData(s, "cmd")
    case Overrun => Overread
    case Value(cmd) =>
      if cmd == "" then Other
      else if cmd[0] == 'g' then ParseReport(s)
      else if cmd[0] == 'c' then (match JsonData(s, "key") case Value(k) => Badge(k) case Overrun => Overread)
      else if cmd[0] == 'l' then Lock
      else if cmd[0] == 'u' then Unlock
      else Other
  }

  function ReportPairs(id: string, st: string, ty: string): seq<Pair> {
    [Pair("cmd", "g"), Pair("id", id), Pair("st", st), Pair("ty", ty)]
  }

  /** A sensor report as a line of text. */
  function ReportText(id: nat, st: nat, ty: nat): string {
    Render(ReportPairs(Decimal(id), Decimal(st), Decimal(ty)))
  }

  lemma ReportField(i: string, s: string, t: string, m: nat, rest: string)
    requires m < 4 && forall c :: c in i || c in s || c in t ==> IsDigit(c)
    ensures var ps := ReportPairs(i, s, t); JsonData(Render(ps) + rest, ps[m].key) == Value(ps[m].value)
  {
    var ps := ReportPairs(i, s, t);
    var q := if m == 3 then 1 else 0;
    assert ps[m].key[q] !in ps[m].key[..q] && NotBefore(ps, m, ps[m].key[q]) && IsPlain(ps[m].value) by {
      if m == 3 {
        assert ps[m].key[..q] == "t";
      }
    }
    RoundTripRecord(ps, m, q, rest);
  }

  /** Every sensor report is read back as it was written, whatever its three numbers and whatever ends the line. */
  lemma ReportRoundTrip(id: nat, st: nat, ty: nat, rest: string)
    ensures ParseLine(ReportText(id, st, ty) + rest) == Report(id, st, ty)
  {
    var i, s, t := Decimal(id), Decimal(st), Decimal(ty);
    DecimalIsDigits(id);
    DecimalIsDigits(st);
    DecimalIsDigits(ty);
    ReportField(i, s, t, 0, rest);
    ReportField(i, s, t, 1, rest);
    ReportField(i, s, t, 2, rest);
    ReportField(i, s, t, 3, rest);
    AtoiRoundTrip(id);
    AtoiRoundTrip(st);
    AtoiRoundTrip(ty);
  }

  // ---------- The other lines ----------

  /** A record that begins with the command cmd. */
  function Command(cmd: string, ps: seq<Pair>): string {
    Render([Pair("cmd", cmd)] + ps)
  }

  lemma CommandRead(cmd: string, ps: seq<Pair>, rest: string)
    requires IsPlain(cmd)
    ensures JsonData(Command(cmd, ps) + rest, "cmd") == Value(cmd)
  {
    RoundTripRecord([Pair("cmd", cmd)] + ps, 0, 0, rest);
  }

  /** What a line asks for is told by the first letter of its command. */
  lemma CommandLine(cmd: string, ps: seq<Pair>, rest: string)
    requires IsPlain(cmd)
    ensures var line := ParseLine(Command(cmd, ps) + rest);
            && (cmd == "" ==> line == Other)
            && (cmd != "" && cmd[0] == 'l' ==> line == Lock)
            && (cmd != "" && cmd[0] == 'u' ==> line == Unlock)
            && (cmd != "" && cmd[0] !in {'g', 'c', 'l', 'u'} ==> line == Other)
  {
    CommandRead(cmd, ps, rest);
  }

  /** A badge line gives its key, whatever that is. */
  lemma BadgeLine(key: string, ps: seq<Pair>, rest: string)
    requires IsPlain(key)
    ensures ParseLine(Command("c", [Pair("key", key)] + ps) + rest) == Badge(key)
  {
    CommandRead("c", [Pair("key", key)] + ps, rest);
    RoundTripRecord([Pair("cmd", "c")] + ([Pair("key", key)] + ps), 1, 0, rest);
  }

  lemma {:induction false} AtoiStops(s: string, acc: nat, rest: string)
    requires (forall c :: c in s ==> IsDigit(c)) && (rest == "" || !IsDigit(rest[0]))
    ensures AtoiDigits(s + rest, acc) == AtoiDigits(s, acc)
    decreases |s|
  {
    if s == "" {
      assert s + rest == rest;
    } else {
      assert IsDigit(s[0]) && (s + rest)[1..] == s[1..] + rest;
      AtoiStops(s[1..], acc * 10 + (s[0] as int - '0' as int), rest);
    }
  }

  /** atoi skips leading spaces, heeds one sign, and stops at the first character that is no digit. */
  lemma {:induction false} AtoiText(spaces: string, sign: string, n: nat, rest: string)
    requires (forall c :: c in spaces ==> IsSpace(c)) && sign in {"", "+", "-"} && (rest == "" || !IsDigit(rest[0]))
    ensures Atoi(spaces + (sign + (Decimal(n) + rest))) == if sign == "-" then -(n as int) else n
    decreases |spaces|
  {
    var text := sign + (Decimal(n) + rest);
    if spaces == "" {
      assert spaces + text == text;
      DecimalIsDigits(n);
      AtoiDecimal(n);
      AtoiStops(Decimal(n), 0, rest);
      assert Decimal(n)[0] in Decimal(n);
      if sign == "" {
        assert text == Decimal(n) + rest;
      } else {
        assert text[1..] == Decimal(n) + rest;
      }
    } else {
      assert spaces[0] in spaces;
      assert (spaces + text)[1..] == spaces[1..] + text;
      AtoiText(spaces[1..], sign, n, rest);
    }
  }
}
