/**
 What the base station writes to its log: which messages it sends, in which order and
 why, when it pings, when it connects, and what its counters and sensors hold then.
 */
module StationLog {
  import opened Bytes
  import opened Lines
  import opened Base

  // ---------- What is written to the log ----------

  /** m was handed to the socket, or lost. */
  predicate IsText(a: Act, m: Message) { a == Sent(m) || a == Lost(m) }

  /** A connection attempt, or the greeting right behind one. */
  predicate IsGreetAt(log: seq<Act>, k: nat)
    requires k < |log|
  {
    log[k].Connect? || (IsText(log[k], Hello) && k > 0 && log[k - 1].Connect?)
  }

  ghost predicate GreetsFrom(log: seq<Act>, from: nat) {
    forall k :: from <= k < |log| ==> IsGreetAt(log, k)
  }

  /** The log b is a, then head, then only attempts to connect and greetings. */
  ghost predicate Grew(a: seq<Act>, b: seq<Act>, head: seq<Act>) {
    a + head <= b && GreetsFrom(b, |a| + |head|)
  }

  /** The act a message leaves: it is sent exactly if the socket is connected and Send is done with it. */
  function Outcome(env: Env, s: State, m: Message): Act {
    if s.connected && env.send(s.tick) == Done then Sent(m) else Lost(m)
  }

  lemma {:induction false} SendGrew(env: Env, s: State, m: Message, fuel: nat, t: State)
    requires AfterSend(env, s, m, fuel) == Some(t)
    ensures Grew(s.log, t.log, [Outcome(env, s, m)])
    decreases fuel
  {
    if s.connected && Fails(env.send(s.tick)) {
      ConnectGrew(env, Offered(env, s, m), false, fuel - 1, t);
    }
  }

  lemma {:induction false} ConnectGrew(env: Env, s: State, force: bool, fuel: nat, t: State)
    requires AfterConnect(env, s, force, fuel) == Some(t)
    ensures Grew(s.log, t.log, [])
    decreases fuel
  {
    if env.time(s.tick) - s.lastTry > 10.0 || force {
      if env.connect(s.tick + 2) == Done {
        var u := Accepted(env, s, force);
        SendGrew(env, u, Hello, fuel - 1, t);
        GreetedGrew(s.log, Connect(env.time(s.tick + 1), force), Outcome(env, u, Hello), t.log);
      }
    }
  }

  lemma GreetedGrew(a: seq<Act>, c: Act, x: Act, b: seq<Act>)
    requires Grew(a + [c], b, [x]) && c.Connect? && IsText(x, Hello)
    ensures Grew(a, b, [])
  {
    var n := |a|;
    assert a + [c] + [x] <= b;
    assert b[n] == c && b[n + 1] == x && a <= b;
    forall k | n <= k < |b|
      ensures IsGreetAt(b, k)
    {
    }
  }

  /** Past the gate, or forced: the attempt is logged, and behind one that succeeds the greeting. */
  lemma ConnectGreets(env: Env, s: State, force: bool, fuel: nat, t: State)
    requires AfterConnect(env, s, force, fuel) == Some(t)
    ensures var open := force || env.time(s.tick) - s.lastTry > 10.0;
            && (!open ==> t.log == s.log)
            && (open ==> |t.log| > |s.log| && t.log[|s.log|] == Connect(env.time(s.tick + 1), force))
            && (open && env.connect(s.tick + 2) == Done ==> |t.log| > |s.log| + 1 && IsText(t.log[|s.log| + 1], Hello))
  {
    if force || env.time(s.tick) - s.lastTry > 10.0 {
      var u := Accepted(env, s, force);
      if env.connect(s.tick + 2) == Done {
        SendGrew(env, u, Hello, fuel - 1, t);
        assert u.log + [Outcome(env, u, Hello)] <= t.log;
      }
    }
  }

  /** The station starts with a forced attempt, no ping outstanding, and the sensors it was given. */
  lemma StartForces(env: Env, sensors: Sensors, fuel: nat, t: State)
    requires AfterStart(env, sensors, fuel) == Some(t)
    ensures t.log != [] && t.log[0] == Connect(env.time(3), true)
    ensures t.pingDone && t.pingTime == env.time(1) && t.sensors == sensors && !t.updated
  {
    ConnectGreets(env, Initial(env, sensors), true, fuel, t);
    ConnectOnly(env, Initial(env, sensors), true, fuel, t);
  }

  lemma GetGrew(env: Env, s: State, i: Input, fuel: nat, t: State)
    requires AfterGet(env, s, i, fuel) == Some(t)
    ensures Grew(s.log, t.log, [])
  {
    if s.connected && Fails(i.receive) {
      ConnectGrew(env, s.(connected := false), false, fuel, t);
    }
  }

  /** Reports, lock and unlock are forwarded. */
  predicate IsForwarded(line: Line) {
    line.Report? || line.Lock? || line.Unlock?
  }

  lemma LineGrew(env: Env, s: State, line: Line, fuel: nat, t: State)
    requires AfterLine(env, s, line, fuel) == Some(t)
    ensures Grew(s.log, t.log, if IsForwarded(line) then [Outcome(env, s, Forward(line))] else [])
  {
    if line.Report? {
      SendGrew(env, AfterReport(s, line), Forward(line), fuel, t);
    } else if IsForwarded(line) {
      SendGrew(env, s, Forward(line), fuel, t);
    }
  }

  lemma SocketGrew(env: Env, s: State, g: Got, fuel: nat, t: State)
    requires AfterSocket(env, s, g, fuel) == Some(t)
    ensures Grew(s.log, t.log,
                 if g.GotPing? then [Outcome(env, s, PongText)] else if g.GotPong? && !s.pingDone then [Pong] else [])
  {
    if g.GotPing? {
      SendGrew(env, s, PongText, fuel, t);
    }
  }

  /** What the ping timer writes first. */
  function TimerActs(env: Env, s: State): seq<Act> {
    var elapsed := env.time(s.tick) - s.pingTime;
    if s.pingDone && elapsed > 5.0 then
      [Ping(env.time(s.tick + 1)), Outcome(env, s.(tick := s.tick + 2), PingText)]
    else if !s.pingDone && elapsed > 2.0 then [Timeout]
    else []
  }

  lemma TimerGrew(env: Env, s: State, fuel: nat, t: State)
    requires AfterPingTimer(env, s, fuel) == Some(t)
    ensures Grew(s.log, t.log, TimerActs(env, s))
  {
    if s.pingDone && env.time(s.tick) - s.pingTime > 5.0 {
      var u := Pinged(env, s);
      SendGrew(env, u, PingText, fuel, t);
      assert u.log + [Outcome(env, u, PingText)] == s.log + TimerActs(env, s);
    }
  }

  /** The messages of a log, sent or lost, greetings aside. */
  function Texts(log: seq<Act>): seq<Message> {
    if log == [] then []
    else
      var a := log[|log| - 1];
      Texts(log[..|log| - 1]) + if (a.Sent? || a.Lost?) && a.m != Hello then [a.m] else []
  }

  lemma {:induction false} TextsConcat(a: seq<Act>, b: seq<Act>)
    ensures Texts(a + b) == Texts(a) + Texts(b)
    decreases |b|
  {
    if b == [] {
      assert a + b == a;
    } else {
      var n := |b| - 1;
      assert (a + b)[..|a + b| - 1] == a + b[..n];
      TextsConcat(a, b[..n]);
      var last := if (b[n].Sent? || b[n].Lost?) && b[n].m != Hello then [b[n].m] else [];
      ConcatAssoc(Texts(a), Texts(b[..n]), last);
    }
  }

  lemma {:induction false} GreetTexts(log: seq<Act>, from: nat)
    requires from <= |log| && GreetsFrom(log, from)
    ensures Texts(log) == Texts(log[..from])
    decreases |log|
  {
    if from < |log| {
      var n := |log| - 1;
      forall k | from <= k < n
        ensures IsGreetAt(log[..n], k)
      {
        assert IsGreetAt(log, k);
      }
      GreetTexts(log[..n], from);
      assert IsGreetAt(log, n) && log[..n][..from] == log[..from];
    } else {
      assert log[..from] == log;
    }
  }

  lemma GrewTexts(a: seq<Act>, b: seq<Act>, head: seq<Act>)
    requires Grew(a, b, head)
    ensures Texts(b) == Texts(a) + Texts(head)
  {
    GreetTexts(b, |a| + |head|);
    assert b[..|a| + |head|] == a + head;
    TextsConcat(a, head);
  }

  lemma OneText(a: Act)
    ensures Texts([a]) == if (a.Sent? || a.Lost?) && a.m != Hello then [a.m] else []
  {
    assert [a][..0] == [];
  }

  /** The message a line gives rise to. */
  function LineTexts(line: Option<Line>): seq<Message> {
    if line.Some? && IsForwarded(line.value) then [Forward(line.value)] else []
  }

  lemma GetTexts(env: Env, s: State, i: Input, fuel: nat, t: State)
    requires AfterGet(env, s, i, fuel) == Some(t)
    ensures Texts(t.log) == Texts(s.log)
  {
    GetGrew(env, s, i, fuel, t);
    GrewTexts(s.log, t.log, []);
  }

  lemma BeforeTimerTexts(env: Env, s: State, i: Input, fuel: nat, t: State)
    requires BeforeTimer(env, s, i, fuel) == Some(t)
    ensures Texts(t.log)
            == Texts(s.log) + LineTexts(i.line)
             + (if s.connected && i.receive == Done && i.got.GotPing? then [PongText] else [])
  {
    var (s1, s2, s3) := Stages(env, s, i, fuel);
    GetTexts(env, s, i, fuel, s1);
    LineStage(env, s1, i.line, fuel, s2);
    SocketTexts(env, s2, Received(s, i), fuel, s3);
  }

  lemma LineStage(env: Env, s: State, line: Option<Line>, fuel: nat, t: State)
    requires if line.Some? then AfterLine(env, s, line.value, fuel) == Some(t) else t == s
    ensures Texts(t.log) == Texts(s.log) + LineTexts(line)
  {
    if line.Some? {
      LineGrew(env, s, line.value, fuel, t);
      var head := if IsForwarded(line.value) then [Outcome(env, s, Forward(line.value))] else [];
      GrewTexts(s.log, t.log, head);
      OneText(Outcome(env, s, Forward(line.value)));
    }
  }

  lemma SocketTexts(env: Env, s: State, g: Got, fuel: nat, t: State)
    requires AfterSocket(env, s, g, fuel) == Some(t)
    ensures Texts(t.log) == Texts(s.log) + if g.GotPing? then [PongText] else []
  {
    SocketGrew(env, s, g, fuel, t);
    OneText(Outcome(env, s, PongText));
    OneText(Pong);
    var head := if g.GotPing? then [Outcome(env, s, PongText)] else if g.GotPong? && !s.pingDone then [Pong] else [];
    GrewTexts(s.log, t.log, head);
  }

  lemma TimerActsTexts(env: Env, s: State)
    ensures var pings := s.pingDone && env.time(s.tick) - s.pingTime > 5.0;
            && Texts(TimerActs(env, s)) == (if pings then [PingText] else [])
            && (pings ==> |TimerActs(env, s)| == 2 && TimerActs(env, s)[0].Ping?)
  {
    OneText(Timeout);
    if s.pingDone && env.time(s.tick) - s.pingTime > 5.0 {
      var a, b := Ping(env.time(s.tick + 1)), Outcome(env, s.(tick := s.tick + 2), PingText);
      TextsConcat([a], [b]);
      OneText(a);
      OneText(b);
      assert [a, b] == [a] + [b];
    }
  }

  lemma TimerTexts(env: Env, s: State, fuel: nat, t: State)
    requires AfterPingTimer(env, s, fuel) == Some(t)
    ensures var pings := s.pingDone && env.time(s.tick) - s.pingTime > 5.0;
            && Texts(t.log) == Texts(s.log) + (if pings then [PingText] else [])
            && (pings ==> |t.log| > |s.log| && t.log[|s.log|].Ping?)
  {
    TimerGrew(env, s, fuel, t);
    GrewTexts(s.log, t.log, TimerActs(env, s));
    TimerActsTexts(env, s);
    if TimerActs(env, s) != [] {
      assert (s.log + TimerActs(env, s))[|s.log|] == TimerActs(env, s)[0];
    }
  }

  /** Some act of the log from a place on is a ping decision. */
  ghost predicate PingSince(log: seq<Act>, from: nat) {
    exists k :: from <= k < |log| && log[k].Ping?
  }

  /**
   The messages of one pass, in order: the line if it is a report, lock or unlock, a
   PONG for a PING received, and a PING if the pass decides on one.
   */
  lemma PassTexts(env: Env, s: State, i: Input, fuel: nat, t: State)
    requires AfterPass(env, s, i, fuel) == Some(t)
    ensures var answer := if s.connected && i.receive == Done && i.got.GotPing? then [PongText] else [];
            var before := Texts(s.log) + LineTexts(i.line) + answer;
            Texts(t.log) == before || (Texts(t.log) == before + [PingText] && PingSince(t.log, |s.log|))
  {
    var s3 := BeforeTimer(env, s, i, fuel).value;
    var s4 := AfterPingTimer(env, s3, fuel).value;
    BeforeTimerTexts(env, s, i, fuel, s3);
    BeforeTimerOnly(env, s, i, fuel, s3);
    TimerTexts(env, s3, fuel, s4);
    if !s4.connected {
      ConnectGrew(env, s4, false, fuel, t);
      GrewTexts(s4.log, t.log, []);
    }
    if s3.pingDone && env.time(s3.tick) - s3.pingTime > 5.0 {
      assert t.log[|s3.log|].Ping?;
    }
  }

  /** The lines forwarded, among the messages. */
  function ForwardedLines(ms: seq<Message>): seq<Line> {
    if ms == [] then []
    else ForwardedLines(ms[..|ms| - 1]) + if ms[|ms| - 1].Forward? then [ms[|ms| - 1].line] else []
  }

  /** The lines of the inputs that are reports, lock or unlock. */
  function InputLines(ins: seq<Input>): seq<Line> {
    if ins == [] then []
    else
      var i := ins[0];
      (if i.line.Some? && IsForwarded(i.line.value) then [i.line.value] else []) + InputLines(ins[1..])
  }

  lemma {:induction false} ForwardedConcat(a: seq<Message>, b: seq<Message>)
    ensures ForwardedLines(a + b) == ForwardedLines(a) + ForwardedLines(b)
    decreases |b|
  {
    if b == [] {
      assert a + b == a;
    } else {
      var n := |b| - 1;
      assert (a + b)[..|a + b| - 1] == a + b[..n];
      ForwardedConcat(a, b[..n]);
      ConcatAssoc(ForwardedLines(a), ForwardedLines(b[..n]), if b[n].Forward? then [b[n].line] else []);
    }
  }

  lemma OneForwarded(m: Message)
    ensures ForwardedLines([m]) == if m.Forward? then [m.line] else []
  {
    assert [m][..0] == [];
  }

  /** Neither PING nor PONG is a line forwarded. */
  lemma NotForwarded(ms: seq<Message>, m: Message)
    requires !m.Forward?
    ensures ForwardedLines(ms + [m]) == ForwardedLines(ms)
  {
    assert (ms + [m])[..|ms|] == ms;
  }

  lemma InputForwarded(ms: seq<Message>, i: Input)
    ensures ForwardedLines(ms + LineTexts(i.line)) == ForwardedLines(ms) + InputLines([i])
  {
    ForwardedConcat(ms, LineTexts(i.line));
    if LineTexts(i.line) != [] {
      OneForwarded(LineTexts(i.line)[0]);
    }
    assert [i][1..] == [];
  }

  lemma PassLines(env: Env, s: State, i: Input, fuel: nat, t: State)
    requires AfterPass(env, s, i, fuel) == Some(t)
    ensures ForwardedLines(Texts(t.log)) == ForwardedLines(Texts(s.log)) + InputLines([i])
  {
    PassTexts(env, s, i, fuel, t);
    var forwarded := Texts(s.log) + LineTexts(i.line);
    var answer := if s.connected && i.receive == Done && i.got.GotPing? then [PongText] else [];
    InputForwarded(Texts(s.log), i);
    if answer == [] {
      assert forwarded + answer == forwarded;
    } else {
      NotForwarded(forwarded, PongText);
    }
    NotForwarded(forwarded + answer, PingText);
  }

  lemma {:induction false} PassesForward(env: Env, s: State, ins: seq<Input>, fuel: nat, t: State)
    requires AfterPasses(env, s, ins, fuel) == Some(t)
    ensures ForwardedLines(Texts(t.log)) == ForwardedLines(Texts(s.log)) + InputLines(ins)
    decreases |ins|
  {
    if ins != [] {
      var s1 := AfterPass(env, s, ins[0], fuel).value;
      PassLines(env, s, ins[0], fuel, s1);
      PassesForward(env, s1, ins[1..], fuel, t);
      assert [ins[0]][1..] == [];
      ConcatAssoc(ForwardedLines(Texts(s.log)), InputLines([ins[0]]), InputLines(ins[1..]));
    }
  }

  /**
   In every run that returns, the lines forwarded, sent or lost, are exactly the
   reports, locks and unlocks read, in order.
   */
  lemma RunForwards(env: Env, sensors: Sensors, ins: seq<Input>, fuel: nat, t: State)
    requires AfterRun(env, sensors, ins, fuel) == Some(t)
    ensures ForwardedLines(Texts(t.log)) == InputLines(ins)
  {
    var s := AfterStart(env, sensors, fuel).value;
    ConnectGrew(env, Initial(env, sensors), true, fuel, s);
    GrewTexts([], s.log, []);
    PassesForward(env, s, ins, fuel, t);
  }

  // ---------- Pings ----------

  /** A ping decision is followed by its message, which stands nowhere else. */
  predicate PingAt(log: seq<Act>, k: nat)
    requires k < |log|
  {
    log[k].Ping? <==> k + 1 < |log| && IsText(log[k + 1], PingText)
  }

  ghost predicate PingsSent(log: seq<Act>) {
    (forall k :: 0 <= k < |log| ==> PingAt(log, k)) && (log != [] ==> !IsText(log[0], PingText))
  }

  lemma GrewPings(a: seq<Act>, b: seq<Act>, head: seq<Act>)
    requires Grew(a, b, head) && PingsSent(a) && PingsSent(head)
    ensures PingsSent(b)
  {
    var n := |a| + |head|;
    forall k | 0 <= k < |b|
      ensures PingAt(b, k)
    {
      assert k < n ==> b[k] == (a + head)[k];
      assert k + 1 < n ==> b[k + 1] == (a + head)[k + 1];
      assert n <= k ==> IsGreetAt(b, k);
      assert n <= k + 1 < |b| ==> IsGreetAt(b, k + 1);
      if k < |a| {
        assert PingAt(a, k);
      } else if k < n {
        assert PingAt(head, k - |a|);
      }
    }
    if b != [] {
      assert n == 0 ==> IsGreetAt(b, 0);
      assert n > 0 ==> b[0] == (a + head)[0];
    }
  }

  lemma PassPings(env: Env, s: State, i: Input, fuel: nat, t: State)
    requires PingsSent(s.log) && AfterPass(env, s, i, fuel) == Some(t)
    ensures PingsSent(t.log)
  {
    var (s1, s2, s3) := Stages(env, s, i, fuel);
    GetGrew(env, s, i, fuel, s1);
    GrewPings(s.log, s1.log, []);
    if i.line.Some? {
      LineGrew(env, s1, i.line.value, fuel, s2);
      var line := i.line.value;
      GrewPings(s1.log, s2.log, if IsForwarded(line) then [Outcome(env, s1, Forward(line))] else []);
    }
    SocketPings(env, s2, Received(s, i), fuel, s3);
    var s4 := BeforeTimer(env, s, i, fuel).value;
    var s5 := AfterPingTimer(env, s4, fuel).value;
    TimerGrew(env, s4, fuel, s5);
    GrewPings(s4.log, s5.log, TimerActs(env, s4));
    if !s5.connected {
      ConnectGrew(env, s5, false, fuel, t);
      GrewPings(s5.log, t.log, []);
    }
  }

  lemma SocketPings(env: Env, s: State, g: Got, fuel: nat, t: State)
    requires PingsSent(s.log) && AfterSocket(env, s, g, fuel) == Some(t)
    ensures PingsSent(t.log)
  {
    SocketGrew(env, s, g, fuel, t);
    GrewPings(s.log, t.log,
              if g.GotPing? then [Outcome(env, s, PongText)] else if g.GotPong? && !s.pingDone then [Pong] else []);
  }

  lemma {:induction false} PassesPing(env: Env, s: State, ins: seq<Input>, fuel: nat, t: State)
    requires PingsSent(s.log) && AfterPasses(env, s, ins, fuel) == Some(t)
    ensures PingsSent(t.log)
    decreases |ins|
  {
    if ins != [] {
      var s1 := AfterPass(env, s, ins[0], fuel).value;
      PassPings(env, s, ins[0], fuel, s1);
      PassesPing(env, s1, ins[1..], fuel, t);
    }
  }

  /**
   In every run that returns, each ping decision is followed at once by PING, sent or
   lost, which stands nowhere else.
   */
  lemma RunPings(env: Env, sensors: Sensors, ins: seq<Input>, fuel: nat, t: State)
    requires AfterRun(env, sensors, ins, fuel) == Some(t)
    ensures PingsSent(t.log)
  {
    var s := AfterStart(env, sensors, fuel).value;
    ConnectGrew(env, Initial(env, sensors), true, fuel, s);
    GrewPings([], s.log, []);
    PassesPing(env, s, ins, fuel, t);
  }

  /**
   A pass that begins with no ping outstanding, more than 5 seconds after the clock was
   reset, makes a ping decision.
   */
  lemma PingFires(env: Env, s: State, i: Input, fuel: nat, t: State)
    requires Monotone(env) && AfterPass(env, s, i, fuel) == Some(t)
    requires s.pingDone && env.time(s.tick) - s.pingTime > 5.0
    ensures PingSince(t.log, |s.log|)
  {
    var s3 := BeforeTimer(env, s, i, fuel).value;
    var s4 := AfterPingTimer(env, s3, fuel).value;
    BeforeTimerOnly(env, s, i, fuel, s3);
    Later(env, s.tick, s3.tick);
    TimerTexts(env, s3, fuel, s4);
    if !s4.connected {
      ConnectOnly(env, s4, false, fuel, t);
    }
    assert t.log[|s3.log|].Ping?;
  }

  /** What a pass makes of the ping clock: it runs on, or was reset during the pass. */
  ghost predicate ClockKept(env: Env, s: State, t: State, from: nat) {
    && (t.pingTime == s.pingTime || t.pingTime >= env.time(from))
    && (t.pingDone != s.pingDone ==> t.pingTime >= env.time(from))
  }

  lemma BeforeTimerClock(env: Env, s: State, i: Input, fuel: nat, t: State)
    requires Monotone(env) && BeforeTimer(env, s, i, fuel) == Some(t)
    ensures ClockKept(env, s, t, s.tick) && s.tick <= t.tick && (s.pingDone ==> t.pingDone)
  {
    var (s1, s2, s3) := Stages(env, s, i, fuel);
    GetOnly(env, s, i, fuel, s1);
    if i.line.Some? {
      LineOnly(env, s1, i.line.value, fuel, s2);
    }
    Later(env, s.tick, s2.tick);
    SocketClock(env, s2, Received(s, i), fuel, s3);
  }

  lemma SocketClock(env: Env, s: State, g: Got, fuel: nat, t: State)
    requires AfterSocket(env, s, g, fuel) == Some(t)
    ensures s.tick <= t.tick
    ensures t.pingDone == (s.pingDone || g.GotPong?)
    ensures t.pingTime == if g.GotPong? && !s.pingDone then env.time(s.tick) else s.pingTime
  {
    if g.GotPing? {
      SendOnly(env, s, PongText, fuel, t);
    }
  }

  /** Pings, pongs and time-outs each reset the clock, and nothing else does. */
  lemma ClockResets(env: Env, s: State, i: Input, fuel: nat, t: State)
    requires Monotone(env) && AfterPass(env, s, i, fuel) == Some(t)
    ensures ClockKept(env, s, t, s.tick)
    ensures s.pingDone && env.time(s.tick) - s.pingTime > 5.0 ==> t.pingTime >= env.time(s.tick)
    ensures !s.pingDone && env.time(s.tick) - s.pingTime > 2.0 ==> t.pingTime >= env.time(s.tick)
  {
    var s3 := BeforeTimer(env, s, i, fuel).value;
    var s4 := AfterPingTimer(env, s3, fuel).value;
    BeforeTimerClock(env, s, i, fuel, s3);
    BeforeTimerOnly(env, s, i, fuel, s3);
    TimerClock(env, s3, fuel, s4, s.tick);
    if !s4.connected {
      ConnectOnly(env, s4, false, fuel, t);
    }
  }

  lemma TimerClock(env: Env, s: State, fuel: nat, t: State, from: nat)
    requires Monotone(env) && AfterPingTimer(env, s, fuel) == Some(t) && from <= s.tick
    ensures ClockKept(env, s, t, from)
    ensures s.pingDone && env.time(from) - s.pingTime > 5.0 ==> t.pingTime >= env.time(from)
    ensures !s.pingDone && env.time(from) - s.pingTime > 2.0 ==> t.pingTime >= env.time(from)
  {
    Later(env, from, s.tick);
    Later(env, from, s.tick + 1);
    if s.pingDone && env.time(s.tick) - s.pingTime > 5.0 {
      SendOnly(env, Pinged(env, s), PingText, fuel, t);
    }
  }

  ghost predicate PongSince(log: seq<Act>, from: nat) {
    exists k :: from <= k < |log| && log[k].Pong?
  }

  lemma GrewPong(a: seq<Act>, b: seq<Act>, head: seq<Act>)
    requires Grew(a, b, head)
    ensures PongSince(b, |a|) <==> PongSince(head, 0)
  {
    forall k | |a| <= k < |b|
      ensures b[k].Pong? <==> k - |a| < |head| && head[k - |a|].Pong?
    {
      if k < |a| + |head| {
        assert b[k] == (a + head)[k];
      } else {
        assert IsGreetAt(b, k);
      }
    }
    if j :| 0 <= j < |head| && head[j].Pong? {
      assert b[|a| + j].Pong?;
    }
  }

  lemma PongSplit(a: seq<Act>, b: seq<Act>, c: seq<Act>)
    requires a <= b <= c
    ensures PongSince(c, |a|) <==> PongSince(b, |a|) || PongSince(c, |b|)
  {
    if k :| |a| <= k < |b| && b[k].Pong? {
      assert c[k].Pong?;
    }
    if k :| |a| <= k < |c| && c[k].Pong? {
      assert k < |b| ==> b[k].Pong?;
    }
  }

  lemma BeforeTimerPong(env: Env, s: State, i: Input, fuel: nat, t: State)
    requires BeforeTimer(env, s, i, fuel) == Some(t)
    ensures s.log <= t.log
    ensures PongSince(t.log, |s.log|) <==> !s.pingDone && s.connected && i.receive == Done && i.got.GotPong?
  {
    var (s1, s2, s3) := Stages(env, s, i, fuel);
    GetOnly(env, s, i, fuel, s1);
    if i.line.Some? {
      LineOnly(env, s1, i.line.value, fuel, s2);
    }
    GetGrew(env, s, i, fuel, s1);
    GrewPong(s.log, s1.log, []);
    LinePong(env, s1, i.line, fuel, s2);
    SocketPong(env, s2, Received(s, i), fuel, s3);
    PongSplit(s.log, s1.log, s2.log);
    PongSplit(s.log, s2.log, s3.log);
  }

  lemma TimerPong(env: Env, s: State, fuel: nat, t: State)
    requires AfterPingTimer(env, s, fuel) == Some(t)
    ensures s.log <= t.log && !PongSince(t.log, |s.log|)
  {
    TimerGrew(env, s, fuel, t);
    GrewPong(s.log, t.log, TimerActs(env, s));
  }

  /** A pong is accepted in a pass if and only if one is received while a ping is outstanding. */
  lemma PongsExactly(env: Env, s: State, i: Input, fuel: nat, t: State)
    requires AfterPass(env, s, i, fuel) == Some(t)
    ensures PongSince(t.log, |s.log|) <==> !s.pingDone && s.connected && i.receive == Done && i.got.GotPong?
  {
    var s3 := BeforeTimer(env, s, i, fuel).value;
    var s4 := AfterPingTimer(env, s3, fuel).value;
    BeforeTimerPong(env, s, i, fuel, s3);
    TimerPong(env, s3, fuel, s4);
    LastPong(env, s4, fuel, t);
    PongSplit(s.log, s3.log, s4.log);
    PongSplit(s.log, s4.log, t.log);
  }

  lemma LinePong(env: Env, s: State, line: Option<Line>, fuel: nat, t: State)
    requires if line.Some? then AfterLine(env, s, line.value, fuel) == Some(t) else t == s
    ensures s.log <= t.log && !PongSince(t.log, |s.log|)
  {
    if line.Some? {
      LineGrew(env, s, line.value, fuel, t);
      GrewPong(s.log, t.log, if IsForwarded(line.value) then [Outcome(env, s, Forward(line.value))] else []);
    }
  }

  lemma SocketPong(env: Env, s: State, g: Got, fuel: nat, t: State)
    requires AfterSocket(env, s, g, fuel) == Some(t)
    ensures s.log <= t.log && (PongSince(t.log, |s.log|) <==> g.GotPong? && !s.pingDone)
  {
    SocketGrew(env, s, g, fuel, t);
    var head := if g.GotPing? then [Outcome(env, s, PongText)] else if g.GotPong? && !s.pingDone then [Pong] else [];
    GrewPong(s.log, t.log, head);
    if g.GotPong? && !s.pingDone {
      assert head[0].Pong?;
    }
  }

  lemma LastPong(env: Env, s: State, fuel: nat, t: State)
    requires if s.connected then t == s else AfterConnect(env, s, false, fuel) == Some(t)
    ensures s.log <= t.log && !PongSince(t.log, |s.log|)
  {
    if !s.connected {
      ConnectGrew(env, s, false, fuel, t);
      GrewPong(s.log, t.log, []);
    }
  }

  // ---------- Reconnecting ----------

  ghost predicate ConnectSince(log: seq<Act>, from: nat) {
    exists k :: from <= k < |log| && log[k].Connect?
  }

  /** Without a connection nothing is sent, and only the log changes. */
  lemma SendOff(env: Env, s: State, m: Message, fuel: nat, t: State)
    requires !s.connected && AfterSend(env, s, m, fuel) == Some(t)
    ensures t == s.(log := s.log + [Lost(m)])
  {
  }

  lemma BeforeTimerOff(env: Env, s: State, i: Input, fuel: nat, t: State)
    requires !s.connected && BeforeTimer(env, s, i, fuel) == Some(t)
    ensures !t.connected && t.lastTry == s.lastTry
  {
    var (s1, s2, s3) := Stages(env, s, i, fuel);
    if i.line.Some? && IsForwarded(i.line.value) {
      var line := i.line.value;
      SendOff(env, if line.Report? then AfterReport(s1, line) else s1, Forward(line), fuel, s2);
    }
  }

  lemma TimerOff(env: Env, s: State, fuel: nat, t: State)
    requires !s.connected && AfterPingTimer(env, s, fuel) == Some(t)
    ensures !t.connected && t.lastTry == s.lastTry && s.tick <= t.tick
  {
    if s.pingDone && env.time(s.tick) - s.pingTime > 5.0 {
      SendOff(env, Pinged(env, s), PingText, fuel, t);
    }
  }

  /** A pass that begins without a connection, more than 10 seconds after the last attempt, makes another. */
  lemma OfflineTries(env: Env, s: State, i: Input, fuel: nat, t: State)
    requires Monotone(env) && AfterPass(env, s, i, fuel) == Some(t)
    requires !s.connected && env.time(s.tick) - s.lastTry > 10.0
    ensures ConnectSince(t.log, |s.log|)
  {
    var s3 := BeforeTimer(env, s, i, fuel).value;
    var s4 := AfterPingTimer(env, s3, fuel).value;
    BeforeTimerOff(env, s, i, fuel, s3);
    BeforeTimerOnly(env, s, i, fuel, s3);
    TimerOff(env, s3, fuel, s4);
    TimerOnly(env, s3, fuel, s4);
    Later(env, s.tick, s4.tick);
    ConnectGreets(env, s4, false, fuel, t);
    assert t.log[|s4.log|].Connect?;
  }

  /** Past an attempt or not: a connection once lost comes back only by one. */
  lemma {:induction false} SendLoses(env: Env, s: State, m: Message, fuel: nat, t: State)
    requires AfterSend(env, s, m, fuel) == Some(t)
    ensures t.connected ==> s.connected || ConnectSince(t.log, |s.log|)
  {
    if s.connected && Fails(env.send(s.tick)) {
      ConnectRegains(env, Offered(env, s, m), false, fuel - 1, t);
    }
  }

  /** A Send that fails breaks the connection. */
  lemma SendBreaks(env: Env, s: State, m: Message, fuel: nat, t: State)
    requires s.connected && Fails(env.send(s.tick)) && AfterSend(env, s, m, fuel) == Some(t)
    ensures t.connected ==> ConnectSince(t.log, |s.log|)
  {
    ConnectRegains(env, Offered(env, s, m), false, fuel - 1, t);
  }

  /** Past the gate, the connection is what Connect and the greeting make of it, and the clock is reset. */
  lemma ConnectDecides(env: Env, s: State, force: bool, fuel: nat, t: State)
    requires AfterConnect(env, s, force, fuel) == Some(t) && (force || env.time(s.tick) - s.lastTry > 10.0)
    ensures env.connect(s.tick + 2) != Done ==> !t.connected && t.lastTry == env.time(s.tick + 1)
    ensures env.connect(s.tick + 2) == Done && !Fails(env.send(s.tick + 3)) ==>
              t.connected && t.lastTry == env.time(s.tick + 1) && t.errors == 0
  {
  }

  lemma ConnectRegains(env: Env, s: State, force: bool, fuel: nat, t: State)
    requires AfterConnect(env, s, force, fuel) == Some(t)
    ensures t.connected ==> s.connected || ConnectSince(t.log, |s.log|)
  {
    ConnectGreets(env, s, force, fuel, t);
    if force || env.time(s.tick) - s.lastTry > 10.0 {
      assert t.log[|s.log|].Connect?;
    }
  }

  ghost predicate TimeoutSince(log: seq<Act>, from: nat) {
    exists k :: from <= k < |log| && log[k].Timeout?
  }

  /** Acts since one place or an earlier one, in a log or a longer one. */
  lemma Widen(a: seq<Act>, b: seq<Act>, from: nat, later: nat)
    requires from <= later && a <= b
    ensures ConnectSince(a, later) ==> ConnectSince(b, from)
  {
    if ConnectSince(a, later) {
      var k :| later <= k < |a| && a[k].Connect?;
      assert b[k].Connect?;
    }
  }

  lemma GrewTimeout(a: seq<Act>, b: seq<Act>, head: seq<Act>)
    requires Grew(a, b, head) && forall k :: 0 <= k < |head| ==> !head[k].Timeout?
    ensures !TimeoutSince(b, |a|)
  {
    forall k | |a| <= k < |b|
      ensures !b[k].Timeout?
    {
      if k < |a| + |head| {
        assert b[k] == (a + head)[k];
      } else {
        assert IsGreetAt(b, k);
      }
    }
  }

  lemma TimeoutSplit(a: seq<Act>, b: seq<Act>, c: seq<Act>)
    requires a <= b <= c
    ensures TimeoutSince(c, |a|) ==> TimeoutSince(b, |a|) || TimeoutSince(c, |b|)
  {
    if TimeoutSince(c, |a|) {
      var k :| |a| <= k < |c| && c[k].Timeout?;
      assert k < |b| ==> b[k].Timeout?;
    }
  }

  lemma GetDrops(env: Env, s: State, i: Input, fuel: nat, t: State)
    requires AfterGet(env, s, i, fuel) == Some(t)
    ensures t.connected ==> (s.connected && !Fails(i.receive)) || ConnectSince(t.log, |s.log|)
    ensures s.log <= t.log && !TimeoutSince(t.log, |s.log|)
  {
    GetGrew(env, s, i, fuel, t);
    GrewTimeout(s.log, t.log, []);
    if s.connected && Fails(i.receive) {
      ConnectRegains(env, s.(connected := false), false, fuel, t);
    }
  }

  lemma LineDrops(env: Env, s: State, line: Line, fuel: nat, t: State)
    requires AfterLine(env, s, line, fuel) == Some(t)
    ensures t.connected ==> s.connected || ConnectSince(t.log, |s.log|)
    ensures s.log <= t.log && !TimeoutSince(t.log, |s.log|)
  {
    LineGrew(env, s, line, fuel, t);
    GrewTimeout(s.log, t.log, if IsForwarded(line) then [Outcome(env, s, Forward(line))] else []);
    if IsForwarded(line) {
      SendLoses(env, if line.Report? then AfterReport(s, line) else s, Forward(line), fuel, t);
    }
  }

  lemma SocketDrops(env: Env, s: State, g: Got, fuel: nat, t: State)
    requires AfterSocket(env, s, g, fuel) == Some(t)
    ensures t.connected ==> s.connected || ConnectSince(t.log, |s.log|)
    ensures s.log <= t.log && !TimeoutSince(t.log, |s.log|)
  {
    SocketGrew(env, s, g, fuel, t);
    GrewTimeout(s.log, t.log,
                if g.GotPing? then [Outcome(env, s, PongText)] else if g.GotPong? && !s.pingDone then [Pong] else []);
    if g.GotPing? {
      SendLoses(env, s, PongText, fuel, t);
    }
  }

  lemma BeforeTimerDrops(env: Env, s: State, i: Input, fuel: nat, t: State)
    requires BeforeTimer(env, s, i, fuel) == Some(t)
    ensures t.connected ==> i.valid && ((s.connected && !Fails(i.receive)) || ConnectSince(t.log, |s.log|))
    ensures s.log <= t.log && !TimeoutSince(t.log, |s.log|)
  {
    var (s1, s2, s3) := Stages(env, s, i, fuel);
    GetDrops(env, s, i, fuel, s1);
    if i.line.Some? {
      LineDrops(env, s1, i.line.value, fuel, s2);
    }
    SocketDrops(env, s2, Received(s, i), fuel, s3);
    TimeoutSplit(s.log, s1.log, s2.log);
    TimeoutSplit(s.log, s2.log, s3.log);
    Widen(s1.log, s3.log, |s.log|, |s.log|);
    Widen(s2.log, s3.log, |s.log|, |s1.log|);
    Widen(s3.log, s3.log, |s.log|, |s2.log|);
  }

  lemma TimerDrops(env: Env, s: State, fuel: nat, t: State)
    requires AfterPingTimer(env, s, fuel) == Some(t)
    ensures t.connected ==> (s.connected || ConnectSince(t.log, |s.log|)) && !TimeoutSince(t.log, |s.log|)
    ensures s.log <= t.log
  {
    TimerGrew(env, s, fuel, t);
    if s.pingDone && env.time(s.tick) - s.pingTime > 5.0 {
      SendLoses(env, Pinged(env, s), PingText, fuel, t);
      Widen(t.log, t.log, |s.log|, |s.log| + 1);
      GrewTimeout(s.log, t.log, TimerActs(env, s));
    }
  }

  /**
   A ping that times out, an invalid socket and a receive that fails each drop the
   connection: only an attempt restores it.
   */
  lemma Drops(env: Env, s: State, i: Input, fuel: nat, t: State)
    requires AfterPass(env, s, i, fuel) == Some(t)
    requires !i.valid || (s.connected && Fails(i.receive)) || TimeoutSince(t.log, |s.log|)
    ensures t.connected ==> ConnectSince(t.log, |s.log|)
  {
    var s3 := BeforeTimer(env, s, i, fuel).value;
    var s4 := AfterPingTimer(env, s3, fuel).value;
    BeforeTimerDrops(env, s, i, fuel, s3);
    TimerDrops(env, s3, fuel, s4);
    if s4.connected {
      TimeoutSplit(s.log, s3.log, s4.log);
      Widen(s3.log, s4.log, |s.log|, |s.log|);
      Widen(s4.log, s4.log, |s.log|, |s3.log|);
    } else {
      ConnectOnly(env, s4, false, fuel, t);
      ConnectRegains(env, s4, false, fuel, t);
      Widen(t.log, t.log, |s.log|, |s4.log|);
    }
  }

  /** A receive that fails is answered by an attempt at once, when the last one was more than 10 seconds ago. */
  lemma ReceiveReconnects(env: Env, s: State, i: Input, fuel: nat, t: State)
    requires AfterPass(env, s, i, fuel) == Some(t)
    requires s.connected && Fails(i.receive) && env.time(s.tick) - s.lastTry > 10.0
    ensures |t.log| > |s.log| && t.log[|s.log|] == Connect(env.time(s.tick + 1), false)
  {
    var (s1, s2, s3) := Stages(env, s, i, fuel);
    ConnectGreets(env, s.(connected := false), false, fuel, s1);
    if i.line.Some? {
      LineOnly(env, s1, i.line.value, fuel, s2);
    }
    SocketOnly(env, s2, Received(s, i), fuel, s3);
    var s4 := BeforeTimer(env, s, i, fuel).value;
    var s5 := AfterPingTimer(env, s4, fuel).value;
    TimerOnly(env, s4, fuel, s5);
    if !s5.connected {
      ConnectOnly(env, s5, false, fuel, t);
    }
    assert s1.log <= s3.log <= s5.log <= t.log;
  }

  /** With nothing to read, act on, ping or give up on, a connected pass reads the clock and changes nothing else. */
  lemma IdlePass(env: Env, s: State, i: Input, fuel: nat)
    requires s.connected && env.time(s.tick) - s.pingTime <= if s.pingDone then 5.0 else 2.0
    requires i.line == None && !Fails(i.receive) && (i.receive == Done ==> i.got == Nothing) && i.valid
    ensures AfterPass(env, s, i, fuel) == Some(s.(tick := s.tick + 1))
  {
  }

  /** A message Send takes goes out over the connection, which stays as it is. */
  lemma SendTaken(env: Env, s: State, m: Message, fuel: nat)
    requires s.connected && !Fails(env.send(s.tick)) && fuel > 0
    ensures var t := s.(tick := s.tick + 1, log := s.log + [if env.send(s.tick) == Done then Sent(m) else Lost(m)]);
            AfterSend(env, s, m, fuel) == Some(t)
  {
  }

  // ---------- The error counter ----------

  /** Attempts since the last greeting, which is to say refused ones. */
  function Refusals(log: seq<Act>): nat {
    if log == [] || IsText(log[|log| - 1], Hello) then 0
    else Refusals(log[..|log| - 1]) + if log[|log| - 1].Connect? then 1 else 0
  }

  ghost predicate CountsErrors(s: State) {
    s.errors == Refusals(s.log) % 2
  }

  lemma RefusalsOne(log: seq<Act>, a: Act)
    ensures Refusals(log + [a]) == if IsText(a, Hello) then 0 else Refusals(log) + if a.Connect? then 1 else 0
  {
    assert (log + [a])[..|log|] == log;
  }

  lemma AttemptCounts(env: Env, s: State, force: bool)
    requires CountsErrors(s)
    ensures CountsErrors(Refused(env, s, force))
  {
    RefusalsOne(s.log, Connect(env.time(s.tick + 1), force));
  }

  lemma PingedCounts(env: Env, s: State)
    requires CountsErrors(s)
    ensures CountsErrors(Pinged(env, s))
  {
    RefusalsOne(s.log, Ping(env.time(s.tick + 1)));
  }

  lemma SettledCounts(env: Env, s: State, a: Act, at: nat)
    requires CountsErrors(s) && (a == Pong || a == Timeout)
    ensures CountsErrors(Settled(env, s, a, at))
  {
    RefusalsOne(s.log, a);
  }

  lemma OfferedCounts(env: Env, s: State, m: Message)
    requires s.connected && if m == Hello then s.errors == 0 else CountsErrors(s)
    ensures CountsErrors(Offered(env, s, m))
  {
    RefusalsOne(s.log, Outcome(env, s, m));
  }

  lemma {:induction false} SendCounts(env: Env, s: State, m: Message, fuel: nat, t: State)
    requires AfterSend(env, s, m, fuel) == Some(t)
    requires if m == Hello then s.connected && s.errors == 0 else CountsErrors(s)
    ensures CountsErrors(t)
    decreases fuel
  {
    if !s.connected {
      RefusalsOne(s.log, Lost(m));
    } else {
      OfferedCounts(env, s, m);
      if Fails(env.send(s.tick)) {
        ConnectCounts(env, Offered(env, s, m), false, fuel - 1, t);
      }
    }
  }

  lemma {:induction false} ConnectCounts(env: Env, s: State, force: bool, fuel: nat, t: State)
    requires AfterConnect(env, s, force, fuel) == Some(t) && CountsErrors(s)
    ensures CountsErrors(t)
    decreases fuel
  {
    if force || env.time(s.tick) - s.lastTry > 10.0 {
      AttemptCounts(env, s, force);
      if env.connect(s.tick + 2) == Done {
        SendCounts(env, Accepted(env, s, force), Hello, fuel - 1, t);
      }
    }
  }

  lemma BeforeTimerCounts(env: Env, s: State, i: Input, fuel: nat, t: State)
    requires BeforeTimer(env, s, i, fuel) == Some(t) && CountsErrors(s)
    ensures CountsErrors(t)
  {
    var (s1, s2, s3) := Stages(env, s, i, fuel);
    if s.connected && Fails(i.receive) {
      ConnectCounts(env, s.(connected := false), false, fuel, s1);
    }
    if i.line.Some? && IsForwarded(i.line.value) {
      var line := i.line.value;
      SendCounts(env, if line.Report? then AfterReport(s1, line) else s1, Forward(line), fuel, s2);
    }
    SocketCounts(env, s2, Received(s, i), fuel, s3);
  }

  lemma SocketCounts(env: Env, s: State, g: Got, fuel: nat, t: State)
    requires AfterSocket(env, s, g, fuel) == Some(t) && CountsErrors(s)
    ensures CountsErrors(t)
  {
    if g.GotPing? {
      SendCounts(env, s, PongText, fuel, t);
    } else if g.GotPong? && !s.pingDone {
      SettledCounts(env, s, Pong, s.tick);
    }
  }

  lemma TimerCounts(env: Env, s: State, fuel: nat, t: State)
    requires AfterPingTimer(env, s, fuel) == Some(t) && CountsErrors(s)
    ensures CountsErrors(t)
  {
    var elapsed := env.time(s.tick) - s.pingTime;
    if s.pingDone && elapsed > 5.0 {
      PingedCounts(env, s);
      SendCounts(env, Pinged(env, s), PingText, fuel, t);
    } else if !s.pingDone && elapsed > 2.0 {
      SettledCounts(env, s, Timeout, s.tick + 1);
    }
  }

  lemma {:induction false} PassesCount(env: Env, s: State, ins: seq<Input>, fuel: nat, t: State)
    requires AfterPasses(env, s, ins, fuel) == Some(t) && CountsErrors(s)
    ensures CountsErrors(t)
    decreases |ins|
  {
    if ins != [] {
      var s1 := AfterPass(env, s, ins[0], fuel).value;
      PassCounts(env, s, ins[0], fuel, s1);
      PassesCount(env, s1, ins[1..], fuel, t);
    }
  }

  lemma PassCounts(env: Env, s: State, i: Input, fuel: nat, t: State)
    requires AfterPass(env, s, i, fuel) == Some(t) && CountsErrors(s)
    ensures CountsErrors(t)
  {
    var s3 := BeforeTimer(env, s, i, fuel).value;
    var s4 := AfterPingTimer(env, s3, fuel).value;
    BeforeTimerCounts(env, s, i, fuel, s3);
    TimerCounts(env, s3, fuel, s4);
    if !s4.connected {
      ConnectCounts(env, s4, false, fuel, t);
    }
  }

  /**
   In every run that returns, the error counter is the number of attempts refused since
   the last one accepted, modulo 2.
   */
  lemma RunErrors(env: Env, sensors: Sensors, ins: seq<Input>, fuel: nat, t: State)
    requires AfterRun(env, sensors, ins, fuel) == Some(t)
    ensures t.errors == Refusals(t.log) % 2
  {
    var s := AfterStart(env, sensors, fuel).value;
    ConnectCounts(env, Initial(env, sensors), true, fuel, s);
    PassesCount(env, s, ins, fuel, t);
  }

  // ---------- What the reports make of the sensors ----------

  /** The reports of sensor id, in order. */
  function Reported(ins: seq<Input>, id: nat): (r: seq<Line>)
    ensures forall k :: 0 <= k < |r| ==> r[k].Report?
  {
    if ins == [] then []
    else
      var line := ins[0].line;
      (if line.Some? && line.value.Report? && line.value.id == id then [line.value] else []) + Reported(ins[1..], id)
  }

  /** The first type that is one, beginning with typ. */
  function FirstType(typ: byte, reports: seq<Line>): byte
    decreases |reports|
  {
    if typ != 0 || reports == [] then typ
    else FirstType(if reports[0].Report? then reports[0].ty % 256 else 0, reports[1..])
  }

  /** The last status, beginning with status. */
  function LastStatus(status: byte, reports: seq<Line>): byte {
    if reports == [] then status
    else if reports[|reports| - 1].Report? then reports[|reports| - 1].st % 256
    else status
  }

  /** Some report tells another status than the one shown when it comes. */
  predicate Differs(status: byte, reports: seq<Line>)
    decreases |reports|
  {
    reports != [] && reports[0].Report?
    && (reports[0].st != status || Differs(reports[0].st % 256, reports[1..]))
  }

  /** What a pass makes of one sensor: type and status by its line, the name by a message received. */
  lemma PassSensors(env: Env, s: State, i: Input, fuel: nat, t: State, id: nat)
    requires AfterPass(env, s, i, fuel) == Some(t) && id < SENSORS
    ensures var was, now := s.sensors[id], t.sensors[id]; var reports := Reported([i], id);
            && now.typ == FirstType(was.typ, reports) && now.status == LastStatus(was.status, reports)
            && now.name == if s.connected && i.receive == Done && i.got.GotName? && i.got.id == id && now.typ == 0
                           then i.got.name else was.name
  {
    var (s1, s2, s3) := Stages(env, s, i, fuel);
    GetOnly(env, s, i, fuel, s1);
    if i.line.Some? {
      LineOnly(env, s1, i.line.value, fuel, s2);
    }
    SocketNames(env, s2, Received(s, i), fuel, s3, id);
    AfterNames(env, s, i, fuel, t);
    OneReported(i, id);
  }

  lemma OneReported(i: Input, id: nat)
    ensures Reported([i], id)
            == if i.line.Some? && i.line.value.Report? && i.line.value.id == id then [i.line.value] else []
  {
    assert [i][1..] == [];
  }

  lemma SocketNames(env: Env, s: State, g: Got, fuel: nat, t: State, id: nat)
    requires AfterSocket(env, s, g, fuel) == Some(t) && id < SENSORS
    ensures t.updated == s.updated
    ensures var was, now := s.sensors[id], t.sensors[id];
            now == was.(name := if g.GotName? && g.id == id && was.typ == 0 then g.name else was.name)
  {
    if g.GotPing? {
      SendOnly(env, s, PongText, fuel, t);
    }
  }

  /** The rest of a pass leaves the list alone. */
  lemma AfterNames(env: Env, s: State, i: Input, fuel: nat, t: State)
    requires AfterPass(env, s, i, fuel) == Some(t)
    ensures var s3 := Stages(env, s, i, fuel).2; t.sensors == s3.sensors && t.updated == s3.updated
  {
    var s3 := BeforeTimer(env, s, i, fuel).value;
    var s4 := AfterPingTimer(env, s3, fuel).value;
    if s3.pingDone && env.time(s3.tick) - s3.pingTime > 5.0 {
      SendOnly(env, Pinged(env, s3), PingText, fuel, s4);
    }
    if !s4.connected {
      ConnectOnly(env, s4, false, fuel, t);
    }
  }

  /** And updatedData is set by a report that tells another status than the one shown. */
  lemma PassUpdates(env: Env, s: State, i: Input, fuel: nat, t: State)
    requires AfterPass(env, s, i, fuel) == Some(t)
    ensures t.updated
       <==> s.updated || exists id: nat :: id < SENSORS && Differs(s.sensors[id].status, Reported([i], id))
  {
    var (s1, s2, s3) := Stages(env, s, i, fuel);
    GetOnly(env, s, i, fuel, s1);
    if i.line.Some? {
      LineOnly(env, s1, i.line.value, fuel, s2);
    }
    SocketNames(env, s2, Received(s, i), fuel, s3, 0);
    AfterNames(env, s, i, fuel, t);
    forall id: nat | id < SENSORS
      ensures Differs(s.sensors[id].status, Reported([i], id))
         <==> i.line.Some? && i.line.value.Report? && i.line.value.id == id && i.line.value.st != s.sensors[id].status
    {
      OneReported(i, id);
    }
    if i.line.Some? && i.line.value.Report? {
      assert 0 <= i.line.value.id < SENSORS;
    }
  }

  lemma ReportedCons(ins: seq<Input>, id: nat, typ: byte, status: byte)
    requires ins != []
    ensures var one, rest := Reported([ins[0]], id), Reported(ins[1..], id);
            && FirstType(typ, Reported(ins, id)) == FirstType(FirstType(typ, one), rest)
            && LastStatus(status, Reported(ins, id)) == LastStatus(LastStatus(status, one), rest)
            && (Differs(status, Reported(ins, id)) <==> Differs(status, one) || Differs(LastStatus(status, one), rest))
  {
    OneReported(ins[0], id);
    OneThenRest(Reported([ins[0]], id), Reported(ins[1..], id), typ, status);
  }

  lemma OneThenRest(one: seq<Line>, rest: seq<Line>, typ: byte, status: byte)
    requires |one| <= 1 && forall k :: 0 <= k < |one| ==> one[k].Report?
    requires forall k :: 0 <= k < |rest| ==> rest[k].Report?
    ensures FirstType(typ, one + rest) == FirstType(FirstType(typ, one), rest)
    ensures LastStatus(status, one + rest) == LastStatus(LastStatus(status, one), rest)
    ensures Differs(status, one + rest) <==> Differs(status, one) || Differs(LastStatus(status, one), rest)
  {
    if one == [] {
      assert one + rest == rest;
    } else {
      assert (one + rest)[1..] == rest && one[1..] == [];
      assert (one + rest)[0] == one[0];
    }
  }

  /**
   In every run that returns: a sensor's type is the first one reported that is a type,
   unless it had one; its status is the last one reported; and updatedData is set if and
   only if some report told another status than the one shown.
   */
  lemma {:induction false} RunSensors(env: Env, s: State, ins: seq<Input>, fuel: nat, t: State, id: nat)
    requires AfterPasses(env, s, ins, fuel) == Some(t) && id < SENSORS
    ensures var was, now := s.sensors[id], t.sensors[id]; var reports := Reported(ins, id);
            now.typ == FirstType(was.typ, reports) && now.status == LastStatus(was.status, reports)
    ensures t.updated <==> s.updated || exists k: nat :: k < SENSORS && Differs(s.sensors[k].status, Reported(ins, k))
    decreases |ins|
  {
    if ins != [] {
      var s1 := AfterPass(env, s, ins[0], fuel).value;
      PassSensors(env, s, ins[0], fuel, s1, id);
      PassUpdates(env, s, ins[0], fuel, s1);
      RunSensors(env, s1, ins[1..], fuel, t, id);
      forall k: nat | k < SENSORS
        ensures Differs(s.sensors[k].status, Reported(ins, k))
           <==> Differs(s.sensors[k].status, Reported([ins[0]], k))
                || Differs(s1.sensors[k].status, Reported(ins[1..], k))
      {
        PassSensors(env, s, ins[0], fuel, s1, k);
        ReportedCons(ins, k, s.sensors[k].typ, s.sensors[k].status);
      }
      ReportedCons(ins, id, s.sensors[id].typ, s.sensors[id].status);
    }
  }
}
