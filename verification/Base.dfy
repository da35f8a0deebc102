/**
 The base station's UartThread: its server connection with the gated reconnect, its
 ping timer, and the sensor list it keeps.  Clock readings and the outcomes of
 Connect and Send come from an environment, one per call, in the order of the calls.
 */
module Base {
  import opened Bytes
  import opened Lines

  datatype Status = Done | NotReady | Disconnected | Error

  predicate Fails(s: Status) { s == Disconnected || s == Error }

  /** What call number k meets: the clock, or the outcome of a Connect or a Send. */
  datatype Env = Env(time: nat -> real, connect: nat -> Status, send: nat -> Status)

  ghost predicate Monotone(env: Env) {
    forall i: nat, j: nat :: i <= j ==> env.time(i) <= env.time(j)
  }

  const SENSORS := 10
  const SENSOR_NONE: byte := 0

  datatype Sensor = Sensor(typ: byte, status: byte, name: string)

  const BLANK := Sensor(SENSOR_NONE, 0, "")

  const NO_SENSORS := [BLANK, BLANK, BLANK, BLANK, BLANK, BLANK, BLANK, BLANK, BLANK, BLANK]

  type Sensors = s: seq<Sensor> | |s| == SENSORS
    witness NO_SENSORS

  /** Narrowing to char, which is unsigned on the base station's processor. */
  function Char(x: int): byte { x % 256 }

  datatype Message = Hello | PingText | PongText | Forward(line: Line)

  /**
   What happened, in order: ping decisions and their outcome, connection attempts,
   messages handed to the socket or not.
   */
  datatype Act = Ping(at: real) | Pong | Timeout | Connect(at: real, forced: bool) | Sent(m: Message) | Lost(m: Message)

  /** tick counts the calls made; pingTime and lastTry are when the two clocks were last reset. */
  datatype State = State(connected: bool, pingDone: bool, pingTime: real, lastTry: real, errors: int,
                         updated: bool, sensors: Sensors, tick: nat, log: seq<Act>)

  datatype Got = Nothing | GotPing | GotPong | GotName(id: int, name: string) | GotOther

  /**
   What one pass of run meets besides the environment: a line, the result of Receive,
   and whether the socket is valid.
   */
  datatype Input = Input(line: Option<Line>, receive: Status, got: Got, valid: bool)

  predicate InList(id: int) { 0 <= id < SENSORS }

  // ---------- Specification ----------

  /**
   socket_send, which socketConnect calls in turn.  The nesting can be endless, so the
   two run on fuel, one unit a call, and give None when it runs out.  A call returns
   if and only if some fuel is enough, and more fuel changes nothing (SendMore).
   */
  function AfterSend(env: Env, s: State, m: Message, fuel: nat): Option<State>
    decreases fuel
  {
    if fuel == 0 then None
    else if !s.connected then Some(s.(log := s.log + [Lost(m)]))
    else if Fails(env.send(s.tick)) then AfterConnect(env, Offered(env, s, m), false, fuel - 1)
    else Some(Offered(env, s, m))
  }

  /** The message is given to Send, which may break the connection. */
  function Offered(env: Env, s: State, m: Message): State {
    var r := env.send(s.tick);
    s.(tick := s.tick + 1, connected := s.connected && !Fails(r),
       log := s.log + [if r == Done then Sent(m) else Lost(m)])
  }

  function AfterConnect(env: Env, s: State, force: bool, fuel: nat): Option<State>
    decreases fuel
  {
    if fuel == 0 then None
    else if env.time(s.tick) - s.lastTry > 10.0 || force then
      if env.connect(s.tick + 2) != Done then Some(Refused(env, s, force))
      else AfterSend(env, Accepted(env, s, force), Hello, fuel - 1)
    else Some(s.(tick := s.tick + 1))
  }

  function Accepted(env: Env, s: State, force: bool): State {
    Attempted(env, s, force).(connected := true, errors := 0)
  }

  function Refused(env: Env, s: State, force: bool): State {
    Attempted(env, s, force).(connected := false, errors := if s.errors + 1 == 2 then 0 else s.errors + 1)
  }

  /** Past the gate: the clock is reset and Connect called. */
  function Attempted(env: Env, s: State, force: bool): State {
    var at := env.time(s.tick + 1);
    s.(lastTry := at, tick := s.tick + 3, log := s.log + [Connect(at, force)])
  }

  function AfterGet(env: Env, s: State, i: Input, fuel: nat): Option<State> {
    if s.connected && Fails(i.receive) then AfterConnect(env, s.(connected := false), false, fuel) else Some(s)
  }

  function Received(s: State, i: Input): Got {
    if s.connected && i.receive == Done then i.got else Nothing
  }

  function AfterReport(s: State, line: Line): State
    requires line.Report? && InList(line.id)
  {
    var d := s.sensors[line.id];
    s.(updated := s.updated || d.status != line.st,
       sensors := s.sensors[line.id := Sensor(if d.typ == SENSOR_NONE then Char(line.ty) else d.typ,
                                              Char(line.st), d.name)])
  }

  /** No outcome either where jsonData leaves the line, or the sensor number the list. */
  function AfterLine(env: Env, s: State, line: Line, fuel: nat): Option<State> {
    match line
    case Report(id, _, _) =>
      if InList(id) then AfterSend(env, AfterReport(s, line), Forward(line), fuel) else None
    case Lock | Unlock => AfterSend(env, s, Forward(line), fuel)
    case Overread => None
    case _ => Some(s)
  }

  function AfterSocket(env: Env, s: State, g: Got, fuel: nat): Option<State> {
    match g
    case GotPing => AfterSend(env, s, PongText, fuel)
    case GotPong => Some(if s.pingDone then s else Settled(env, s, Pong, s.tick))
    case GotName(id, name) =>
      if !InList(id) then None
      else
        var d := s.sensors[id];
        Some(if d.typ == SENSOR_NONE then s.(sensors := s.sensors[id := d.(name := name)]) else s)
    case _ => Some(s)
  }

  function Pinged(env: Env, s: State): State {
    var at := env.time(s.tick + 1);
    s.(pingTime := at, pingDone := false, tick := s.tick + 2, log := s.log + [Ping(at)])
  }

  /** The outstanding ping is settled, by a pong or a timeout, and the clock reset by call number at. */
  function Settled(env: Env, s: State, a: Act, at: nat): State {
    s.(pingDone := true, pingTime := env.time(at), tick := at + 1, log := s.log + [a])
  }

  function AfterPingTimer(env: Env, s: State, fuel: nat): Option<State> {
    var elapsed := env.time(s.tick) - s.pingTime;
    if s.pingDone then
      if elapsed > 5.0 then AfterSend(env, Pinged(env, s), PingText, fuel) else Some(s.(tick := s.tick + 1))
    else
      if elapsed > 2.0 then Some(Settled(env, s, Timeout, s.tick + 1).(connected := false))
      else Some(s.(tick := s.tick + 1))
  }

  /** The state in which a pass comes to the ping timer. */
  function BeforeTimer(env: Env, s: State, i: Input, fuel: nat): Option<State>
  {
    var s1 :- AfterGet(env, s, i, fuel);
    var s2 :- if i.line.Some? then AfterLine(env, s1, i.line.value, fuel) else Some(s1);
    var s3 :- AfterSocket(env, s2, Received(s, i), fuel);
    Some(if i.valid then s3 else s3.(connected := false))
  }

  /** One pass of run: receive, act on line and message, look at the socket, look at the ping timer, reconnect. */
  function AfterPass(env: Env, s: State, i: Input, fuel: nat): Option<State>
  {
    var s3 :- BeforeTimer(env, s, i, fuel);
    var s4 :- AfterPingTimer(env, s3, fuel);
    if s4.connected then Some(s4) else AfterConnect(env, s4, false, fuel)
  }

  function AfterPasses(env: Env, s: State, ins: seq<Input>, fuel: nat): Option<State>
    decreases |ins|
  {
    if ins == [] then Some(s)
    else
      var t :- AfterPass(env, s, ins[0], fuel);
      AfterPasses(env, t, ins[1..], fuel)
  }

  /** Before the forced attempt to connect. */
  function Initial(env: Env, sensors: Sensors): State {
    State(false, true, env.time(1), env.time(0), 0, false, sensors, 2, [])
  }

  function AfterStart(env: Env, sensors: Sensors, fuel: nat): Option<State> {
    AfterConnect(env, Initial(env, sensors), true, fuel)
  }

  /** A run from its start. */
  function AfterRun(env: Env, sensors: Sensors, ins: seq<Input>, fuel: nat): Option<State>
  {
    var s :- AfterStart(env, sensors, fuel);
    AfterPasses(env, s, ins, fuel)
  }

  // ---------- The code ----------

  class UartThread {
    const env: Env
    var socketConnected: bool
    var pingDone: bool
    var pingTime: real
    var lastTry: real
    var socketErrorCount: int
    var updatedData: bool
    var sensorsList: Sensors
    var tick: nat
    ghost var log: seq<Act>

    ghost function TheState(): State
      reads this
    {
      State(socketConnected, pingDone, pingTime, lastTry, socketErrorCount, updatedData, sensorsList, tick, log)
    }

    /** run up to its loop, with the serial port open. */
    constructor (env: Env, sensors: Sensors, ghost fuel: nat)
      requires AfterStart(env, sensors, fuel).Some?
      ensures this.env == env && AfterStart(env, sensors, fuel) == Some(TheState())
    {
      this.env := env;
      socketErrorCount, socketConnected, pingDone, updatedData := 0, false, true, false;
      lastTry, pingTime, tick := env.time(0), env.time(1), 2;
      sensorsList, log := sensors, [];
      new;
      SocketConnect(true, fuel);
    }

    /** The time since a clock was last reset. */
    method GetElapsedTime(since: real) returns (elapsed: real)
      modifies this`tick
      ensures tick == old(tick) + 1 && elapsed == env.time(old(tick)) - since
    {
      elapsed := env.time(tick) - since;
      tick := tick + 1;
    }

    /** The socket's Send. */
    method Send(m: Message) returns (status: Status)
      modifies this`tick, this`log
      ensures status == env.send(old(tick)) && tick == old(tick) + 1
      ensures log == old(log) + [if status == Done then Sent(m) else Lost(m)]
    {
      status := env.send(tick);
      tick := tick + 1;
      log := log + [if status == Done then Sent(m) else Lost(m)];
    }

    /** Each method below that may send or connect returns whenever its specification does, on whatever fuel. */
    method SocketSend(m: Message, ghost fuel: nat)
      requires AfterSend(env, TheState(), m, fuel).Some?
      modifies this
      ensures AfterSend(env, old(TheState()), m, fuel) == Some(TheState())
      decreases fuel
    {
      if !socketConnected {
        log := log + [Lost(m)];
        return;
      }
      var status := Send(m);
      if status != Done {
        if status == Disconnected || status == Error {
          socketConnected := false;
          assert TheState() == Offered(env, old(TheState()), m);
          SocketConnect(false, fuel - 1);
        }
      }
    }

    method SocketConnect(force: bool, ghost fuel: nat)
      requires AfterConnect(env, TheState(), force, fuel).Some?
      modifies this
      ensures AfterConnect(env, old(TheState()), force, fuel) == Some(TheState())
      decreases fuel
    {
      var elapsed := GetElapsedTime(lastTry);
      if elapsed > 10.0 || force {
        var connected := ConnectNow(old(TheState()), force);
        if connected {
          SocketSend(Hello, fuel - 1);
        }
      }
    }

    /** socketConnect past its gate and up to the greeting. */
    method ConnectNow(ghost s: State, force: bool) returns (connected: bool)
      requires TheState() == s.(tick := s.tick + 1)
      modifies this
      ensures connected == (env.connect(s.tick + 2) == Done)
      ensures TheState() == if connected then Accepted(env, s, force) else Refused(env, s, force)
    {
      lastTry := env.time(tick);
      log := log + [Connect(lastTry, force)];
      var status := env.connect(tick + 1);
      tick := tick + 2;
      connected := status == Done;
      if !connected {
        socketConnected := false;
        socketErrorCount := socketErrorCount + 1;
        if socketErrorCount == 2 {
          socketErrorCount := 0;
        }
      } else {
        socketConnected := true;
        socketErrorCount := 0;
      }
    }

    method SocketGet(i: Input, ghost fuel: nat) returns (data: Got)
      requires AfterGet(env, TheState(), i, fuel).Some?
      modifies this
      ensures data == Received(old(TheState()), i) && AfterGet(env, old(TheState()), i, fuel) == Some(TheState())
    {
      data := Nothing;
      if !socketConnected {
        return;
      }
      if i.receive != Done {
        if i.receive == Disconnected || i.receive == Error {
          socketConnected := false;
          SocketConnect(false, fuel);
        }
      } else {
        data := i.got;
      }
    }

    method ProcessLine(line: Line, ghost fuel: nat)
      requires AfterLine(env, TheState(), line, fuel).Some?
      modifies this
      ensures AfterLine(env, old(TheState()), line, fuel) == Some(TheState())
    {
      match line {
        case Report(id, st, ty) =>
          if sensorsList[id].status != st {
            updatedData := true;
          }
          sensorsList := sensorsList[id := sensorsList[id].(status := Char(st))];
          if sensorsList[id].typ == SENSOR_NONE {
            sensorsList := sensorsList[id := sensorsList[id].(typ := Char(ty))];
          }
          assert TheState() == AfterReport(old(TheState()), line);
          SocketSend(Forward(line), fuel);
        case Lock =>
          SocketSend(Forward(line), fuel);
        case Unlock =>
          SocketSend(Forward(line), fuel);
        case _ =>
      }
    }

    method ProcessSocket(g: Got, ghost fuel: nat)
      requires AfterSocket(env, TheState(), g, fuel).Some?
      modifies this
      ensures AfterSocket(env, old(TheState()), g, fuel) == Some(TheState())
    {
      match g {
        case GotPing =>
          SocketSend(PongText, fuel);
        case GotPong =>
          if !pingDone {
            pingDone := true;
            pingTime := env.time(tick);
            tick := tick + 1;
            log := log + [Pong];
          }
        case GotName(id, name) =>
          if sensorsList[id].typ == SENSOR_NONE {
            sensorsList := sensorsList[id := sensorsList[id].(name := name)];
          }
        case _ =>
      }
    }

    /** The ping part of the loop body. */
    method PingTimer(ghost fuel: nat)
      requires AfterPingTimer(env, TheState(), fuel).Some?
      modifies this
      ensures AfterPingTimer(env, old(TheState()), fuel) == Some(TheState())
    {
      var elapsed := GetElapsedTime(pingTime);
      if pingDone {
        if elapsed > 5.0 {
          pingTime := env.time(tick);
          tick := tick + 1;
          pingDone := false;
          log := log + [Ping(pingTime)];
          SocketSend(PingText, fuel);
        }
      } else {
        if elapsed > 2.0 {
          socketConnected := false;
          pingDone := true;
          pingTime := env.time(tick);
          tick := tick + 1;
          log := log + [Timeout];
        }
      }
    }

    method Pass(i: Input, ghost fuel: nat)
      requires AfterPass(env, TheState(), i, fuel).Some?
      modifies this
      ensures AfterPass(env, old(TheState()), i, fuel) == Some(TheState())
    {
      var got := SocketGet(i, fuel);
      if i.line.Some? || got != Nothing {
        if i.line.Some? {
          ProcessLine(i.line.value, fuel);
        }
        ProcessSocket(got, fuel);
      }
      if !i.valid {
        socketConnected := false;
      }
      PingTimer(fuel);
      if !socketConnected {
        SocketConnect(false, fuel);
      }
    }

    /** run's loop, for as long as there are inputs. */
    method Run(ins: seq<Input>, ghost fuel: nat)
        requires AfterPasses(env, TheState(), ins, fuel).Some?
      modifies this
      ensures AfterPasses(env, old(TheState()), ins, fuel) == Some(TheState())
    {
      var k := 0;
      while k < |ins|
        invariant 0 <= k <= |ins|
        invariant AfterPasses(env, old(TheState()), ins, fuel) == AfterPasses(env, TheState(), ins[k..], fuel)
      {
        Pass(ins[k], fuel);
        assert ins[k..][1..] == ins[k + 1..];
        k := k + 1;
      }
    }
  }

  // ---------- What the log tells ----------

  datatype Tally = Tally(pings: nat, pongs: nat, timeouts: nat)

  function Counted(t: Tally, a: Act): Tally {
    match a
    case Ping(_) => t.(pings := t.pings + 1)
    case Pong => t.(pongs := t.pongs + 1)
    case Timeout => t.(timeouts := t.timeouts + 1)
    case _ => t
  }

  function Count(log: seq<Act>): Tally {
    if log == [] then Tally(0, 0, 0)
    else
      Counted(Count(log[..|log| - 1]), log[|log| - 1])
  }

  function LastPing(log: seq<Act>): Option<real> {
    if log == [] then None
    else if log[|log| - 1].Ping? then Some(log[|log| - 1].at)
    else LastPing(log[..|log| - 1])
  }

  function LastConnect(log: seq<Act>): Option<real> {
    if log == [] then None
    else if log[|log| - 1].Connect? then Some(log[|log| - 1].at)
    else LastConnect(log[..|log| - 1])
  }

  /** Every ping decision comes more than 5 seconds after the one before it. */
  predicate SpacedPings(log: seq<Act>) {
    log != [] ==>
      var init, a := log[..|log| - 1], log[|log| - 1];
      SpacedPings(init) && (a.Ping? && LastPing(init).Some? ==> a.at - LastPing(init).value > 5.0)
  }

  /** Every unforced attempt to connect comes more than 10 seconds after the one before it. */
  predicate SpacedConnects(log: seq<Act>) {
    log != [] ==>
      var init, a := log[..|log| - 1], log[|log| - 1];
      && SpacedConnects(init)
      && (a.Connect? && !a.forced && LastConnect(init).Some? ==> a.at - LastConnect(init).value > 10.0)
  }

  /** A report of sensor id that was handed to the socket or not. */
  predicate IsReportOf(a: Act, id: int) {
    (a.Sent? || a.Lost?) && a.m.Forward? && a.m.line.Report? && a.m.line.id == id
  }

  /** Where the last report of a sensor stands in the log. */
  function LastReportAt(log: seq<Act>, id: int): (r: Option<nat>)
    ensures r.Some? ==> r.value < |log| && IsReportOf(log[r.value], id)
  {
    if log == [] then None
    else if IsReportOf(log[|log| - 1], id) then Some(|log| - 1)
    else LastReportAt(log[..|log| - 1], id)
  }

  /** It is the last: every report of the sensor stands at or before it. */
  lemma {:induction false} LastReportIs(log: seq<Act>, id: int, n: nat)
    requires n < |log| && IsReportOf(log[n], id)
    ensures LastReportAt(log, id).Some? && n <= LastReportAt(log, id).value
  {
    if n < |log| - 1 {
      LastReportIs(log[..|log| - 1], id, n);
    }
  }

  /** The status in the last report of a sensor, whether it reached the socket or not. */
  function LastReport(log: seq<Act>, id: int): Option<int> {
    match LastReportAt(log, id)
    case None => None
    case Some(n) => Some(log[n].m.line.st)
  }

  // ---------- Invariants of every run ----------

  ghost predicate Inv(env: Env, s: State) {
    && s.errors in {0, 1}
    && (var t := Count(s.log); t.pings == t.pongs + t.timeouts + (if s.pingDone then 0 else 1))
    && SpacedPings(s.log) && (LastPing(s.log).Some? ==> LastPing(s.log).value <= s.pingTime)
    && SpacedConnects(s.log) && (LastConnect(s.log).Some? ==> LastConnect(s.log).value == s.lastTry)
    && s.pingTime <= env.time(s.tick) && s.lastTry <= env.time(s.tick)
  }

  lemma Later(env: Env, i: nat, j: nat)
    requires Monotone(env) && i <= j
    ensures env.time(i) <= env.time(j)
  {
  }

  /** Time passes, and messages are logged. */
  lemma InvIdle(env: Env, s: State, tick: nat, connected: bool)
    requires Monotone(env) && Inv(env, s) && s.tick <= tick
    ensures Inv(env, s.(tick := tick, connected := connected))
  {
  }

  lemma InvMessage(env: Env, s: State, a: Act)
    requires Inv(env, s) && (a.Sent? || a.Lost?)
    ensures Inv(env, s.(log := s.log + [a]))
  {
  }

  lemma InvOffered(env: Env, s: State, m: Message)
    requires Monotone(env) && Inv(env, s)
    ensures Inv(env, Offered(env, s, m))
  {
  }

  lemma InvAttempt(env: Env, s: State, force: bool)
    requires Monotone(env) && Inv(env, s) && (force || env.time(s.tick) - s.lastTry > 10.0)
    ensures Inv(env, Attempted(env, s, force))
  {
  }

  lemma InvOutcome(env: Env, s: State, force: bool)
    requires s.errors in {0, 1} && Inv(env, Attempted(env, s, force))
    ensures Inv(env, Accepted(env, s, force)) && Inv(env, Refused(env, s, force))
  {
  }

  /** A ping decision, a pong accepted and a timeout each keep the account. */
  lemma InvPing(env: Env, s: State)
    requires Monotone(env) && Inv(env, s) && s.pingDone && env.time(s.tick) - s.pingTime > 5.0
    ensures Inv(env, Pinged(env, s))
  {
  }

  lemma InvSettled(env: Env, s: State, a: Act, at: nat)
    requires Monotone(env) && Inv(env, s) && !s.pingDone && (a == Pong || a == Timeout) && s.tick <= at
    ensures Inv(env, Settled(env, s, a, at))
  {
  }

  lemma {:induction false} SendKeeps(env: Env, s: State, m: Message, fuel: nat, t: State)
    requires Monotone(env) && Inv(env, s) && AfterSend(env, s, m, fuel) == Some(t)
    ensures Inv(env, t)
    decreases fuel
  {
    if !s.connected {
      InvMessage(env, s, Lost(m));
    } else {
      InvOffered(env, s, m);
      if Fails(env.send(s.tick)) {
        ConnectKeeps(env, Offered(env, s, m), false, fuel - 1, t);
      }
    }
  }

  /** After the attempt, greeting aside. */
  lemma AttemptKeeps(env: Env, s: State, force: bool)
    requires Monotone(env) && Inv(env, s) && (force || env.time(s.tick) - s.lastTry > 10.0)
    ensures Inv(env, if env.connect(s.tick + 2) == Done then Accepted(env, s, force) else Refused(env, s, force))
  {
    InvAttempt(env, s, force);
    InvOutcome(env, s, force);
  }

  lemma {:induction false} ConnectKeeps(env: Env, s: State, force: bool, fuel: nat, t: State)
    requires Monotone(env) && Inv(env, s) && AfterConnect(env, s, force, fuel) == Some(t)
    ensures Inv(env, t)
    decreases fuel
  {
    if env.time(s.tick) - s.lastTry > 10.0 || force {
      AttemptKeeps(env, s, force);
      if env.connect(s.tick + 2) == Done {
        SendKeeps(env, Accepted(env, s, force), Hello, fuel - 1, t);
      }
    } else {
      InvIdle(env, s, s.tick + 1, s.connected);
    }
  }

  lemma PingTimerKeeps(env: Env, s: State, fuel: nat, t: State)
    requires Monotone(env) && Inv(env, s) && AfterPingTimer(env, s, fuel) == Some(t)
    ensures Inv(env, t)
  {
    var elapsed := env.time(s.tick) - s.pingTime;
    if s.pingDone && elapsed > 5.0 {
      InvPing(env, s);
      SendKeeps(env, Pinged(env, s), PingText, fuel, t);
    } else if !s.pingDone && elapsed > 2.0 {
      InvSettled(env, s, Timeout, s.tick + 1);
    } else {
      InvIdle(env, s, s.tick + 1, s.connected);
    }
  }

  lemma SocketKeeps(env: Env, s: State, g: Got, fuel: nat, t: State)
    requires Monotone(env) && Inv(env, s)
    requires AfterSocket(env, s, g, fuel) == Some(t)
    ensures Inv(env, t)
  {
    if g.GotPing? {
      SendKeeps(env, s, PongText, fuel, t);
    } else if g.GotPong? && !s.pingDone {
      InvSettled(env, s, Pong, s.tick);
    }
  }

  lemma LineKeeps(env: Env, s: State, line: Line, fuel: nat, t: State)
    requires Monotone(env) && Inv(env, s)
    requires AfterLine(env, s, line, fuel) == Some(t)
    ensures Inv(env, t)
  {
    if line.Report? {
      SendKeeps(env, AfterReport(s, line), Forward(line), fuel, t);
    } else if line.Lock? || line.Unlock? {
      SendKeeps(env, s, Forward(line), fuel, t);
    }
  }

  lemma GetKeeps(env: Env, s: State, i: Input, fuel: nat, t: State)
    requires Monotone(env) && Inv(env, s) && AfterGet(env, s, i, fuel) == Some(t)
    ensures Inv(env, t)
  {
    if s.connected && Fails(i.receive) {
      ConnectKeeps(env, s.(connected := false), false, fuel, t);
    }
  }

  lemma BeforeTimerKeeps(env: Env, s: State, i: Input, fuel: nat, t: State)
    requires Monotone(env) && Inv(env, s) && BeforeTimer(env, s, i, fuel) == Some(t)
    ensures Inv(env, t)
  {
    var (s1, s2, s3) := Stages(env, s, i, fuel);
    GetKeeps(env, s, i, fuel, s1);
    if i.line.Some? {
      LineKeeps(env, s1, i.line.value, fuel, s2);
    }
    SocketKeeps(env, s2, Received(s, i), fuel, s3);
    InvIdle(env, s3, s3.tick, false);
  }

  /** The states between the parts of a pass: after receiving, after the line, after the message. */
  function Stages(env: Env, s: State, i: Input, fuel: nat): (r: (State, State, State))
    requires BeforeTimer(env, s, i, fuel).Some?
    ensures AfterGet(env, s, i, fuel) == Some(r.0)
    ensures if i.line.Some? then AfterLine(env, r.0, i.line.value, fuel) == Some(r.1) else r.1 == r.0
    ensures AfterSocket(env, r.1, Received(s, i), fuel) == Some(r.2)
    ensures BeforeTimer(env, s, i, fuel) == Some(if i.valid then r.2 else r.2.(connected := false))
  {
    var s1 := AfterGet(env, s, i, fuel).value;
    var s2 := if i.line.Some? then AfterLine(env, s1, i.line.value, fuel).value else s1;
    (s1, s2, AfterSocket(env, s2, Received(s, i), fuel).value)
  }

  lemma PassKeeps(env: Env, s: State, i: Input, fuel: nat, t: State)
    requires Monotone(env) && Inv(env, s) && AfterPass(env, s, i, fuel) == Some(t)
    ensures Inv(env, t)
  {
    var s3 := BeforeTimer(env, s, i, fuel).value;
    var s4 := AfterPingTimer(env, s3, fuel).value;
    BeforeTimerKeeps(env, s, i, fuel, s3);
    PingTimerKeeps(env, s3, fuel, s4);
    if !s4.connected {
      ConnectKeeps(env, s4, false, fuel, t);
    }
  }

  lemma {:induction false} PassesKeep(env: Env, s: State, ins: seq<Input>, fuel: nat, t: State)
    requires Monotone(env) && Inv(env, s)
    requires AfterPasses(env, s, ins, fuel) == Some(t)
    ensures Inv(env, t)
    decreases |ins|
  {
    if ins != [] {
      var s1 := AfterPass(env, s, ins[0], fuel).value;
      PassKeeps(env, s, ins[0], fuel, s1);
      PassesKeep(env, s1, ins[1..], fuel, t);
    }
  }

  /**
   Every run that returns, from its start, in any environment: ping decisions are
   answered, timed out or outstanding, and more than 5 seconds apart; unforced attempts
   to connect are more than 10 seconds after the attempt before; the error counter is 0 or 1.
   */
  lemma EveryRun(env: Env, sensors: Sensors, ins: seq<Input>, fuel: nat, t: State)
    requires Monotone(env)
    requires AfterRun(env, sensors, ins, fuel) == Some(t)
    ensures Inv(env, t)
  {
    var s := AfterStart(env, sensors, fuel).value;
    Later(env, 0, 2);
    Later(env, 1, 2);
    ConnectKeeps(env, Initial(env, sensors), true, fuel, s);
    PassesKeep(env, s, ins, fuel, t);
  }

  // ---------- What sending and connecting leave alone ----------

  /** Beyond the connection itself only time passes and the log grows. */
  ghost predicate OnlyConnection(s: State, t: State) {
    && t.pingDone == s.pingDone && t.pingTime == s.pingTime && t.sensors == s.sensors && t.updated == s.updated
    && s.tick <= t.tick && s.log <= t.log
  }

  lemma {:induction false} SendOnly(env: Env, s: State, m: Message, fuel: nat, t: State)
    requires AfterSend(env, s, m, fuel) == Some(t)
    ensures OnlyConnection(s, t)
    decreases fuel
  {
    if s.connected && Fails(env.send(s.tick)) {
      ConnectOnly(env, Offered(env, s, m), false, fuel - 1, t);
    }
  }

  lemma {:induction false} ConnectOnly(env: Env, s: State, force: bool, fuel: nat, t: State)
    requires AfterConnect(env, s, force, fuel) == Some(t)
    ensures OnlyConnection(s, t)
    decreases fuel
  {
    if env.time(s.tick) - s.lastTry > 10.0 || force {
      if env.connect(s.tick + 2) == Done {
        SendOnly(env, Accepted(env, s, force), Hello, fuel - 1, t);
      }
    }
  }

  lemma GetOnly(env: Env, s: State, i: Input, fuel: nat, t: State)
    requires AfterGet(env, s, i, fuel) == Some(t)
    ensures OnlyConnection(s, t)
  {
    if s.connected && Fails(i.receive) {
      ConnectOnly(env, s.(connected := false), false, fuel, t);
    }
  }

  lemma LineOnly(env: Env, s: State, line: Line, fuel: nat, t: State)
    requires AfterLine(env, s, line, fuel) == Some(t)
    ensures OnlyConnection(if line.Report? then AfterReport(s, line) else s, t)
  {
    if line.Report? {
      SendOnly(env, AfterReport(s, line), Forward(line), fuel, t);
    } else if line.Lock? || line.Unlock? {
      SendOnly(env, s, Forward(line), fuel, t);
    }
  }

  lemma SocketOnly(env: Env, s: State, g: Got, fuel: nat, t: State)
    requires AfterSocket(env, s, g, fuel) == Some(t)
    ensures s.tick <= t.tick && s.log <= t.log && (t.pingDone || (!s.pingDone && t.pingTime == s.pingTime))
    ensures s.pingDone ==> t.pingDone && t.pingTime == s.pingTime
  {
    if g.GotPing? {
      SendOnly(env, s, PongText, fuel, t);
    }
  }

  /** Until then an outstanding ping can only have been settled by a pong. */
  lemma BeforeTimerOnly(env: Env, s: State, i: Input, fuel: nat, t: State)
    requires BeforeTimer(env, s, i, fuel) == Some(t)
    ensures s.tick <= t.tick && s.log <= t.log && (t.pingDone || (!s.pingDone && t.pingTime == s.pingTime))
    ensures s.pingDone ==> t.pingDone && t.pingTime == s.pingTime
  {
    var (s1, s2, s3) := Stages(env, s, i, fuel);
    GetOnly(env, s, i, fuel, s1);
    if i.line.Some? {
      LineOnly(env, s1, i.line.value, fuel, s2);
    }
    SocketOnly(env, s2, Received(s, i), fuel, s3);
  }

  /** Nor does the ping timer touch a sensor. */
  lemma TimerOnly(env: Env, s: State, fuel: nat, t: State)
    requires AfterPingTimer(env, s, fuel) == Some(t)
    ensures s.log <= t.log && t.sensors == s.sensors
  {
    if s.pingDone && env.time(s.tick) - s.pingTime > 5.0 {
      SendOnly(env, Pinged(env, s), PingText, fuel, t);
    }
  }

  /** A ping outstanding for more than 2 seconds is settled, unless it has been sent since. */
  lemma TimerSettles(env: Env, s: State, fuel: nat, t: State, since: real)
    requires AfterPingTimer(env, s, fuel) == Some(t)
    requires since <= env.time(s.tick + 1)
    requires !s.pingDone ==> env.time(s.tick) - s.pingTime > 2.0
    ensures t.pingDone || t.pingTime >= since
  {
    if s.pingDone && env.time(s.tick) - s.pingTime > 5.0 {
      SendOnly(env, Pinged(env, s), PingText, fuel, t);
    }
  }

  /**
   A ping outstanding for more than 2 seconds when a pass begins is settled when it
   ends; if one is outstanding then, it is a new one.
   */
  lemma StalePingCleared(env: Env, s: State, i: Input, fuel: nat, t: State)
    requires Monotone(env) && AfterPass(env, s, i, fuel) == Some(t)
    requires !s.pingDone && env.time(s.tick) - s.pingTime > 2.0
    ensures t.pingDone || t.pingTime >= env.time(s.tick)
  {
    var s3 := BeforeTimer(env, s, i, fuel).value;
    var s4 := AfterPingTimer(env, s3, fuel).value;
    BeforeTimerOnly(env, s, i, fuel, s3);
    Later(env, s.tick, s3.tick);
    Later(env, s.tick, s3.tick + 1);
    TimerSettles(env, s3, fuel, s4, env.time(s.tick));
    if !s4.connected {
      ConnectOnly(env, s4, false, fuel, t);
    }
  }

  /** A pass only adds to the log. */
  lemma PassGrows(env: Env, s: State, i: Input, fuel: nat, t: State)
    requires AfterPass(env, s, i, fuel) == Some(t)
    ensures s.log <= t.log
  {
    var s3 := BeforeTimer(env, s, i, fuel).value;
    var s4 := AfterPingTimer(env, s3, fuel).value;
    BeforeTimerOnly(env, s, i, fuel, s3);
    TimerOnly(env, s3, fuel, s4);
    if !s4.connected {
      ConnectOnly(env, s4, false, fuel, t);
    }
  }

  // ---------- More fuel changes nothing ----------

  lemma {:induction false} SendMore(env: Env, s: State, m: Message, fuel: nat, more: nat)
    requires AfterSend(env, s, m, fuel).Some? && fuel <= more
    ensures AfterSend(env, s, m, more) == AfterSend(env, s, m, fuel)
    decreases fuel
  {
    if s.connected && Fails(env.send(s.tick)) {
      ConnectMore(env, Offered(env, s, m), false, fuel - 1, more - 1);
    }
  }

  lemma {:induction false} ConnectMore(env: Env, s: State, force: bool, fuel: nat, more: nat)
    requires AfterConnect(env, s, force, fuel).Some? && fuel <= more
    ensures AfterConnect(env, s, force, more) == AfterConnect(env, s, force, fuel)
    decreases fuel
  {
    if env.time(s.tick) - s.lastTry > 10.0 || force {
      if env.connect(s.tick + 2) == Done {
        SendMore(env, Accepted(env, s, force), Hello, fuel - 1, more - 1);
      }
    }
  }

  lemma GetMore(env: Env, s: State, i: Input, fuel: nat, more: nat)
    requires AfterGet(env, s, i, fuel).Some? && fuel <= more
    ensures AfterGet(env, s, i, more) == AfterGet(env, s, i, fuel)
  {
    if s.connected && Fails(i.receive) {
      ConnectMore(env, s.(connected := false), false, fuel, more);
    }
  }

  lemma LineMore(env: Env, s: State, line: Line, fuel: nat, more: nat)
    requires AfterLine(env, s, line, fuel).Some? && fuel <= more
    ensures AfterLine(env, s, line, more) == AfterLine(env, s, line, fuel)
  {
    if line.Report? {
      SendMore(env, AfterReport(s, line), Forward(line), fuel, more);
    } else if line.Lock? || line.Unlock? {
      SendMore(env, s, Forward(line), fuel, more);
    }
  }

  lemma SocketMore(env: Env, s: State, g: Got, fuel: nat, more: nat)
    requires AfterSocket(env, s, g, fuel).Some? && fuel <= more
    ensures AfterSocket(env, s, g, more) == AfterSocket(env, s, g, fuel)
  {
    if g.GotPing? {
      SendMore(env, s, PongText, fuel, more);
    }
  }

  lemma TimerMore(env: Env, s: State, fuel: nat, more: nat)
    requires AfterPingTimer(env, s, fuel).Some? && fuel <= more
    ensures AfterPingTimer(env, s, more) == AfterPingTimer(env, s, fuel)
  {
    if s.pingDone && env.time(s.tick) - s.pingTime > 5.0 {
      SendMore(env, Pinged(env, s), PingText, fuel, more);
    }
  }

  lemma BeforeTimerMore(env: Env, s: State, i: Input, fuel: nat, more: nat)
    requires BeforeTimer(env, s, i, fuel).Some? && fuel <= more
    ensures BeforeTimer(env, s, i, more) == BeforeTimer(env, s, i, fuel)
  {
    var (s1, s2, s3) := Stages(env, s, i, fuel);
    GetMore(env, s, i, fuel, more);
    if i.line.Some? {
      LineMore(env, s1, i.line.value, fuel, more);
    }
    SocketMore(env, s2, Received(s, i), fuel, more);
  }

  lemma PassMore(env: Env, s: State, i: Input, fuel: nat, more: nat)
    requires AfterPass(env, s, i, fuel).Some? && fuel <= more
    ensures AfterPass(env, s, i, more) == AfterPass(env, s, i, fuel)
  {
    var s3 := BeforeTimer(env, s, i, fuel).value;
    var s4 := AfterPingTimer(env, s3, fuel).value;
    BeforeTimerMore(env, s, i, fuel, more);
    TimerMore(env, s3, fuel, more);
    if !s4.connected {
      ConnectMore(env, s4, false, fuel, more);
    }
  }

  lemma {:induction false} PassesMore(env: Env, s: State, ins: seq<Input>, fuel: nat, more: nat)
    requires AfterPasses(env, s, ins, fuel).Some? && fuel <= more
    ensures AfterPasses(env, s, ins, more) == AfterPasses(env, s, ins, fuel)
    decreases |ins|
  {
    if ins != [] {
      PassMore(env, s, ins[0], fuel, more);
      PassesMore(env, AfterPass(env, s, ins[0], fuel).value, ins[1..], fuel, more);
    }
  }

  /** What a run leads to does not depend on the fuel, as long as it is enough. */
  lemma RunOutcome(env: Env, sensors: Sensors, ins: seq<Input>, m: nat, n: nat)
    requires AfterRun(env, sensors, ins, m).Some? && AfterRun(env, sensors, ins, n).Some?
    ensures AfterRun(env, sensors, ins, m) == AfterRun(env, sensors, ins, n)
  {
    var fuel, more := if m <= n then m else n, if m <= n then n else m;
    ConnectMore(env, Initial(env, sensors), true, fuel, more);
    PassesMore(env, AfterStart(env, sensors, fuel).value, ins, fuel, more);
  }

  // ---------- How deep socket_send and socketConnect nest ----------

  /** Two units on: a Send that fails, the gate, and the attempt behind it. */
  lemma SendTwo(env: Env, s: State, m: Message, fuel: nat)
    requires s.connected && Fails(env.send(s.tick)) && fuel >= 2
    ensures var t := Offered(env, s, m);
            AfterSend(env, s, m, fuel)
            == if env.time(t.tick) - t.lastTry <= 10.0 then Some(t.(tick := t.tick + 1))
               else if env.connect(t.tick + 2) != Done then Some(Refused(env, t, false))
               else AfterSend(env, Accepted(env, t, false), Hello, fuel - 2)
  {
  }

  /** Level j of the descent from a call of socket_send in s: Send fails, the gate is open, Connect succeeds. */
  predicate DescendsAt(env: Env, s: State, j: nat) {
    var t := s.tick + 4 * j;
    && Fails(env.send(t))
    && env.time(t + 1) - (if j == 0 then s.lastTry else env.time(t - 2)) > 10.0
    && env.connect(t + 3) == Done
  }

  /** The exact depth: the calls from a connected s use up 2n units of fuel if and only if all n levels descend. */
  lemma {:induction false} NestsExactly(env: Env, s: State, m: Message, n: nat)
    requires s.connected
    ensures AfterSend(env, s, m, 2 * n) == None <==> forall j: nat :: j < n ==> DescendsAt(env, s, j)
    decreases n
  {
    if n > 0 {
      if Fails(env.send(s.tick)) {
        SendTwo(env, s, m, 2 * n);
      }
      if DescendsAt(env, s, 0) {
        var t := Accepted(env, Offered(env, s, m), false);
        NestsExactly(env, t, Hello, n - 1);
        forall j: nat
          ensures DescendsAt(env, t, j) <==> DescendsAt(env, s, j + 1)
        {
          assert s.tick + 4 * (j + 1) == t.tick + 4 * j;
        }
        DescentShift(env, s, t, n);
      }
    }
  }

  lemma DescentShift(env: Env, s: State, t: State, n: nat)
    requires n > 0 && DescendsAt(env, s, 0)
    requires forall j: nat :: DescendsAt(env, t, j) <==> DescendsAt(env, s, j + 1)
    ensures (forall j: nat :: j < n - 1 ==> DescendsAt(env, t, j))
       <==> forall j: nat :: j < n ==> DescendsAt(env, s, j)
  {
    if forall j: nat :: j < n - 1 ==> DescendsAt(env, t, j) {
      forall j: nat | j < n
        ensures DescendsAt(env, s, j)
      {
        if j > 0 {
          assert DescendsAt(env, t, j - 1);
        }
      }
    }
  }

  // ---------- Environments in which every call returns ----------

  /**
   The attempt whose clock reset is call number k connects, its greeting fails, and
   by then the gate for another attempt is open, whose reset is call k + 4.
   */
  predicate LinkAt(env: Env, k: nat) {
    env.connect(k + 1) == Done && Fails(env.send(k + 2)) && env.time(k + 3) - env.time(k) > 10.0
  }

  predicate Chain(env: Env, k: nat, n: nat)
    decreases n
  {
    n > 0 ==> LinkAt(env, k) && Chain(env, k + 4, n - 1)
  }

  ghost predicate CalmAt(env: Env, k: nat) {
    exists n: nat :: !Chain(env, k, n)
  }

  /** No chain of attempts, each leading to the next, is endless. */
  ghost predicate Calm(env: Env) {
    forall k: nat :: CalmAt(env, k)
  }

  ghost predicate Returns(env: Env, s: State, m: Message) {
    exists fuel: nat :: AfterSend(env, s, m, fuel).Some?
  }

  /** A chain of attempts uses up any fuel. */
  lemma {:induction false} ChainNests(env: Env, s: State, m: Message, k: nat, n: nat)
    requires s.connected && s.tick == k + 2 && s.lastTry == env.time(k) && Chain(env, k, n + 1)
    ensures AfterSend(env, s, m, 2 * n) == None
    decreases n
  {
    if n > 0 {
      assert LinkAt(env, k) && Chain(env, k + 4, n) && LinkAt(env, k + 4);
      var t := Accepted(env, Offered(env, s, m), false);
      ChainNests(env, t, Hello, k + 4, n - 1);
    }
  }

  /** A chain that ends lets the calls end. */
  lemma {:induction false} ChainEnds(env: Env, s: State, m: Message, n: nat)
    requires !Chain(env, s.tick + 2, n)
    ensures AfterSend(env, s, m, 2 * n + 2).Some?
    decreases n
  {
    if s.connected && Fails(env.send(s.tick)) {
      SendTwo(env, s, m, 2 * n + 2);
      var u := Offered(env, s, m);
      var t := Accepted(env, u, false);
      if env.time(u.tick) - u.lastTry > 10.0 && env.connect(u.tick + 2) == Done {
        if LinkAt(env, s.tick + 2) {
          ChainEnds(env, t, Hello, n - 1);
        } else if Fails(env.send(t.tick)) {
          SendTwo(env, t, Hello, 2 * n);
        }
      }
    }
  }

  /** Every call of socket_send returns, in every state, if and only if no chain of attempts is endless. */
  lemma CalmExactly(env: Env)
    ensures Calm(env) <==> forall s: State, m: Message :: Returns(env, s, m)
  {
    if Calm(env) {
      forall s: State, m: Message
        ensures Returns(env, s, m)
      {
        var fuel := CalmSend(env, s, m);
      }
    } else {
      var k: nat :| !CalmAt(env, k);
      var s := State(true, true, 0.0, env.time(k), 0, false, NO_SENSORS, k + 2, []);
      if Returns(env, s, Hello) {
        var fuel: nat :| AfterSend(env, s, Hello, fuel).Some?;
        SendMore(env, s, Hello, fuel, 2 * fuel);
        ChainNests(env, s, Hello, k, fuel);
        assert false;
      }
    }
  }

  lemma CalmSend(env: Env, s: State, m: Message) returns (fuel: nat)
    requires Calm(env)
    ensures AfterSend(env, s, m, fuel).Some?
  {
    assert CalmAt(env, s.tick + 2);
    var n: nat :| !Chain(env, s.tick + 2, n);
    ChainEnds(env, s, m, n);
    fuel := 2 * n + 2;
  }

  lemma CalmConnect(env: Env, s: State, force: bool) returns (fuel: nat)
    requires Calm(env)
    ensures AfterConnect(env, s, force, fuel).Some?
  {
    fuel := CalmSend(env, Accepted(env, s, force), Hello);
    fuel := fuel + 1;
  }

  lemma CalmGet(env: Env, s: State, i: Input) returns (fuel: nat)
    requires Calm(env)
    ensures AfterGet(env, s, i, fuel).Some?
  {
    fuel := CalmConnect(env, s.(connected := false), false);
  }

  /** A line jsonData can read, with its sensor in the list; and a name for such a sensor. */
  predicate LineDefined(line: Line) {
    line != Overread && (line.Report? ==> InList(line.id))
  }

  predicate NameDefined(g: Got) {
    g.GotName? ==> InList(g.id)
  }

  lemma CalmLine(env: Env, s: State, line: Line) returns (fuel: nat)
    requires Calm(env) && LineDefined(line)
    ensures AfterLine(env, s, line, fuel).Some?
  {
    fuel := CalmSend(env, if line.Report? then AfterReport(s, line) else s, Forward(line));
  }

  lemma CalmSocket(env: Env, s: State, g: Got) returns (fuel: nat)
    requires Calm(env) && NameDefined(g)
    ensures AfterSocket(env, s, g, fuel).Some?
  {
    fuel := CalmSend(env, s, PongText);
  }

  lemma CalmTimer(env: Env, s: State) returns (fuel: nat)
    requires Calm(env)
    ensures AfterPingTimer(env, s, fuel).Some?
  {
    fuel := CalmSend(env, Pinged(env, s), PingText);
  }

  /** What a pass acts on is defined. */
  predicate InputDefined(s: State, i: Input) {
    (i.line.Some? ==> LineDefined(i.line.value)) && NameDefined(Received(s, i))
  }

  lemma CalmBeforeTimer(env: Env, s: State, i: Input) returns (fuel: nat)
    requires Calm(env) && InputDefined(s, i)
    ensures BeforeTimer(env, s, i, fuel).Some?
  {
    var f1 := CalmGet(env, s, i);
    var s1 := AfterGet(env, s, i, f1).value;
    var f2, s2 := 0, s1;
    if i.line.Some? {
      f2 := CalmLine(env, s1, i.line.value);
      s2 := AfterLine(env, s1, i.line.value, f2).value;
    }
    var f3 := CalmSocket(env, s2, Received(s, i));
    fuel := f1 + f2 + f3;
    GetMore(env, s, i, f1, fuel);
    if i.line.Some? {
      LineMore(env, s1, i.line.value, f2, fuel);
    }
    SocketMore(env, s2, Received(s, i), f3, fuel);
  }

  lemma CalmPass(env: Env, s: State, i: Input) returns (fuel: nat)
    requires Calm(env) && InputDefined(s, i)
    ensures AfterPass(env, s, i, fuel).Some?
  {
    var f3 := CalmBeforeTimer(env, s, i);
    var s3 := BeforeTimer(env, s, i, f3).value;
    var f4 := CalmTimer(env, s3);
    var s4 := AfterPingTimer(env, s3, f4).value;
    var f5 := CalmConnect(env, s4, false);
    fuel := f3 + f4 + f5;
    BeforeTimerMore(env, s, i, f3, fuel);
    TimerMore(env, s3, f4, fuel);
    ConnectMore(env, s4, false, f5, fuel);
  }

  /** Where no chain of attempts is endless, a pass returns if and only if what it acts on is defined. */
  lemma CalmPassExactly(env: Env, s: State, i: Input)
    requires Calm(env)
    ensures (exists fuel: nat :: AfterPass(env, s, i, fuel).Some?) <==> InputDefined(s, i)
  {
    if InputDefined(s, i) {
      var fuel := CalmPass(env, s, i);
    }
  }

  /** Defined whatever the connection. */
  predicate Acceptable(i: Input) {
    (i.line.Some? ==> LineDefined(i.line.value)) && NameDefined(i.got)
  }

  lemma {:induction false} CalmPasses(env: Env, s: State, ins: seq<Input>) returns (fuel: nat)
    requires Calm(env) && forall i :: i in ins ==> Acceptable(i)
    ensures AfterPasses(env, s, ins, fuel).Some?
    decreases |ins|
  {
    fuel := 0;
    if ins != [] {
      assert Acceptable(ins[0]);
      var f1 := CalmPass(env, s, ins[0]);
      var t := AfterPass(env, s, ins[0], f1).value;
      var f2 := CalmPasses(env, t, ins[1..]);
      fuel := f1 + f2;
      PassMore(env, s, ins[0], f1, fuel);
      PassesMore(env, t, ins[1..], f2, fuel);
    }
  }

  /** Where no chain of attempts is endless, every run returns, from its start and for any inputs. */
  lemma CalmRuns(env: Env, sensors: Sensors, ins: seq<Input>)
    requires Calm(env) && forall i :: i in ins ==> Acceptable(i)
    ensures exists fuel: nat :: AfterRun(env, sensors, ins, fuel).Some?
  {
    var f1 := CalmConnect(env, Initial(env, sensors), true);
    var s := AfterStart(env, sensors, f1).value;
    var f2 := CalmPasses(env, s, ins);
    ConnectMore(env, Initial(env, sensors), true, f1, f1 + f2);
    PassesMore(env, s, ins, f2, f1 + f2);
    assert AfterRun(env, sensors, ins, f1 + f2).Some?;
  }

  /**
   No more than 10 seconds pass from the Reset in a socketConnect that connects, over
   a greeting that fails, to the next test of the clock.
   */
  ghost predicate Prompt(env: Env) {
    forall k: nat :: PromptAt(env, k)
  }

  ghost predicate PromptAt(env: Env, k: nat) {
    env.connect(k + 1) == Done && Fails(env.send(k + 2)) ==> env.time(k + 3) - env.time(k) <= 10.0
  }

  /** When connecting and greeting are prompt, a failed Send reconnects once and no more. */
  lemma PromptNests(env: Env, s: State, m: Message)
    requires Prompt(env)
    ensures Calm(env) && AfterSend(env, s, m, 4).Some?
  {
    forall k: nat
      ensures CalmAt(env, k)
    {
      assert PromptAt(env, k);
      assert !Chain(env, k, 1);
    }
    assert PromptAt(env, s.tick + 2);
    ChainEnds(env, s, m, 1);
  }

  /** A call that never returns: 4 seconds a call, connections that succeed and messages that fail. */
  lemma SlowNests(s: State, m: Message, fuel: nat)
    requires s.connected && s.lastTry + 8.0 <= (4 * s.tick) as real
    ensures AfterSend(Env(k => (4 * k) as real, k => Done, k => Error), s, m, fuel) == None
  {
    var env := Env(k => (4 * k) as real, k => Done, k => Error);
    forall j: nat
      ensures DescendsAt(env, s, j)
    {
    }
    NestsExactly(env, s, m, fuel);
    if AfterSend(env, s, m, fuel).Some? {
      SendMore(env, s, m, fuel, 2 * fuel);
    }
  }

  // ---------- The sensor list mirrors the reports ----------

  lemma LastOne(log: seq<Act>, a: Act, id: nat)
    ensures LastReport(log + [a], id)
            == if IsReportOf(a, id) then Some(a.m.line.st) else LastReport(log, id)
  {
    assert (log + [a])[..|log|] == log;
  }

  lemma {:induction false} SendLast(env: Env, s: State, m: Message, fuel: nat, t: State, id: nat)
    requires AfterSend(env, s, m, fuel) == Some(t)
    ensures LastReport(t.log, id)
            == if m.Forward? && m.line.Report? && m.line.id == id then Some(m.line.st) else LastReport(s.log, id)
    decreases fuel
  {
    LastOne(s.log, Lost(m), id);
    if s.connected {
      LastOne(s.log, Offered(env, s, m).log[|s.log|], id);
      if Fails(env.send(s.tick)) {
        ConnectLast(env, Offered(env, s, m), false, fuel - 1, t, id);
      }
    }
  }

  lemma AttemptLast(env: Env, s: State, force: bool, id: nat)
    ensures LastReport(Attempted(env, s, force).log, id) == LastReport(s.log, id)
  {
    LastOne(s.log, Connect(env.time(s.tick + 1), force), id);
  }

  lemma {:induction false} ConnectLast(env: Env, s: State, force: bool, fuel: nat, t: State, id: nat)
    requires AfterConnect(env, s, force, fuel) == Some(t)
    ensures LastReport(t.log, id) == LastReport(s.log, id)
    decreases fuel
  {
    if env.time(s.tick) - s.lastTry > 10.0 || force {
      AttemptLast(env, s, force, id);
      if env.connect(s.tick + 2) == Done {
        SendLast(env, Accepted(env, s, force), Hello, fuel - 1, t, id);
      }
    }
  }

  /** Sensor id shows the status of its last report, if there was one. */
  ghost predicate Shows(s: State, id: nat)
    requires id < SENSORS
  {
    LastReport(s.log, id).Some? ==> s.sensors[id].status == Char(LastReport(s.log, id).value)
  }

  lemma SendShows(env: Env, s: State, m: Message, fuel: nat, t: State, id: nat)
    requires id < SENSORS && AfterSend(env, s, m, fuel) == Some(t)
    requires if m.Forward? && m.line.Report? && m.line.id == id then s.sensors[id].status == Char(m.line.st)
             else Shows(s, id)
    ensures Shows(t, id)
  {
    SendOnly(env, s, m, fuel, t);
    SendLast(env, s, m, fuel, t, id);
  }

  lemma ConnectShows(env: Env, s: State, force: bool, fuel: nat, t: State, id: nat)
    requires id < SENSORS && Shows(s, id) && AfterConnect(env, s, force, fuel) == Some(t)
    ensures Shows(t, id)
  {
    ConnectOnly(env, s, force, fuel, t);
    ConnectLast(env, s, force, fuel, t, id);
  }

  lemma BeforeTimerShows(env: Env, s: State, i: Input, fuel: nat, t: State, id: nat)
    requires id < SENSORS && Shows(s, id) && BeforeTimer(env, s, i, fuel) == Some(t)
    ensures Shows(t, id)
  {
    var (s1, s2, s3) := Stages(env, s, i, fuel);
    if s.connected && Fails(i.receive) {
      ConnectShows(env, s.(connected := false), false, fuel, s1, id);
    }
    if i.line.Some? {
      LineShows(env, s1, i.line.value, fuel, s2, id);
    }
    SocketShows(env, s2, Received(s, i), fuel, s3, id);
  }

  lemma PassShows(env: Env, s: State, i: Input, fuel: nat, t: State, id: nat)
    requires id < SENSORS && Shows(s, id) && AfterPass(env, s, i, fuel) == Some(t)
    ensures Shows(t, id)
  {
    var s3 := BeforeTimer(env, s, i, fuel).value;
    var s4 := AfterPingTimer(env, s3, fuel).value;
    BeforeTimerShows(env, s, i, fuel, s3, id);
    TimerShows(env, s3, fuel, s4, id);
    if !s4.connected {
      ConnectShows(env, s4, false, fuel, t, id);
    }
  }

  lemma LineShows(env: Env, s: State, line: Line, fuel: nat, t: State, id: nat)
    requires id < SENSORS && Shows(s, id)
    requires AfterLine(env, s, line, fuel) == Some(t)
    ensures Shows(t, id)
  {
    if line.Report? {
      SendShows(env, AfterReport(s, line), Forward(line), fuel, t, id);
    } else if line.Lock? || line.Unlock? {
      SendShows(env, s, Forward(line), fuel, t, id);
    }
  }

  lemma SocketShows(env: Env, s: State, g: Got, fuel: nat, t: State, id: nat)
    requires id < SENSORS && Shows(s, id)
    requires AfterSocket(env, s, g, fuel) == Some(t)
    ensures Shows(t, id)
  {
    if g.GotPing? {
      SendShows(env, s, PongText, fuel, t, id);
    } else if g.GotPong? && !s.pingDone {
      SettledShows(env, s, Pong, s.tick, id);
    }
  }

  lemma PingedShows(env: Env, s: State, id: nat)
    requires id < SENSORS && Shows(s, id)
    ensures Shows(Pinged(env, s), id)
  {
    LastOne(s.log, Ping(env.time(s.tick + 1)), id);
  }

  lemma SettledShows(env: Env, s: State, a: Act, at: nat, id: nat)
    requires id < SENSORS && Shows(s, id) && (a == Pong || a == Timeout)
    ensures Shows(Settled(env, s, a, at), id)
  {
    LastOne(s.log, a, id);
  }

  lemma TimerShows(env: Env, s: State, fuel: nat, t: State, id: nat)
    requires id < SENSORS && Shows(s, id) && AfterPingTimer(env, s, fuel) == Some(t)
    ensures Shows(t, id)
  {
    var elapsed := env.time(s.tick) - s.pingTime;
    if s.pingDone && elapsed > 5.0 {
      PingedShows(env, s, id);
      SendShows(env, Pinged(env, s), PingText, fuel, t, id);
    } else if !s.pingDone && elapsed > 2.0 {
      SettledShows(env, s, Timeout, s.tick + 1, id);
    }
  }

  lemma {:induction false} PassesShow(env: Env, s: State, ins: seq<Input>, fuel: nat, t: State, id: nat)
    requires id < SENSORS && Shows(s, id)
    requires AfterPasses(env, s, ins, fuel) == Some(t)
    ensures Shows(t, id)
    decreases |ins|
  {
    if ins != [] {
      var s1 := AfterPass(env, s, ins[0], fuel).value;
      PassShows(env, s, ins[0], fuel, s1, id);
      PassesShow(env, s1, ins[1..], fuel, t, id);
    }
  }

  lemma StartShows(env: Env, sensors: Sensors, fuel: nat, t: State, id: nat)
    requires id < SENSORS && AfterStart(env, sensors, fuel) == Some(t)
    ensures Shows(t, id)
  {
    ConnectShows(env, Initial(env, sensors), true, fuel, t, id);
  }

  /** Every run that returns, from its start: each sensor shows the status of its last report, sent or lost. */
  lemma RunShows(env: Env, sensors: Sensors, ins: seq<Input>, fuel: nat, t: State, id: nat)
    requires id < SENSORS
    requires AfterRun(env, sensors, ins, fuel) == Some(t)
    ensures Shows(t, id)
  {
    var s := AfterStart(env, sensors, fuel).value;
    StartShows(env, sensors, fuel, s, id);
    PassesShow(env, s, ins, fuel, t, id);
  }

  // ---------- Types and names settle ----------

  /** Sensor id has its type, and keeps type and name. */
  ghost predicate Settles(s: State, t: State, id: nat)
    requires id < SENSORS
  {
    s.sensors[id].typ != SENSOR_NONE
    ==> t.sensors[id].typ == s.sensors[id].typ && t.sensors[id].name == s.sensors[id].name
  }

  lemma BeforeTimerSettles(env: Env, s: State, i: Input, fuel: nat, t: State, id: nat)
    requires id < SENSORS && BeforeTimer(env, s, i, fuel) == Some(t)
    ensures Settles(s, t, id)
  {
    var (s1, s2, s3) := Stages(env, s, i, fuel);
    GetOnly(env, s, i, fuel, s1);
    if i.line.Some? {
      LineSettles(env, s1, i.line.value, fuel, s2, id);
    }
    SocketSettles(env, s2, Received(s, i), fuel, s3, id);
  }

  lemma LineSettles(env: Env, s: State, line: Line, fuel: nat, t: State, id: nat)
    requires id < SENSORS && AfterLine(env, s, line, fuel) == Some(t)
    ensures Settles(s, t, id)
  {
    LineOnly(env, s, line, fuel, t);
  }

  lemma SocketSettles(env: Env, s: State, g: Got, fuel: nat, t: State, id: nat)
    requires id < SENSORS && AfterSocket(env, s, g, fuel) == Some(t)
    ensures Settles(s, t, id)
  {
    if g.GotPing? {
      SendOnly(env, s, PongText, fuel, t);
    }
  }

  lemma PassSettles(env: Env, s: State, i: Input, fuel: nat, t: State, id: nat)
    requires id < SENSORS && AfterPass(env, s, i, fuel) == Some(t)
    ensures Settles(s, t, id)
  {
    var s3 := BeforeTimer(env, s, i, fuel).value;
    var s4 := AfterPingTimer(env, s3, fuel).value;
    BeforeTimerSettles(env, s, i, fuel, s3, id);
    TimerOnly(env, s3, fuel, s4);
    if !s4.connected {
      ConnectOnly(env, s4, false, fuel, t);
    }
  }

  /** In every run that returns, the first type a sensor gets, and the name it has then, are final. */
  lemma {:induction false} RunSettles(env: Env, s: State, ins: seq<Input>, fuel: nat, t: State, id: nat)
    requires id < SENSORS
    requires AfterPasses(env, s, ins, fuel) == Some(t)
    ensures Settles(s, t, id)
    decreases |ins|
  {
    if ins != [] {
      var s1 := AfterPass(env, s, ins[0], fuel).value;
      PassSettles(env, s, ins[0], fuel, s1, id);
      RunSettles(env, s1, ins[1..], fuel, t, id);
    }
  }
}
