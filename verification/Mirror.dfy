/**
 The whole path of a sensor status: the base station's runs, a line to the bridge
 that keeps order and may lose anything, and the server's device table.  Messages
 on the way are named by their place in the base station's log.
 */
module Mirror {
  import opened Bytes
  import opened Lines
  import Base
  import opened Server

  const SIGFOX_ID := "123456789"

  /**
   flight is on the line, delivered reached the update handler of a session that had
   its Sigfox, and before is the device table when the run began.
   */
  datatype System = System(base: Base.State, flight: seq<nat>, session: Option<nat>, db: Db,
                           delivered: seq<nat>, before: seq<Device>)

  datatype Event =
    | BasePass(input: Base.Input)
    | Lose(k: nat)
    | Deliver
    | NewSession
    | OtherStation(owner: nat, id: int, ty: int, st: int)

  /** The messages handed to the socket since the log had length from. */
  function SentSince(log: seq<Base.Act>, from: nat): (r: seq<nat>)
    requires from <= |log|
    decreases |log| - from
  {
    if from == |log| then []
    else (if log[from].Sent? then [from] else []) + SentSince(log, from + 1)
  }

  /** bridge.js and the handler it calls, on message number n. */
  function Delivered(sys: System, n: nat): System
    requires n < |sys.base.log| && sys.base.log[n].Sent?
  {
    match sys.base.log[n].m
    case Hello =>
      (match FindSigfox(sys.db.sigfoxes, SIGFOX_ID)
       case None => sys
       case Some(row) => sys.(db := Online(sys.db, row, true), session := Some(row)))
    case Forward(Report(id, st, ty)) =>
      if sys.session == None then sys
      else sys.(db := Updated(sys.db, sys.session.value, id, ty, st), delivered := sys.delivered + [n])
    case _ => sys
  }

  /** A step of the line, the server or another station. */
  ghost function Moved(sys: System, e: Event): System
    requires !e.BasePass? && InFlight(sys)
  {
    match e
    case Lose(k) => if k < |sys.flight| then sys.(flight := sys.flight[..k] + sys.flight[k + 1..]) else sys
    case Deliver => if sys.flight == [] then sys else Delivered(sys.(flight := sys.flight[1..]), sys.flight[0])
    case NewSession =>
      if sys.session.Some? && sys.session.value < |sys.db.sigfoxes|
      then sys.(session := None, db := Online(sys.db, sys.session.value, false))
      else sys.(session := None)
    case OtherStation(owner, id, ty, st) =>
      if FindSigfox(sys.db.sigfoxes, SIGFOX_ID) == Some(owner) then sys
      else sys.(db := Updated(sys.db, owner, id, ty, st))
  }

  /** The station's pass has led to base, and what it sent goes on the line. */
  function Passed(sys: System, base: Base.State): System
    requires sys.base.log <= base.log
  {
    sys.(base := base, flight := sys.flight + SentSince(base.log, |sys.base.log|))
  }

  /** One step; None when the station's pass has no outcome on this fuel. */
  ghost function Step(env: Base.Env, sys: System, e: Event, fuel: nat): Option<System>
    requires InFlight(sys)
  {
    match e
    case BasePass(i) =>
      var base :- Base.AfterPass(env, sys.base, i, fuel);
      Base.PassGrows(env, sys.base, i, fuel, base);
      Some(Passed(sys, base))
    case _ => Some(Moved(sys, e))
  }

  // ---------- Invariants ----------

  ghost predicate Ascending(s: seq<nat>) {
    forall i, j :: 0 <= i < j < |s| ==> s[i] < s[j]
  }

  ghost predicate InFlight(sys: System) {
    && Ascending(sys.flight)
    && forall k :: 0 <= k < |sys.flight| ==> sys.flight[k] < |sys.base.log| && sys.base.log[sys.flight[k]].Sent?
  }

  predicate IsReport(log: seq<Base.Act>, n: nat) {
    n < |log| && log[n].Sent? && log[n].m.Forward? && log[n].m.line.Report?
  }

  /** What reached the table came in the order of the log, before everything still in flight. */
  ghost predicate InOrder(sys: System) {
    && Ascending(sys.delivered)
    && (forall k :: 0 <= k < |sys.delivered| ==> IsReport(sys.base.log, sys.delivered[k]))
    && forall j, k :: 0 <= j < |sys.delivered| && 0 <= k < |sys.flight| ==> sys.delivered[j] < sys.flight[k]
  }

  /** The last delivered report of sensor id. */
  function LastDelivered(log: seq<Base.Act>, delivered: seq<nat>, id: int): (r: Option<nat>)
    requires forall k :: 0 <= k < |delivered| ==> IsReport(log, delivered[k])
    ensures r.Some? ==> IsReport(log, r.value) && r.value in delivered && log[r.value].m.line.id == id
  {
    if delivered == [] then None
    else
      var n := delivered[|delivered| - 1];
      assert IsReport(log, delivered[|delivered| - 1]);
      if log[n].m.line.id == id then Some(n) else LastDelivered(log, delivered[..|delivered| - 1], id)
  }

  /**
   The table's state of the station's device id is that of the last report of it
   delivered, and without one, what it was before: a state, or no record at all.
   */
  ghost predicate Mirrors(sys: System, own: nat, id: int)
    requires forall k :: 0 <= k < |sys.delivered| ==> IsReport(sys.base.log, sys.delivered[k])
  {
    StateOf(sys.db.devices, own, id)
    == match LastDelivered(sys.base.log, sys.delivered, id)
       case None => StateOf(sys.before, own, id)
       case Some(n) => Some(sys.base.log[n].m.line.st)
  }

  ghost predicate Inv(sys: System) {
    && InFlight(sys) && InOrder(sys) && OnePerKey(sys.db.devices)
    && (sys.session.Some? ==> FindSigfox(sys.db.sigfoxes, SIGFOX_ID) == sys.session)
    && (forall own, id :: FindSigfox(sys.db.sigfoxes, SIGFOX_ID) == Some(own) ==> Mirrors(sys, own, id))
  }

  lemma {:induction false} SentAscending(log: seq<Base.Act>, from: nat)
    requires from <= |log|
    ensures var r := SentSince(log, from);
            Ascending(r) && forall k :: 0 <= k < |r| ==> from <= r[k] < |log| && log[r[k]].Sent?
    decreases |log| - from
  {
    if from < |log| {
      SentAscending(log, from + 1);
      var rest := SentSince(log, from + 1);
      if log[from].Sent? {
        assert SentSince(log, from) == [from] + rest;
      } else {
        assert SentSince(log, from) == rest;
      }
    }
  }

  /** None is left out. */
  lemma {:induction false} SentAll(log: seq<Base.Act>, from: nat, n: nat)
    requires from <= n < |log| && log[n].Sent?
    ensures n in SentSince(log, from)
    decreases n - from
  {
    if from < n {
      SentAll(log, from + 1, n);
      assert n in SentSince(log, from + 1);
    }
  }

  /** A longer log does not change what was delivered. */
  lemma {:induction false} LastStable(log: seq<Base.Act>, log': seq<Base.Act>, delivered: seq<nat>, id: int)
    requires log <= log' && forall k :: 0 <= k < |delivered| ==> IsReport(log, delivered[k])
    ensures forall k :: 0 <= k < |delivered| ==> IsReport(log', delivered[k])
    ensures LastDelivered(log', delivered, id) == LastDelivered(log, delivered, id)
    ensures var r := LastDelivered(log, delivered, id); r.Some? ==> r.value < |log| && log'[r.value] == log[r.value]
  {
    if delivered != [] {
      LastStable(log, log', delivered[..|delivered| - 1], id);
    }
  }

  lemma PassedKeeps(sys: System, base: Base.State)
    requires Inv(sys) && sys.base.log <= base.log
    ensures Inv(Passed(sys, base))
  {
    var t := Passed(sys, base);
    SentAscending(base.log, |sys.base.log|);
    assert InFlight(t) && InOrder(t);
    forall own, id | FindSigfox(t.db.sigfoxes, SIGFOX_ID) == Some(own)
      ensures Mirrors(t, own, id)
    {
      assert Mirrors(sys, own, id);
      LastStable(sys.base.log, base.log, sys.delivered, id);
    }
  }

  /** What the line and the session do leaves the mirrored states alone. */
  lemma SameMirrors(sys: System, t: System)
    requires Inv(sys)
    requires t.base == sys.base && t.delivered == sys.delivered && t.before == sys.before
    requires t.db.devices == sys.db.devices
    requires FindSigfox(t.db.sigfoxes, SIGFOX_ID) == FindSigfox(sys.db.sigfoxes, SIGFOX_ID)
    ensures forall own, id :: FindSigfox(t.db.sigfoxes, SIGFOX_ID) == Some(own) ==> Mirrors(t, own, id)
  {
    forall own, id | FindSigfox(t.db.sigfoxes, SIGFOX_ID) == Some(own)
      ensures Mirrors(t, own, id)
    {
      assert Mirrors(sys, own, id);
    }
  }

  lemma LoseKeeps(sys: System, k: nat)
    requires Inv(sys)
    ensures Inv(Moved(sys, Lose(k)))
  {
    var t := Moved(sys, Lose(k));
    assert forall j :: 0 <= j < |t.flight| ==> t.flight[j] == sys.flight[if j < k then j else j + 1];
    SameMirrors(sys, t);
  }

  /** Going on- or offline changes neither the Sigfox a query finds nor any device. */
  lemma {:induction false} SameSigfox(rows: seq<Sigfox>, row: nat, online: bool, sid: string)
    requires row < |rows|
    ensures FindSigfox(rows[row := rows[row].(online := online)], sid) == FindSigfox(rows, sid)
  {
    var n := |rows| - 1;
    var rows' := rows[row := rows[row].(online := online)];
    if row < n {
      assert rows'[..n] == rows[..n][row := rows[..n][row].(online := online)];
      SameSigfox(rows[..n], row, online, sid);
    } else {
      assert rows'[..n] == rows[..n];
    }
  }

  lemma OnlineKeeps(sys: System, row: nat, online: bool, session: Option<nat>)
    requires Inv(sys) && row < |sys.db.sigfoxes|
    requires session.Some? ==> FindSigfox(sys.db.sigfoxes, SIGFOX_ID) == session
    ensures Inv(sys.(db := Online(sys.db, row, online), session := session))
  {
    SameSigfox(sys.db.sigfoxes, row, online, SIGFOX_ID);
    SameMirrors(sys, sys.(db := Online(sys.db, row, online), session := session));
  }

  /** Another station's update goes to rows of another owner. */
  lemma OtherKeeps(sys: System, owner: nat, id: int, ty: int, st: int)
    requires Inv(sys)
    ensures Inv(Moved(sys, OtherStation(owner, id, ty, st)))
  {
    var t := Moved(sys, OtherStation(owner, id, ty, st));
    UpdateSets(sys.db, owner, id, ty, st, owner, id);
    forall own, i | FindSigfox(t.db.sigfoxes, SIGFOX_ID) == Some(own)
      ensures Mirrors(t, own, i)
    {
      assert Mirrors(sys, own, i);
      UpdateSets(sys.db, owner, id, ty, st, own, i);
    }
  }

  lemma TakenKeeps(sys: System)
    requires Inv(sys) && sys.flight != []
    ensures Inv(sys.(flight := sys.flight[1..]))
  {
    SameMirrors(sys, sys.(flight := sys.flight[1..]));
  }

  lemma LastNext(log: seq<Base.Act>, delivered: seq<nat>, n: nat, id: int)
    requires IsReport(log, n) && forall k :: 0 <= k < |delivered| ==> IsReport(log, delivered[k])
    ensures forall k :: 0 <= k < |delivered + [n]| ==> IsReport(log, (delivered + [n])[k])
    ensures LastDelivered(log, delivered + [n], id)
            == if log[n].m.line.id == id then Some(n) else LastDelivered(log, delivered, id)
  {
    assert (delivered + [n])[..|delivered|] == delivered;
  }

  /** A report handled in session: delivered grows by it, and its device takes its state. */
  lemma ReportKeeps(sys: System, n: nat)
    requires Inv(sys) && IsReport(sys.base.log, n) && sys.session.Some?
    requires forall k :: 0 <= k < |sys.delivered| ==> sys.delivered[k] < n
    requires forall k :: 0 <= k < |sys.flight| ==> n < sys.flight[k]
    ensures Inv(Delivered(sys, n))
  {
    var t, line, own := Delivered(sys, n), sys.base.log[n].m.line, sys.session.value;
    UpdateSets(sys.db, own, line.id, line.ty, line.st, own, line.id);
    assert InFlight(t) && InOrder(t);
    forall id
      ensures Mirrors(t, own, id)
    {
      assert Mirrors(sys, own, id);
      UpdateSets(sys.db, own, line.id, line.ty, line.st, own, id);
      LastNext(sys.base.log, sys.delivered, n, id);
    }
  }

  lemma DeliverKeeps(sys: System)
    requires Inv(sys)
    ensures Inv(Moved(sys, Deliver))
  {
    if sys.flight != [] {
      var n := sys.flight[0];
      var t := sys.(flight := sys.flight[1..]);
      TakenKeeps(sys);
      var m := sys.base.log[n].m;
      if m.Hello? {
        var found := FindSigfox(t.db.sigfoxes, SIGFOX_ID);
        if found.Some? {
          OnlineKeeps(t, found.value, true, found);
        }
      } else if m.Forward? && m.line.Report? && t.session.Some? {
        ReportKeeps(t, n);
      }
    }
  }

  lemma StepKeeps(env: Base.Env, sys: System, e: Event, fuel: nat, t: System)
    requires Inv(sys) && Step(env, sys, e, fuel) == Some(t)
    ensures Inv(t) && t.before == sys.before
  {
    match e
    case BasePass(i) =>
      Base.PassGrows(env, sys.base, i, fuel, t.base);
      PassedKeeps(sys, t.base);
    case Lose(k) => LoseKeeps(sys, k);
    case Deliver => DeliverKeeps(sys);
    case NewSession =>
      if sys.session.Some? {
        OnlineKeeps(sys, sys.session.value, false, None);
      } else {
        assert t == sys;
      }
    case OtherStation(owner, id, ty, st) => OtherKeeps(sys, owner, id, ty, st);
  }

  /** Every run that returns keeps the invariant, and the table it began with for comparison. */
  ghost function Steps(env: Base.Env, sys: System, es: seq<Event>, fuel: nat): (r: Option<System>)
    requires Inv(sys)
    ensures r.Some? ==> Inv(r.value) && r.value.before == sys.before
    decreases |es|
  {
    if es == [] then Some(sys)
    else
      var t :- Step(env, sys, es[0], fuel);
      StepKeeps(env, sys, es[0], fuel, t);
      Steps(env, t, es[1..], fuel)
  }

  // ---------- What the server knows ----------

  /** Any table with one record per owner and device, and the station just started. */
  ghost function Start(env: Base.Env, sensors: Base.Sensors, db: Db, fuel: nat): (r: Option<System>)
    requires OnePerKey(db.devices)
    ensures r.Some? ==> Inv(r.value) && r.value.before == db.devices
  {
    var base :- Base.AfterStart(env, sensors, fuel);
    SentAscending(base.log, 0);
    Some(System(base, SentSince(base.log, 0), None, db, [], db.devices))
  }

  /** A run from its start. */
  ghost function AfterEvents(env: Base.Env, sensors: Base.Sensors, db: Db, es: seq<Event>, fuel: nat): Option<System>
    requires OnePerKey(db.devices)
  {
    var sys :- Start(env, sensors, db, fuel);
    Steps(env, sys, es, fuel)
  }

  /** The last delivered report of a sensor is the highest-numbered one. */
  lemma {:induction false} LastDeliveredIs(log: seq<Base.Act>, delivered: seq<nat>, id: int, n: nat)
    requires (forall k :: 0 <= k < |delivered| ==> IsReport(log, delivered[k])) && Ascending(delivered)
    requires n in delivered && IsReport(log, n) && log[n].m.line.id == id
    ensures var r := LastDelivered(log, delivered, id); r.Some? && n <= r.value
  {
    var k := |delivered| - 1;
    if delivered[k] != n && log[delivered[k]].m.line.id != id {
      assert n in delivered[..k];
      LastDeliveredIs(log, delivered[..k], id, n);
    } else {
      var j :| 0 <= j < |delivered| && delivered[j] == n;
      assert j == k || delivered[j] < delivered[k];
    }
  }

  /**
   Mirror safety, in every run of station, line and server that returns, in any
   environment and from any table: at most one record per owner and device; each of
   the station's devices has the state of the last report of it that was delivered, or
   the state it began with; what was delivered is reports of the station in the order
   it made them; and whenever a sensor's latest report was delivered, the record and
   the station's own list show the same status.
   */
  lemma MirrorSafety(env: Base.Env, sensors: Base.Sensors, db: Db, es: seq<Event>, fuel: nat, t: System,
                     own: nat, id: nat)
    requires OnePerKey(db.devices)
    requires AfterEvents(env, sensors, db, es, fuel) == Some(t)
    requires FindSigfox(t.db.sigfoxes, SIGFOX_ID) == Some(own) && id < Base.SENSORS
    ensures && t.before == db.devices && OnePerKey(t.db.devices) && InOrder(t) && Mirrors(t, own, id)
            && (var r := Base.LastReportAt(t.base.log, id);
                r.Some? && r.value in t.delivered ==>
                  var state := StateOf(t.db.devices, own, id);
                  state.Some? && Base.Char(state.value) == t.base.sensors[id].status)
  {
    var s := Start(env, sensors, db, fuel).value;
    Base.StartShows(env, sensors, fuel, s.base, id);
    StepsShow(env, s, es, fuel, t, id);
    var r := Base.LastReportAt(t.base.log, id);
    if r.Some? && r.value in t.delivered {
      LatestDelivered(t, id);
    }
  }

  /** A sensor's latest report, once delivered, is its last delivered one. */
  lemma LatestDelivered(t: System, id: nat)
    requires InOrder(t)
    requires var r := Base.LastReportAt(t.base.log, id); r.Some? && r.value in t.delivered
    ensures LastDelivered(t.base.log, t.delivered, id) == Base.LastReportAt(t.base.log, id)
  {
    var n := Base.LastReportAt(t.base.log, id).value;
    var k :| 0 <= k < |t.delivered| && t.delivered[k] == n;
    assert IsReport(t.base.log, t.delivered[k]);
    LastDeliveredIs(t.base.log, t.delivered, id, n);
    Base.LastReportIs(t.base.log, id, LastDelivered(t.base.log, t.delivered, id).value);
  }

  lemma {:induction false} StepsShow(env: Base.Env, sys: System, es: seq<Event>, fuel: nat, t: System, id: nat)
    requires Inv(sys) && id < Base.SENSORS && Base.Shows(sys.base, id)
    requires Steps(env, sys, es, fuel) == Some(t)
    ensures Base.Shows(t.base, id)
    decreases |es|
  {
    if es != [] {
      var e := es[0];
      var next := Step(env, sys, e, fuel).value;
      StepKeeps(env, sys, e, fuel, next);
      if e.BasePass? {
        Base.PassShows(env, sys.base, e.input, fuel, next.base, id);
      }
      StepsShow(env, next, es[1..], fuel, t, id);
    }
  }

  // ---------- What a delivery does ----------

  /** Every message sent in a pass goes on the line, behind those already there. */
  lemma PassSends(env: Base.Env, sys: System, i: Base.Input, fuel: nat, t: System, n: nat)
    requires InFlight(sys) && Step(env, sys, BasePass(i), fuel) == Some(t)
    requires |sys.base.log| <= n < |t.base.log| && t.base.log[n].Sent?
    ensures sys.flight <= t.flight && n in t.flight
  {
    SentAll(t.base.log, |sys.base.log|, n);
    var sent := SentSince(t.base.log, |sys.base.log|);
    var k :| 0 <= k < |sent| && sent[k] == n;
    assert t.flight[|sys.flight| + k] == n;
  }

  /** A greeting delivered binds the session to the station's Sigfox and puts it online. */
  lemma GreetingBinds(sys: System, own: nat)
    requires Inv(sys) && sys.flight != [] && sys.base.log[sys.flight[0]] == Base.Sent(Base.Hello)
    requires FindSigfox(sys.db.sigfoxes, SIGFOX_ID) == Some(own)
    ensures var t := Moved(sys, Deliver);
            && t.session == Some(own) && t.flight == sys.flight[1..] && t.db.sigfoxes[own].online
            && t.db.devices == sys.db.devices
            && t.db.published == sys.db.published + [OfSigfox(own, true)]
  {
  }

  /** A report delivered in session is counted, and its device has its state and, when new, its type. */
  lemma ReportArrives(sys: System, id: int, st: int, ty: int)
    requires Inv(sys) && sys.flight != [] && sys.session.Some?
    requires sys.base.log[sys.flight[0]] == Base.Sent(Base.Forward(Report(id, st, ty)))
    ensures var t, own := Moved(sys, Deliver), sys.session.value;
            && t.delivered == sys.delivered + [sys.flight[0]] && t.flight == sys.flight[1..]
            && StateOf(t.db.devices, own, id) == Some(st)
            && (StateOf(sys.db.devices, own, id) == None ==> TypeOf(t.db.devices, own, id) == Some(ty))
  {
    var own := sys.session.value;
    UpdateSets(sys.db, own, id, ty, st, own, id);
    UpdateTypes(sys.db, own, id, ty, st, own, id);
  }

  /** A greeting and a report behind it, delivered one after the other, bring the report's state into the table. */
  lemma GreetedReportArrives(sys: System, own: nat, id: int, st: int, ty: int)
    requires Inv(sys) && |sys.flight| >= 2 && FindSigfox(sys.db.sigfoxes, SIGFOX_ID) == Some(own)
    requires sys.base.log[sys.flight[0]] == Base.Sent(Base.Hello)
    requires sys.base.log[sys.flight[1]] == Base.Sent(Base.Forward(Report(id, st, ty)))
    ensures var t := Moved(sys, Deliver);
            Inv(t) && StateOf(Moved(t, Deliver).db.devices, own, id) == Some(st)
  {
    var t := Moved(sys, Deliver);
    DeliverKeeps(sys);
    GreetingBinds(sys, own);
    ReportArrives(t, id, st, ty);
  }
}
