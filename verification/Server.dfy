/**
 The web server's side of a socket: the connect, update and disconnect handlers over
 the Sigfox and Device tables and the updates published to subscribers.  A handler,
 query and save together, is one step.
 */
module Server {
  import opened Bytes

  datatype Sigfox = Sigfox(sigfoxId: string, name: string, online: bool)

  datatype Device = Device(owner: nat, idDevice: int, typ: int, state: int)

  /** publishUpdate on a row of the Sigfox or of the Device table. */
  datatype Publication = OfSigfox(row: nat, online: bool) | OfDevice(row: nat, state: int, typ: int)

  datatype Db = Db(sigfoxes: seq<Sigfox>, devices: seq<Device>, published: seq<Publication>)

  // ---------- The two queries ----------

  function FindSigfox(rows: seq<Sigfox>, sigfoxId: string): (r: Option<nat>)
    ensures r.Some? ==> r.value < |rows| && rows[r.value].sigfoxId == sigfoxId
    ensures r.Some? ==> forall k :: 0 <= k < r.value ==> rows[k].sigfoxId != sigfoxId
    ensures r == None ==> forall k :: 0 <= k < |rows| ==> rows[k].sigfoxId != sigfoxId
  {
    if rows == [] then None
    else if FindSigfox(rows[..|rows| - 1], sigfoxId).Some? then FindSigfox(rows[..|rows| - 1], sigfoxId)
    else if rows[|rows| - 1].sigfoxId == sigfoxId then Some(|rows| - 1)
    else None
  }

  predicate IsKey(d: Device, owner: nat, id: int) {
    d.owner == owner && d.idDevice == id
  }

  function FindDevice(rows: seq<Device>, owner: nat, id: int): (r: Option<nat>)
    ensures r.Some? ==> r.value < |rows| && IsKey(rows[r.value], owner, id)
    ensures r == None ==> forall k :: 0 <= k < |rows| ==> !IsKey(rows[k], owner, id)
  {
    if rows == [] then None
    else if FindDevice(rows[..|rows| - 1], owner, id).Some? then FindDevice(rows[..|rows| - 1], owner, id)
    else if IsKey(rows[|rows| - 1], owner, id) then Some(|rows| - 1)
    else None
  }

  // ---------- The handlers on values ----------

  function Online(db: Db, row: nat, online: bool): Db
    requires row < |db.sigfoxes|
  {
    db.(sigfoxes := db.sigfoxes[row := db.sigfoxes[row].(online := online)],
        published := db.published + [OfSigfox(row, online)])
  }

  function Updated(db: Db, owner: nat, id: int, ty: int, st: int): Db {
    match FindDevice(db.devices, owner, id)
    case None => db.(devices := db.devices + [Device(owner, id, ty, st)])
    case Some(row) =>
      var d := db.devices[row];
      if d.state == st then db
      else db.(devices := db.devices[row := d.(state := st)], published := db.published + [OfDevice(row, st, d.typ)])
  }

  datatype Event = Connects(sigfoxId: string) | Disconnects(row: nat) | Updates(owner: nat, id: int, ty: int, st: int)

  function Handle(db: Db, e: Event): Db {
    match e
    case Connects(sid) =>
      (match FindSigfox(db.sigfoxes, sid) case None => db case Some(row) => Online(db, row, true))
    case Disconnects(row) => if row < |db.sigfoxes| then Online(db, row, false) else db
    case Updates(owner, id, ty, st) => Updated(db, owner, id, ty, st)
  }

  function HandleAll(db: Db, es: seq<Event>): Db
    decreases |es|
  {
    if es == [] then db else HandleAll(Handle(db, es[0]), es[1..])
  }

  /** A call of a handler by session number k. */
  datatype Request =
    | Connecting(k: nat, sigfoxId: string)
    | Disconnecting(k: nat)
    | Updating(k: nat, id: int, ty: int, st: int)

  /** What a request does to the tables, owners being the Sigfox of each session. */
  function EventsOf(owners: seq<Option<nat>>, r: Request): seq<Event>
    requires r.k < |owners|
  {
    match r
    case Connecting(_, sid) => [Connects(sid)]
    case Disconnecting(k) => if owners[k].Some? then [Disconnects(owners[k].value)] else []
    case Updating(k, id, ty, st) => if owners[k].Some? then [Updates(owners[k].value, id, ty, st)] else []
  }

  /** The Sigfox of each session after the request: one that connects is bound to the row found. */
  function OwnersAfter(db: Db, owners: seq<Option<nat>>, r: Request): seq<Option<nat>>
    requires r.k < |owners|
  {
    if r.Connecting? && FindSigfox(db.sigfoxes, r.sigfoxId).Some?
    then owners[r.k := FindSigfox(db.sigfoxes, r.sigfoxId)] else owners
  }

  function AllEvents(db: Db, owners: seq<Option<nat>>, rs: seq<Request>): seq<Event>
    requires forall r :: r in rs ==> r.k < |owners|
    decreases |rs|
  {
    if rs == [] then []
    else
      var es := EventsOf(owners, rs[0]);
      es + AllEvents(HandleAll(db, es), OwnersAfter(db, owners, rs[0]), rs[1..])
  }

  /** The tables when all requests are handled. */
  function Served(db: Db, owners: seq<Option<nat>>, rs: seq<Request>): Db
    requires forall r :: r in rs ==> r.k < |owners|
  {
    HandleAll(db, AllEvents(db, owners, rs))
  }

  lemma {:induction false} HandleConcat(db: Db, a: seq<Event>, b: seq<Event>)
    ensures HandleAll(db, a + b) == HandleAll(HandleAll(db, a), b)
    decreases |a|
  {
    if a == [] {
      assert a + b == b;
    } else {
      assert (a + b)[0] == a[0] && (a + b)[1..] == a[1..] + b;
      HandleConcat(Handle(db, a[0]), a[1..], b);
    }
  }

  lemma AllEventsCons(db: Db, owners: seq<Option<nat>>, r: Request, rs: seq<Request>)
    requires r.k < |owners| && forall q :: q in rs ==> q.k < |owners|
    ensures Served(db, owners, [r] + rs)
            == Served(HandleAll(db, EventsOf(owners, r)), OwnersAfter(db, owners, r), rs)
  {
    var es := EventsOf(owners, r);
    assert ([r] + rs)[1..] == rs;
    HandleConcat(db, es, AllEvents(HandleAll(db, es), OwnersAfter(db, owners, r), rs));
  }

  lemma ServedNext(db: Db, owners: seq<Option<nat>>, rs: seq<Request>, k: nat)
    requires k < |rs| && forall r :: r in rs ==> r.k < |owners|
    ensures Served(db, owners, rs[k..])
            == Served(HandleAll(db, EventsOf(owners, rs[k])), OwnersAfter(db, owners, rs[k]), rs[k + 1..])
  {
    assert rs[k..] == [rs[k]] + rs[k + 1..];
    AllEventsCons(db, owners, rs[k], rs[k + 1..]);
  }

  // ---------- The handlers ----------

  class Session {
    var sigfox: Option<nat>

    constructor ()
      ensures sigfox == None
    {
      sigfox := None;
    }
  }

  /** The tables, and the handlers onConnect installs on a socket. */
  class Sockets {
    var sigfoxes: seq<Sigfox>
    var devices: seq<Device>
    var published: seq<Publication>

    ghost function TheDb(): Db
      reads this
    {
      Db(sigfoxes, devices, published)
    }

    /** A session that has a Sigfox names a row of the table. */
    ghost predicate Valid(session: Session)
      reads this, session
    {
      session.sigfox.Some? ==> session.sigfox.value < |sigfoxes|
    }

    method OnConnect(session: Session, sigfoxId: string)
      requires Valid(session)
      modifies this, session
      ensures Valid(session)
      ensures match FindSigfox(old(sigfoxes), sigfoxId)
              case None => TheDb() == old(TheDb()) && session.sigfox == old(session.sigfox)
              case Some(row) => TheDb() == Online(old(TheDb()), row, true) && session.sigfox == Some(row)
    {
      var found := FindSigfox(sigfoxes, sigfoxId);
      if found == None {
        return;
      }
      var row := found.value;
      sigfoxes := sigfoxes[row := sigfoxes[row].(online := true)];
      session.sigfox := Some(row);
      published := published + [OfSigfox(row, true)];
    }

    method OnDisconnect(session: Session)
      requires Valid(session)
      modifies this
      ensures Valid(session)
      ensures match session.sigfox
              case None => TheDb() == old(TheDb())
              case Some(row) => TheDb() == Online(old(TheDb()), row, false)
    {
      if session.sigfox.Some? {
        var row := session.sigfox.value;
        sigfoxes := sigfoxes[row := sigfoxes[row].(online := false)];
        published := published + [OfSigfox(row, false)];
      }
    }

    method OnUpdate(session: Session, id: int, ty: int, st: int)
      requires Valid(session)
      modifies this
      ensures Valid(session)
      ensures match session.sigfox
              case None => TheDb() == old(TheDb())
              case Some(owner) => TheDb() == Updated(old(TheDb()), owner, id, ty, st)
    {
      if session.sigfox.Some? {
        var owner := session.sigfox.value;
        var found := FindDevice(devices, owner, id);
        if found == None {
          devices := devices + [Device(owner, id, ty, st)];
        } else {
          var row := found.value;
          if devices[row].state != st {
            var typ := devices[row].typ;
            devices := devices[row := devices[row].(state := st)];
            published := published + [OfDevice(row, st, typ)];
          }
        }
      }
    }

    /** One request, by the handler it names. */
    method Serve(sessions: seq<Session>, r: Request)
      requires Distinct(sessions) && r.k < |sessions| && forall s :: s in sessions ==> Valid(s)
      modifies this, sessions
      ensures forall s :: s in sessions ==> Valid(s)
      ensures TheDb() == HandleAll(old(TheDb()), EventsOf(old(Owners(sessions)), r))
      ensures Owners(sessions) == OwnersAfter(old(TheDb()), old(Owners(sessions)), r)
    {
      match r {
        case Connecting(k, sid) =>
          OnConnect(sessions[k], sid);
        case Disconnecting(k) =>
          OnDisconnect(sessions[k]);
        case Updating(k, id, ty, st) =>
          OnUpdate(sessions[k], id, ty, st);
      }
    }

    /** The server's run: the requests of all its sessions, in the order they come. */
    method ServeAll(sessions: seq<Session>, rs: seq<Request>)
      requires Distinct(sessions) && forall s :: s in sessions ==> Valid(s)
      requires forall r :: r in rs ==> r.k < |sessions|
      modifies this, sessions
      ensures TheDb() == HandleAll(old(TheDb()), AllEvents(old(TheDb()), old(Owners(sessions)), rs))
    {
      ghost var served := Served(TheDb(), Owners(sessions), rs);
      var k := 0;
      assert rs[0..] == rs;
      while k < |rs|
        invariant 0 <= k <= |rs| && forall s :: s in sessions ==> Valid(s)
        invariant served == Served(TheDb(), Owners(sessions), rs[k..])
      {
        ServedNext(TheDb(), Owners(sessions), rs, k);
        Serve(sessions, rs[k]);
        k := k + 1;
      }
    }
  }

  /** Every session is one object of its own. */
  ghost predicate Distinct(sessions: seq<Session>) {
    forall i, j :: 0 <= i < j < |sessions| ==> sessions[i] != sessions[j]
  }

  ghost function Owners(sessions: seq<Session>): (r: seq<Option<nat>>)
    reads sessions
    ensures |r| == |sessions|
  {
    seq(|sessions|, i requires 0 <= i < |sessions| reads sessions => sessions[i].sigfox)
  }

  // ---------- One record per device ----------

  ghost predicate OnePerKey(rows: seq<Device>) {
    forall j, k :: 0 <= j < k < |rows| ==> !IsKey(rows[k], rows[j].owner, rows[j].idDevice)
  }

  lemma FindUnique(rows: seq<Device>, k: nat)
    requires OnePerKey(rows) && k < |rows|
    ensures FindDevice(rows, rows[k].owner, rows[k].idDevice) == Some(k)
  {
  }

  /** The state the table has for a device. */
  function StateOf(rows: seq<Device>, owner: nat, id: int): Option<int> {
    match FindDevice(rows, owner, id)
    case None => None
    case Some(k) => Some(rows[k].state)
  }

  /** An update keeps one record per key, sets the state of its own key, and leaves every other key as it was. */
  lemma UpdateSets(db: Db, owner: nat, id: int, ty: int, st: int, o: nat, i: int)
    requires OnePerKey(db.devices)
    ensures var db' := Updated(db, owner, id, ty, st);
            && OnePerKey(db'.devices)
            && StateOf(db'.devices, o, i) == if o == owner && i == id then Some(st) else StateOf(db.devices, o, i)
  {
    var rows, rows' := db.devices, Updated(db, owner, id, ty, st).devices;
    assert forall k :: 0 <= k < |rows| ==> rows'[k].owner == rows[k].owner && rows'[k].idDevice == rows[k].idDevice;
    assert OnePerKey(rows');
    SameState(rows', o, i);
    SameState(rows, o, i);
    if FindDevice(rows, o, i).Some? {
      var k := FindDevice(rows, o, i).value;
      assert IsKey(rows'[k], o, i);
      FindUnique(rows', k);
    } else if o == owner && i == id {
      assert IsKey(rows'[|rows|], o, i);
      FindUnique(rows', |rows|);
    } else {
      assert forall k :: 0 <= k < |rows'| ==> !IsKey(rows'[k], o, i);
    }
  }

  lemma SameState(rows: seq<Device>, o: nat, i: int)
    ensures StateOf(rows, o, i).Some? ==>
              exists k :: 0 <= k < |rows| && IsKey(rows[k], o, i) && rows[k].state == StateOf(rows, o, i).value
  {
  }

  /** The type the table has for a device. */
  function TypeOf(rows: seq<Device>, owner: nat, id: int): Option<int> {
    match FindDevice(rows, owner, id)
    case None => None
    case Some(k) => Some(rows[k].typ)
  }

  /** A new device gets the type reported; no type changes after that. */
  lemma UpdateTypes(db: Db, owner: nat, id: int, ty: int, st: int, o: nat, i: int)
    requires OnePerKey(db.devices)
    ensures var was := TypeOf(db.devices, o, i);
            TypeOf(Updated(db, owner, id, ty, st).devices, o, i)
            == if o == owner && i == id && was == None then Some(ty) else was
  {
    var rows, rows' := db.devices, Updated(db, owner, id, ty, st).devices;
    UpdateSets(db, owner, id, ty, st, o, i);
    if FindDevice(rows, o, i).Some? {
      var k := FindDevice(rows, o, i).value;
      assert IsKey(rows'[k], o, i);
      FindUnique(rows', k);
    } else if o == owner && i == id {
      assert IsKey(rows'[|rows|], o, i);
      FindUnique(rows', |rows|);
    }
  }

  /** A device not in the table is added and not published; one that changes is published with its type. */
  lemma UpdatePublishes(db: Db, owner: nat, id: int, ty: int, st: int, k: nat)
    requires OnePerKey(db.devices)
    ensures var db' := Updated(db, owner, id, ty, st);
            && (StateOf(db.devices, owner, id) == None ==>
                  db' == db.(devices := db.devices + [Device(owner, id, ty, st)]))
            && (k < |db.devices| && IsKey(db.devices[k], owner, id) ==>
                  db'.published == db.published
                    + if db.devices[k].state == st then [] else [OfDevice(k, st, db.devices[k].typ)])
  {
    if k < |db.devices| && IsKey(db.devices[k], owner, id) {
      FindUnique(db.devices, k);
    }
  }

  // ---------- What a request does ----------

  /** An update of a session that has a Sigfox reaches the device of that owner, with its state and type. */
  lemma UpdatingSets(db: Db, owners: seq<Option<nat>>, k: nat, id: int, ty: int, st: int)
    requires OnePerKey(db.devices) && k < |owners|
    ensures var db' := HandleAll(db, EventsOf(owners, Updating(k, id, ty, st)));
            match owners[k]
            case None => db' == db
            case Some(o) =>
              && StateOf(db'.devices, o, id) == Some(st)
              && TypeOf(db'.devices, o, id)
                 == (if TypeOf(db.devices, o, id) == None then Some(ty) else TypeOf(db.devices, o, id))
  {
    if owners[k].Some? {
      var o := owners[k].value;
      assert HandleAll(db, [Updates(o, id, ty, st)]) == Updated(db, o, id, ty, st);
      UpdateSets(db, o, id, ty, st, o, id);
      UpdateTypes(db, o, id, ty, st, o, id);
    }
  }

  /** Row r is the first with this identifier. */
  ghost predicate IsFirst(rows: seq<Sigfox>, sid: string, r: nat) {
    r < |rows| && rows[r].sigfoxId == sid && forall j :: 0 <= j < r ==> rows[j].sigfoxId != sid
  }

  /** A session that connects with the identifier of a row is bound to it; one that does not keeps what it had. */
  lemma ConnectingBinds(db: Db, owners: seq<Option<nat>>, k: nat, sid: string, r: nat)
    requires k < |owners|
    ensures var owners' := OwnersAfter(db, owners, Connecting(k, sid));
            && |owners'| == |owners| && (forall j :: 0 <= j < |owners| && j != k ==> owners'[j] == owners[j])
            && (IsFirst(db.sigfoxes, sid, r) ==> owners'[k] == Some(r))
            && ((forall j :: 0 <= j < |db.sigfoxes| ==> db.sigfoxes[j].sigfoxId != sid) ==> owners' == owners)
  {
  }

  // ---------- Who is online ----------

  /** What an event says of Sigfox row r: it is online from a connect that finds it, and offline from a disconnect. */
  function Says(rows: seq<Sigfox>, e: Event, r: nat): Option<bool> {
    match e
    case Connects(sid) => if FindSigfox(rows, sid) == Some(r) then Some(true) else None
    case Disconnects(row) => if row == r then Some(false) else None
    case Updates(_, _, _, _) => None
  }

  /** What the last event on row r says. */
  function LastSaid(rows: seq<Sigfox>, es: seq<Event>, r: nat): Option<bool> {
    if es == [] then None
    else if Says(rows, es[|es| - 1], r).Some? then Says(rows, es[|es| - 1], r)
    else LastSaid(rows, es[..|es| - 1], r)
  }

  /** The same rows but for who is online. */
  ghost predicate SameRows(a: seq<Sigfox>, b: seq<Sigfox>) {
    |a| == |b| && forall k :: 0 <= k < |a| ==> a[k].sigfoxId == b[k].sigfoxId && a[k].name == b[k].name
  }

  lemma {:induction false} SameFound(a: seq<Sigfox>, b: seq<Sigfox>, sid: string)
    requires SameRows(a, b)
    ensures FindSigfox(a, sid) == FindSigfox(b, sid)
  {
    if a != [] {
      SameFound(a[..|a| - 1], b[..|b| - 1], sid);
    }
  }

  /**
   One event sets the row it speaks of and publishes it with its new flag; any other
   event leaves the rows alone and publishes none of them.
   */
  lemma HandleOnline(db: Db, e: Event, r: nat)
    requires r < |db.sigfoxes|
    ensures var db' := Handle(db, e); var said := Says(db.sigfoxes, e, r);
            && SameRows(db'.sigfoxes, db.sigfoxes)
            && db'.sigfoxes[r].online == (if said.Some? then said.value else db.sigfoxes[r].online)
            && (said.Some? ==> db'.published == db.published + [OfSigfox(r, said.value)])
            && ((forall k :: 0 <= k < |db.sigfoxes| ==> Says(db.sigfoxes, e, k) == None) ==>
                  db'.sigfoxes == db.sigfoxes
                  && forall p :: p in db'.published[|db.published|..] ==> p.OfDevice?)
  {
    if e.Connects? && FindSigfox(db.sigfoxes, e.sigfoxId).Some? {
      assert Says(db.sigfoxes, e, FindSigfox(db.sigfoxes, e.sigfoxId).value).Some?;
    } else if e.Disconnects? && e.row < |db.sigfoxes| {
      assert Says(db.sigfoxes, e, e.row).Some?;
    }
  }

  lemma HandleLast(db: Db, es: seq<Event>)
    requires es != []
    ensures HandleAll(db, es) == Handle(HandleAll(db, es[..|es| - 1]), es[|es| - 1])
  {
    var init, e := es[..|es| - 1], es[|es| - 1];
    assert es == init + [e];
    HandleConcat(db, init, [e]);
    assert HandleAll(HandleAll(db, init), [e]) == Handle(HandleAll(db, init), e);
  }

  /** After every run of events a row is online as the last event on it says, or as at the start if there was none. */
  lemma {:induction false} OnlineExactly(db: Db, es: seq<Event>, r: nat)
    requires r < |db.sigfoxes|
    ensures var rows := HandleAll(db, es).sigfoxes; var said := LastSaid(db.sigfoxes, es, r);
            && SameRows(rows, db.sigfoxes)
            && rows[r].online == if said.Some? then said.value else db.sigfoxes[r].online
    decreases |es|
  {
    if es != [] {
      var init, e := es[..|es| - 1], es[|es| - 1];
      OnlineExactly(db, init, r);
      HandleLast(db, es);
      HandleOnline(HandleAll(db, init), e, r);
      if e.Connects? {
        SameFound(HandleAll(db, init).sigfoxes, db.sigfoxes, e.sigfoxId);
      }
    }
  }

  /** What a subscriber makes of a publication about a Sigfox. */
  function SeeSigfox(view: seq<Sigfox>, p: Publication): seq<Sigfox> {
    match p
    case OfSigfox(row, online) => if row < |view| then view[row := view[row].(online := online)] else view
    case OfDevice(_, _, _) => view
  }

  function SeeSigfoxes(view: seq<Sigfox>, ps: seq<Publication>): seq<Sigfox>
    decreases |ps|
  {
    if ps == [] then view else SeeSigfoxes(SeeSigfox(view, ps[0]), ps[1..])
  }

  lemma {:induction false} SigfoxesConcat(view: seq<Sigfox>, a: seq<Publication>, b: seq<Publication>)
    ensures SeeSigfoxes(view, a + b) == SeeSigfoxes(SeeSigfoxes(view, a), b)
    decreases |a|
  {
    if a == [] {
      assert a + b == b;
    } else {
      assert (a + b)[0] == a[0] && (a + b)[1..] == a[1..] + b;
      SigfoxesConcat(SeeSigfox(view, a[0]), a[1..], b);
    }
  }

  lemma HandleSeen(db: Db, e: Event)
    ensures var db' := Handle(db, e);
            db.published <= db'.published
            && SeeSigfoxes(db.sigfoxes, db'.published[|db.published|..]) == db'.sigfoxes
  {
    var db' := Handle(db, e);
    if db'.published == db.published {
      assert db'.published[|db.published|..] == [];
    } else {
      var p := db'.published[|db.published|];
      NewsIs(db.published, p);
      assert db'.published == db.published + [p];
      assert SeeSigfoxes(db.sigfoxes, [p]) == SeeSigfox(db.sigfoxes, p) by {
        assert [p][1..] == [];
      }
    }
  }

  lemma NewsIs(ps: seq<Publication>, p: Publication)
    ensures (ps + [p])[|ps|..] == [p]
  {
  }

  /** A copy of the Sigfox table, with every update published since applied to it, is the table after every run. */
  lemma {:induction false} SigfoxCoherent(db: Db, es: seq<Event>)
    ensures var db' := HandleAll(db, es);
            db.published <= db'.published
            && SeeSigfoxes(db.sigfoxes, db'.published[|db.published|..]) == db'.sigfoxes
    decreases |es|
  {
    if es != [] {
      var d1, db' := Handle(db, es[0]), HandleAll(db, es);
      HandleSeen(db, es[0]);
      SigfoxCoherent(d1, es[1..]);
      Since(db.published, d1.published, db'.published);
      SigfoxesConcat(db.sigfoxes, d1.published[|db.published|..], db'.published[|d1.published|..]);
    }
  }

  lemma Since<T>(a: seq<T>, b: seq<T>, c: seq<T>)
    requires a <= b <= c
    ensures c[|a|..] == b[|a|..] + c[|b|..]
  {
  }

  // ---------- Subscribers ----------

  /** What a subscriber makes of a publication about a device it knows. */
  function See(view: seq<Device>, p: Publication): seq<Device> {
    match p
    case OfDevice(row, state, _) => if row < |view| then view[row := view[row].(state := state)] else view
    case OfSigfox(_, _) => view
  }

  function SeeAll(view: seq<Device>, ps: seq<Publication>): seq<Device> {
    if ps == [] then view else See(SeeAll(view, ps[..|ps| - 1]), ps[|ps| - 1])
  }

  /** The publications since db are exactly the changes to rows it had; view is a copy of its first rows. */
  ghost predicate Follows(db: Db, db': Db, view: seq<Device>) {
    && db.published <= db'.published && |db.devices| <= |db'.devices| && |view| <= |db.devices|
    && SeeAll(view, db'.published[|db.published|..]) == db'.devices[..|view|]
    && (db'.devices[..|db.devices|] == db.devices
        <==> forall p :: p in db'.published[|db.published|..] ==> p.OfSigfox?)
  }

  lemma NothingNew(db: Db, db': Db, view: seq<Device>)
    requires view <= db.devices <= db'.devices && db'.published == db.published
    ensures Follows(db, db', view)
  {
    assert db'.published[|db.published|..] == [];
  }

  lemma OneNew(db: Db, db': Db, view: seq<Device>, p: Publication)
    requires view <= db.devices && |db'.devices| == |db.devices| && db'.published == db.published + [p]
    requires See(view, p) == db'.devices[..|view|] && (db'.devices == db.devices <==> p.OfSigfox?)
    ensures Follows(db, db', view)
  {
    assert db'.published[|db.published|..] == [p];
    SeeOne(view, p);
    assert db'.devices[..|db.devices|] == db'.devices;
  }

  /** A step publishes exactly the changes to rows that existed. */
  lemma HandleCoherent(db: Db, e: Event, view: seq<Device>)
    requires view <= db.devices
    ensures Follows(db, Handle(db, e), view)
  {
    var db' := Handle(db, e);
    if db'.published == db.published {
      NothingNew(db, db', view);
    } else {
      OneNew(db, db', view, db'.published[|db.published|]);
    }
  }

  lemma SeeOne(view: seq<Device>, p: Publication)
    ensures SeeAll(view, [p]) == See(view, p)
  {
    assert [p][..0] == [];
  }

  lemma {:induction false} SeeConcat(view: seq<Device>, a: seq<Publication>, b: seq<Publication>)
    ensures SeeAll(view, a + b) == SeeAll(SeeAll(view, a), b)
    decreases |b|
  {
    if b == [] {
      assert a + b == a;
    } else {
      var n := |b| - 1;
      assert (a + b)[..|a + b| - 1] == a + b[..n];
      SeeConcat(view, a, b[..n]);
    }
  }

  /**
   Subscriber coherence: a copy of the first rows of the table, with every update
   published since applied to it, is those rows after every run.
   */
  lemma {:induction false} Coherent(db: Db, es: seq<Event>, view: seq<Device>)
    requires view <= db.devices
    ensures var db' := HandleAll(db, es);
            && db.published <= db'.published && |db.devices| <= |db'.devices|
            && SeeAll(view, db'.published[|db.published|..]) == db'.devices[..|view|]
    decreases |es|
  {
    if es != [] {
      var d1 := Handle(db, es[0]);
      HandleCoherent(db, es[0], view);
      var view1 := d1.devices[..|view|];
      Coherent(d1, es[1..], view1);
      var db' := HandleAll(db, es);
      assert db'.published[|db.published|..] == d1.published[|db.published|..] + db'.published[|d1.published|..];
      SeeConcat(view, d1.published[|db.published|..], db'.published[|d1.published|..]);
    }
  }
}
