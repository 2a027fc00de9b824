/** The `/admin` router: every route sits behind `authenticate, requireAdmin`.
    It lists registrations newest first, exports them as spreadsheet rows ordered
    by event date and then newest first, updates events in place, and deletes an
    event after its registrations. */
module AdminRoutes {
  import opened Common
  import opened Strings
  import opened Http
  import opened Store
  import Middleware

  // ---------------------------------------------------------------------------
  // Registrations joined with their user and event

  /** The `user` and `event` a listing or export includes with each registration. */
  datatype UserRef = UserRef(id: string, email: string)
  datatype EventRef = EventRef(id: string, title: string, date: int, location: string)
  datatype Joined = Joined(registration: Registration, user: UserRef, event: EventRef)

  /** A registration with its user and event; the foreign keys guarantee both exist. */
  function JoinOf(events: map<string, Event>, users: map<string, User>, reg: Registration): (j: Joined)
    requires reg.eventId in events && reg.userId in users
    ensures j.registration == reg
    ensures j.user.id == users[reg.userId].id && j.user.email == users[reg.userId].email
    ensures var e := events[reg.eventId];
      j.event.id == e.id && j.event.title == e.title && j.event.date == e.date && j.event.location == e.location
  {
    var u := users[reg.userId];
    var e := events[reg.eventId];
    Joined(reg, UserRef(u.id, u.email), EventRef(e.id, e.title, e.date, e.location))
  }

  /** `where: eventId ? { eventId } : {}`: an absent or empty query parameter selects
      every registration. */
  predicate Selects(eventId: Option<string>, reg: Registration)
    ensures eventId.None? || eventId == Some("") ==> Selects(eventId, reg)
    ensures Selects(eventId, reg) && eventId.Some? && eventId.value != "" ==> reg.eventId == eventId.value
  {
    !Truthy(eventId) || reg.eventId == eventId.value
  }

  /** The rows a query returns before ordering: one joined row per selected registration. */
  ghost function Selection(db: Db, eventId: Option<string>): set<Joined>
    reads db
    requires db.Valid()
  {
    set k | k in db.registrations && Selects(eventId, db.registrations[k])
      :: JoinOf(db.events, db.users, db.registrations[k])
  }

  // ---------------------------------------------------------------------------
  // orderBy

  /** The two orderings the routes ask for. */
  datatype Order =
    | NewestFirst                  // orderBy: { createdAt: 'desc' }
    | ByEventDateThenNewest        // orderBy: [{ event: { date: 'asc' } }, { createdAt: 'desc' }]

  /** `a` may come before `b` in the ordering `o`. */
  predicate Precedes(o: Order, a: Joined, b: Joined)
  {
    match o
    case NewestFirst =>
      a.registration.createdAt >= b.registration.createdAt
    case ByEventDateThenNewest =>
      a.event.date < b.event.date
      || (a.event.date == b.event.date && a.registration.createdAt >= b.registration.createdAt)
  }

  /** Both orderings are total preorders: any two rows can be compared, and
      comparison chains. Two rows may come in either order only when every sort
      key ties. */
  lemma PrecedesTotalPreorder(o: Order, a: Joined, b: Joined, c: Joined)
    ensures Precedes(o, a, b) || Precedes(o, b, a)
    ensures Precedes(o, a, b) && Precedes(o, b, c) ==> Precedes(o, a, c)
    ensures Precedes(o, a, b) && Precedes(o, b, a) ==>
              a.registration.createdAt == b.registration.createdAt
              && (o == ByEventDateThenNewest ==> a.event.date == b.event.date)
  {
  }

  predicate Sorted(o: Order, rows: seq<Joined>)
  {
    forall i, j :: 0 <= i < j < |rows| ==> Precedes(o, rows[i], rows[j])
  }

  /** If `h` may precede `x` and every element of `rest`, it may precede every row
      of any arrangement of `rest` and `x`. */
  lemma HeadPrecedesAll(o: Order, h: Joined, x: Joined, rest: seq<Joined>, t: seq<Joined>)
    requires forall j :: 0 <= j < |rest| ==> Precedes(o, h, rest[j])
    requires Precedes(o, h, x)
    requires multiset(t) == multiset(rest) + multiset{x}
    ensures forall j :: 0 <= j < |t| ==> Precedes(o, h, t[j])
  {
    forall j | 0 <= j < |t|
      ensures Precedes(o, h, t[j])
    {
      assert t[j] in multiset(t);
      if t[j] != x {
        assert t[j] in multiset(rest);
        var m :| 0 <= m < |rest| && rest[m] == t[j];
      }
    }
  }

  /** Puts `x` into a sorted sequence at its place. */
  function Insert(o: Order, x: Joined, rows: seq<Joined>): (r: seq<Joined>)
    requires Sorted(o, rows)
    ensures Sorted(o, r)
    ensures multiset(r) == multiset(rows) + multiset{x}
    decreases |rows|
  {
    if rows == [] then [x]
    else if Precedes(o, x, rows[0]) then
      PrecedesTotalPreorder(o, x, rows[0], x);
      assert forall j :: 0 < j < |rows| ==> Precedes(o, rows[0], rows[j]);
      [x] + rows
    else
      var tail := Insert(o, x, rows[1..]);
      assert rows == [rows[0]] + rows[1..];
      PrecedesTotalPreorder(o, x, rows[0], x);
      HeadPrecedesAll(o, rows[0], x, rows[1..], tail);
      [rows[0]] + tail
  }

  /** The ordering the store applies: the same rows, sorted. */
  function Sort(o: Order, rows: seq<Joined>): (r: seq<Joined>)
    ensures Sorted(o, r)
    ensures multiset(r) == multiset(rows)
    decreases |rows|
  {
    if rows == [] then []
    else
      assert rows == [rows[0]] + rows[1..];
      Insert(o, rows[0], Sort(o, rows[1..]))
  }

  /** `findMany` with an ordering: every row of the selection exactly once, sorted. */
  method FindMany(rowSet: set<Joined>, o: Order) returns (rows: seq<Joined>)
    ensures Sorted(o, rows)
    ensures multiset(rows) == multiset(rowSet)
  {
    var todo := rowSet;
    var acc: seq<Joined> := [];
    while todo != {}
      invariant todo <= rowSet
      invariant multiset(acc) + multiset(todo) == multiset(rowSet)
      decreases |todo|
    {
      var x :| x in todo;
      acc := acc + [x];
      todo := todo - {x};
    }
    rows := Sort(o, acc);
  }

  // ---------------------------------------------------------------------------
  // GET /admin/registrations

  /** `GET /admin/registrations[?eventId=]`: every registration of the event (of all
      events when the parameter is absent or empty), each once, newest first. */
  method ListRegistrations(db: Db, eventId: Option<string>) returns (rows: seq<Joined>)
    requires db.Valid()
    ensures Sorted(NewestFirst, rows)
    ensures multiset(rows) == multiset(Selection(db, eventId))
    ensures forall i :: 0 <= i < |rows| ==>
              rows[i].registration.id in db.registrations
              && rows[i].registration == db.registrations[rows[i].registration.id]
              && (Truthy(eventId) ==> rows[i].registration.eventId == eventId.value)
  {
    var rowSet := set k | k in db.registrations && Selects(eventId, db.registrations[k])
                    :: JoinOf(db.events, db.users, db.registrations[k]);
    rows := FindMany(rowSet, NewestFirst);
    forall i | 0 <= i < |rows|
      ensures rows[i].registration.id in db.registrations
              && rows[i].registration == db.registrations[rows[i].registration.id]
              && (Truthy(eventId) ==> rows[i].registration.eventId == eventId.value)
    {
      assert rows[i] in multiset(rows);
    }
  }

  /** Each registration appears in the listing exactly when the filter selects it. */
  lemma ListingCoversSelection(db: Db, eventId: Option<string>, k: string)
    requires db.Valid() && k in db.registrations
    ensures JoinOf(db.events, db.users, db.registrations[k]) in Selection(db, eventId)
        <==> Selects(eventId, db.registrations[k])
  {
    var reg := db.registrations[k];
    if JoinOf(db.events, db.users, reg) in Selection(db, eventId) {
      var k' :| k' in db.registrations && Selects(eventId, db.registrations[k'])
                && JoinOf(db.events, db.users, db.registrations[k']) == JoinOf(db.events, db.users, reg);
      assert db.registrations[k'] == reg;
    }
  }

  // ---------------------------------------------------------------------------
  // GET /admin/export

  /** One worksheet row. */
  datatype SheetRow = SheetRow(
    eventTitle: string, eventDate: string, eventLocation: string,
    userEmail: string, status: string, registrationDate: string)

  /** `date.toISOString().split('T')[0]`, with `toIso` standing for `toISOString`:
      the ISO string up to its first 'T', a prefix without 'T' that ends where the
      string ends or where a 'T' stands. */
  function DatePart(toIso: int -> string, instant: int): (d: string)
    ensures var iso := toIso(instant);
      d <= iso && 'T' !in d && (|d| == |iso| || iso[|d|] == 'T')
  {
    FirstFieldIsLongestPrefix(toIso(instant), 'T');
    Split(toIso(instant), 'T')[0]
  }

  /** The worksheet row of one joined registration: it copies the title, location,
      email and status unchanged, and each of its dates is the part of the ISO
      string before the first 'T'. */
  function SheetRowOf(j: Joined, toIso: int -> string): (row: SheetRow)
    ensures row.eventTitle == j.event.title && row.eventLocation == j.event.location
    ensures row.userEmail == j.user.email && row.status == StatusName(j.registration.status)
    ensures var iso := toIso(j.event.date);
      row.eventDate <= iso && 'T' !in row.eventDate
      && (|row.eventDate| == |iso| || iso[|row.eventDate|] == 'T')
    ensures var iso := toIso(j.registration.createdAt);
      row.registrationDate <= iso && 'T' !in row.registrationDate
      && (|row.registrationDate| == |iso| || iso[|row.registrationDate|] == 'T')
  {
    SheetRow(j.event.title, DatePart(toIso, j.event.date), j.event.location,
             j.user.email, StatusName(j.registration.status), DatePart(toIso, j.registration.createdAt))
  }

  /** `GET /admin/export`: every registration once, ordered by event date and then
      newest first, and the worksheet built row by row in that order. */
  method Export(db: Db, toIso: int -> string) returns (ordered: seq<Joined>, sheet: seq<SheetRow>)
    requires db.Valid()
    ensures Sorted(ByEventDateThenNewest, ordered)
    ensures multiset(ordered) == multiset(Selection(db, None))
    ensures |sheet| == |ordered|
    ensures forall i :: 0 <= i < |sheet| ==> sheet[i] == SheetRowOf(ordered[i], toIso)
  {
    var rowSet := set k | k in db.registrations :: JoinOf(db.events, db.users, db.registrations[k]);
    SelectionWithoutFilter(db);
    ordered := FindMany(rowSet, ByEventDateThenNewest);
    sheet := Worksheet(ordered, toIso);
  }

  /** Without a filter the selection is every registration, joined. */
  lemma SelectionWithoutFilter(db: Db)
    requires db.Valid()
    ensures Selection(db, None)
         == set k | k in db.registrations :: JoinOf(db.events, db.users, db.registrations[k])
  {
  }

  /** `registrations.forEach(r => worksheet.addRow(...))`: one row per registration,
      in the order given. */
  method Worksheet(ordered: seq<Joined>, toIso: int -> string) returns (sheet: seq<SheetRow>)
    ensures |sheet| == |ordered|
    ensures forall i :: 0 <= i < |sheet| ==> sheet[i] == SheetRowOf(ordered[i], toIso)
  {
    sheet := [];
    for i := 0 to |ordered|
      invariant |sheet| == i
      invariant forall m :: 0 <= m < i ==> sheet[m] == SheetRowOf(ordered[m], toIso)
    {
      sheet := sheet + [SheetRowOf(ordered[i], toIso)];
    }
  }

  // ---------------------------------------------------------------------------
  // PUT /admin/events/:id and DELETE /admin/events/:id

  /** Replacing an event keeps the capacity rule exactly when its confirmed count
      still fits the new capacity: the route itself does not check this. */
  lemma {:induction false} ReplaceKeepsCapacityIff(
    events: map<string, Event>, regs: map<string, Registration>, id: string, ev: Event)
    requires WithinCapacity(events, regs) && id in events
    ensures WithinCapacity(events[id := ev], regs) <==> ConfirmedCount(regs, id) <= Seats(ev.capacity)
  {
    if ConfirmedCount(regs, id) <= Seats(ev.capacity) {
      forall e | e in events[id := ev]
        ensures ConfirmedCount(regs, e) <= Seats(events[id := ev][e].capacity)
      {
      }
    }
  }

  /** `PUT /admin/events/:id`: replaces the five fields of that event only; an
      unknown id makes the store throw (500). */
  method UpdateEvent(db: Db, id: string, fields: EventFields) returns (r: Reply<Event>)
    requires db.Valid()
    modifies db
    ensures db.Valid()
    ensures db.registrations == old(db.registrations) && db.users == old(db.users)
    ensures id !in old(db.events) ==> r == Err(INTERNAL_ERROR) && db.events == old(db.events)
    ensures id in old(db.events) ==>
              r == Ok(EventOf(id, fields)) && db.events == old(db.events)[id := EventOf(id, fields)]
  {
    if id !in db.events {
      return Err(INTERNAL_ERROR);
    }
    var ev := db.UpdateEvent(id, fields);
    r := Ok(ev);
  }

  /** `DELETE /admin/events/:id`: first every registration of the event, then the
      event. Afterwards no registration refers to it and every other registration is
      untouched. An unknown id has no registrations, and the event delete throws (500). */
  method DeleteEvent(db: Db, id: string) returns (r: Reply<Event>)
    requires db.Valid()
    modifies db
    ensures db.Valid()
    ensures db.users == old(db.users)
    ensures db.registrations == WithoutEvent(old(db.registrations), id)
    ensures forall k :: k in db.registrations ==> db.registrations[k].eventId != id
    ensures id in old(db.events) ==> r == NoContent && db.events == old(db.events) - {id}
    ensures id !in old(db.events) ==>
              r == Err(INTERNAL_ERROR) && db.events == old(db.events) && db.registrations == old(db.registrations)
    ensures forall e :: e != id ==> ConfirmedCount(db.registrations, e) == ConfirmedCount(old(db.registrations), e)
    ensures WithinCapacity(old(db.events), old(db.registrations)) ==> WithinCapacity(db.events, db.registrations)
  {
    ghost var before := db.registrations;
    db.DeleteRegistrationsOf(id);
    forall e | true
      ensures ConfirmedCount(db.registrations, e) == if e == id then 0 else ConfirmedCount(before, e)
    {
      CascadeCount(before, id, e);
    }
    if id !in db.events {
      assert db.registrations == before;
      return Err(INTERNAL_ERROR);
    }
    db.DeleteEvent(id);
    r := NoContent;
  }

  // ---------------------------------------------------------------------------
  // The router

  /** A request to the `/admin` router. */
  datatype AdminCall =
    | GetRegistrations(eventId: Option<string>)
    | GetExport
    | PutEvent(id: string, fields: EventFields)
    | DeleteEventCall(id: string)

  datatype AdminBody = Listing(rows: seq<Joined>) | Sheet(sheetRows: seq<SheetRow>) | EventBody(event: Event)

  /** `sheet` is the export of the store: the worksheet rows of every registration,
      in event-date order and then newest first. */
  ghost predicate ExportOf(db: Db, toIso: int -> string, sheet: seq<SheetRow>)
    reads db
    requires db.Valid()
  {
    exists ordered: seq<Joined> ::
      && Sorted(ByEventDateThenNewest, ordered)
      && multiset(ordered) == multiset(Selection(db, None))
      && |sheet| == |ordered|
      && (forall i :: 0 <= i < |sheet| ==> sheet[i] == SheetRowOf(ordered[i], toIso))
  }

  /** Serves one call behind `router.use(authenticate, requireAdmin)`: no handler runs
      and nothing is written unless the caller is an authenticated ADMIN. */
  method Serve(db: Db, call: AdminCall, authorization: Option<string>,
               verify: string -> Option<Middleware.Claims>, toIso: int -> string)
    returns (r: Reply<AdminBody>)
    requires db.Valid()
    modifies db
    ensures db.Valid()
    ensures Middleware.AdminGate(authorization, verify).Deny? ==>
              r == Err(Middleware.AdminGate(authorization, verify).error) && unchanged(db)
    ensures call.GetRegistrations? || call.GetExport? ==> unchanged(db)
    // Behind the gate each handler runs as on its own.
    ensures Middleware.AdminGate(authorization, verify).Pass? ==>
      match call
      case GetRegistrations(eventId) =>
        r.Ok? && r.body.Listing? && Sorted(NewestFirst, r.body.rows)
        && multiset(r.body.rows) == multiset(Selection(db, eventId))
      case GetExport =>
        r.Ok? && r.body.Sheet? && ExportOf(db, toIso, r.body.sheetRows)
      case PutEvent(id, fields) =>
        db.registrations == old(db.registrations) && db.users == old(db.users)
        && (id in old(db.events) ==>
              r == Ok(EventBody(EventOf(id, fields))) && db.events == old(db.events)[id := EventOf(id, fields)])
        && (id !in old(db.events) ==> r == Err(INTERNAL_ERROR) && db.events == old(db.events))
      case DeleteEventCall(id) =>
        db.users == old(db.users) && db.registrations == WithoutEvent(old(db.registrations), id)
        && (id in old(db.events) ==> r == NoContent && db.events == old(db.events) - {id})
        && (id !in old(db.events) ==>
              r == Err(INTERNAL_ERROR) && db.events == old(db.events) && db.registrations == old(db.registrations))
  {
    var gate := Middleware.RunChain(authorization, verify, true);
    if gate.Deny? {
      return Err(gate.error);
    }
    match call
    case GetRegistrations(eventId) =>
      var rows := ListRegistrations(db, eventId);
      r := Ok(Listing(rows));
    case GetExport =>
      var ordered, sheet := Export(db, toIso);
      assert ExportOf(db, toIso, sheet) by {
        assert Sorted(ByEventDateThenNewest, ordered);
      }
      r := Ok(Sheet(sheet));
    case PutEvent(id, fields) =>
      var updated := UpdateEvent(db, id, fields);
      r := if updated.Ok? then Ok(EventBody(updated.body)) else Err(updated.error);
    case DeleteEventCall(id) =>
      var deleted := DeleteEvent(db, id);
      r := if deleted.NoContent? then NoContent else Err(deleted.error);
  }
}
