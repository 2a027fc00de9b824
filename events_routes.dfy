/** The `/events` router: the registration workflow for one (user, event) pair
    (no row -> CONFIRMED -> CANCELLED -> CONFIRMED ...), guarded by the event's
    capacity, plus the single-event lookup and event creation. */
module EventRoutes {
  import opened Common
  import opened Http
  import opened Store
  import Middleware

  /** `event` with `_count.registrations`, as `GET /events/:id` answers. */
  datatype EventWithCount = EventWithCount(event: Event, confirmed: nat)

  /** The event exists and still has a seat: the two checks register makes before it
      looks for the caller's own row. */
  predicate HasSeat(events: map<string, Event>, regs: map<string, Registration>, eventId: string)
  {
    eventId in events && ConfirmedCount(regs, eventId) < events[eventId].capacity
  }

  /** A seat left means the count is below the seats the capacity admits. */
  lemma HasSeatBelowSeats(events: map<string, Event>, regs: map<string, Registration>, eventId: string)
    requires HasSeat(events, regs, eventId)
    ensures ConfirmedCount(regs, eventId) + 1 <= Seats(events[eventId].capacity)
  {
  }

  /** Raising one event's count by one while it had a seat, and leaving every other
      count alone, keeps every event within capacity. */
  lemma {:induction false} OneMoreKeepsCapacity(
    events: map<string, Event>, before: map<string, Registration>, after: map<string, Registration>, eventId: string)
    requires WithinCapacity(events, before) && HasSeat(events, before, eventId)
    requires OneMoreConfirmed(before, after, eventId)
    ensures WithinCapacity(events, after)
  {
    forall e | e in events
      ensures ConfirmedCount(after, e) <= Seats(events[e].capacity)
    {
      if e == eventId {
        HasSeatBelowSeats(events, before, eventId);
      }
    }
  }

  /** `POST /events/:id/register` for the authenticated user `userId`, at time `now`. */
  method Register(db: Db, userId: string, eventId: string, now: int) returns (r: Reply<Registration>)
    requires db.Valid()
    modifies db
    ensures db.Valid()
    ensures db.events == old(db.events) && db.users == old(db.users)
    // An unknown event: 404, nothing written.
    ensures eventId !in old(db.events) ==>
              r == Err(EVENT_NOT_FOUND) && db.registrations == old(db.registrations)
    // A full event: 400, nothing written, even for a user who already holds a seat.
    ensures eventId in old(db.events) && !HasSeat(old(db.events), old(db.registrations), eventId) ==>
              r == Err(FULL_CAPACITY) && db.registrations == old(db.registrations)
    // A seat is left and the pair has a row: a CONFIRMED row is a duplicate, a
    // CANCELLED row is flipped back in place and answered 200.
    ensures HasSeat(old(db.events), old(db.registrations), eventId)
            && FindPair(old(db.registrations), userId, eventId).Some? ==>
              var id := FindPair(old(db.registrations), userId, eventId).value;
              if old(db.registrations[id].status) == Confirmed then
                r == Err(ALREADY_REGISTERED) && db.registrations == old(db.registrations)
              else
                r == Ok(old(db.registrations[id]).(status := Confirmed)) && StatusCode(r) == 200
                && db.registrations == WithStatus(old(db.registrations), id, Confirmed)
    // A seat is left and the pair has no row: exactly one new CONFIRMED row, 201.
    ensures HasSeat(old(db.events), old(db.registrations), eventId)
            && FindPair(old(db.registrations), userId, eventId).None? && userId in old(db.users) ==>
              r.Created? && StatusCode(r) == 201
              && r.body == Registration(r.body.id, userId, eventId, Confirmed, now)
              && r.body.id !in old(db.registrations)
              && db.registrations == old(db.registrations)[r.body.id := r.body]
    // The token names a user that is gone: the insert violates the foreign key, 500.
    ensures HasSeat(old(db.events), old(db.registrations), eventId)
            && FindPair(old(db.registrations), userId, eventId).None? && userId !in old(db.users) ==>
              r == Err(INTERNAL_ERROR) && db.registrations == old(db.registrations)
    // Success raises this event's confirmed count by exactly one and no other.
    ensures r.Ok? || r.Created? ==> OneMoreConfirmed(old(db.registrations), db.registrations, eventId)
    ensures !(r.Ok? || r.Created?) ==> db.registrations == old(db.registrations)
    // Sequential registrations never take an event past its capacity.
    ensures WithinCapacity(old(db.events), old(db.registrations)) ==> WithinCapacity(db.events, db.registrations)
  {
    if eventId !in db.events {
      return Err(EVENT_NOT_FOUND);
    }
    if ConfirmedCount(db.registrations, eventId) >= db.events[eventId].capacity {
      return Err(FULL_CAPACITY);
    }
    var existing := FindPair(db.registrations, userId, eventId);
    if existing.Some? {
      if db.registrations[existing.value].status == Confirmed {
        return Err(ALREADY_REGISTERED);
      }
      var updated := Reactivate(db, existing.value);
      r := Ok(updated);
    } else {
      if userId !in db.users {
        return Err(INTERNAL_ERROR);
      }
      var created := Enrol(db, userId, eventId, now);
      r := Created(created);
    }
  }

  /** Exactly one more CONFIRMED registration for `eventId`, and every other event's
      count as it was. */
  ghost predicate OneMoreConfirmed(before: map<string, Registration>, after: map<string, Registration>, eventId: string)
  {
    forall e :: ConfirmedCount(after, e) == ConfirmedCount(before, e) + (if e == eventId then 1 else 0)
  }

  /** Confirming a CANCELLED row adds one CONFIRMED registration to its event only. */
  lemma ReactivationCounts(regs: map<string, Registration>, id: string)
    requires id in regs && regs[id].status == Cancelled
    ensures OneMoreConfirmed(regs, WithStatus(regs, id, Confirmed), regs[id].eventId)
  {
    forall e | true
      ensures ConfirmedCount(WithStatus(regs, id, Confirmed), e)
           == ConfirmedCount(regs, e) + (if e == regs[id].eventId then 1 else 0)
    {
      StatusChangeCount(regs, id, Confirmed, e);
    }
  }

  /** Inserting a CONFIRMED row under a new key adds one to its event only. */
  lemma EnrolmentCounts(regs: map<string, Registration>, r: Registration)
    requires r.id !in regs && r.status == Confirmed
    ensures OneMoreConfirmed(regs, regs[r.id := r], r.eventId)
  {
    forall e | true
      ensures ConfirmedCount(regs[r.id := r], e) == ConfirmedCount(regs, e) + (if e == r.eventId then 1 else 0)
    {
      InsertCount(regs, r, e);
    }
  }

  /** The reactivation branch of register: the pair's CANCELLED row becomes CONFIRMED. */
  method Reactivate(db: Db, id: string) returns (reg: Registration)
    requires db.Valid() && id in db.registrations && db.registrations[id].status == Cancelled
    requires HasSeat(db.events, db.registrations, db.registrations[id].eventId)
    modifies db`registrations
    ensures db.Valid()
    ensures db.events == old(db.events) && db.users == old(db.users)
    ensures reg == old(db.registrations[id]).(status := Confirmed)
    ensures db.registrations == WithStatus(old(db.registrations), id, Confirmed)
    ensures OneMoreConfirmed(old(db.registrations), db.registrations, reg.eventId)
    ensures WithinCapacity(old(db.events), old(db.registrations)) ==> WithinCapacity(db.events, db.registrations)
  {
    ghost var before := db.registrations;
    reg := db.UpdateStatus(id, Confirmed);
    assert OneMoreConfirmed(before, db.registrations, reg.eventId) by {
      ReactivationCounts(before, id);
    }
    assert WithinCapacity(db.events, before) ==> WithinCapacity(db.events, db.registrations) by {
      if WithinCapacity(db.events, before) {
        OneMoreKeepsCapacity(db.events, before, db.registrations, reg.eventId);
      }
    }
  }

  /** The insertion branch of register: a first, CONFIRMED row for the pair. */
  method Enrol(db: Db, userId: string, eventId: string, now: int) returns (reg: Registration)
    requires db.Valid() && userId in db.users && HasSeat(db.events, db.registrations, eventId)
    requires FindPair(db.registrations, userId, eventId).None?
    modifies db
    ensures db.Valid()
    ensures db.events == old(db.events) && db.users == old(db.users)
    ensures reg == Registration(reg.id, userId, eventId, Confirmed, now) && reg.id !in old(db.registrations)
    ensures db.registrations == old(db.registrations)[reg.id := reg]
    ensures OneMoreConfirmed(old(db.registrations), db.registrations, eventId)
    ensures WithinCapacity(old(db.events), old(db.registrations)) ==> WithinCapacity(db.events, db.registrations)
  {
    ghost var before := db.registrations;
    reg := db.CreateRegistration(userId, eventId, now);
    EnrolmentCounts(before, reg);
    if WithinCapacity(db.events, before) {
      OneMoreKeepsCapacity(db.events, before, db.registrations, eventId);
    }
  }

  /** `DELETE /events/:id/register` for the authenticated user `userId`. The row is
      found whatever its status, so cancelling twice succeeds twice. */
  method Cancel(db: Db, userId: string, eventId: string) returns (r: Reply<Registration>)
    requires db.Valid()
    modifies db
    ensures db.Valid()
    ensures db.events == old(db.events) && db.users == old(db.users)
    ensures FindPair(old(db.registrations), userId, eventId).None? ==>
              r == Err(REGISTRATION_NOT_FOUND) && db.registrations == old(db.registrations)
    ensures FindPair(old(db.registrations), userId, eventId).Some? ==>
              var id := FindPair(old(db.registrations), userId, eventId).value;
              r == Ok(old(db.registrations[id]).(status := Cancelled))
              && db.registrations == WithStatus(old(db.registrations), id, Cancelled)
    // No confirmed count rises, so the capacity rule is kept.
    ensures forall e :: ConfirmedCount(db.registrations, e) <= ConfirmedCount(old(db.registrations), e)
    ensures WithinCapacity(old(db.events), old(db.registrations)) ==> WithinCapacity(db.events, db.registrations)
  {
    var existing := FindPair(db.registrations, userId, eventId);
    if existing.None? {
      return Err(REGISTRATION_NOT_FOUND);
    }
    ghost var before := db.registrations;
    var cancelled := db.UpdateStatus(existing.value, Cancelled);
    forall e | true
      ensures ConfirmedCount(db.registrations, e) <= ConfirmedCount(before, e)
    {
      StatusChangeCount(before, existing.value, Cancelled, e);
    }
    r := Ok(cancelled);
  }

  /** `GET /events/:id`: the event with the number of its CONFIRMED registrations. */
  method GetEvent(db: Db, id: string) returns (r: Reply<EventWithCount>)
    ensures id !in db.events ==> r == Err(EVENT_NOT_FOUND)
    ensures id in db.events ==>
              r.Ok? && r.body.event == db.events[id]
              && r.body.confirmed == |set k | k in db.registrations && db.registrations[k].eventId == id
                                                && db.registrations[k].status == Confirmed|
  {
    if id !in db.events {
      return Err(EVENT_NOT_FOUND);
    }
    r := Ok(EventWithCount(db.events[id], ConfirmedCount(db.registrations, id)));
  }

  /** `POST /events` (admin only): a new event with no registrations. */
  method CreateEvent(db: Db, fields: EventFields) returns (r: Reply<Event>)
    requires db.Valid()
    modifies db
    ensures db.Valid()
    ensures db.registrations == old(db.registrations) && db.users == old(db.users)
    ensures r.Created? && r.body == EventOf(r.body.id, fields) && r.body.id !in old(db.events)
    ensures db.events == old(db.events)[r.body.id := r.body]
    ensures ConfirmedCount(db.registrations, r.body.id) == 0
    ensures WithinCapacity(old(db.events), old(db.registrations)) ==> WithinCapacity(db.events, db.registrations)
  {
    var ev := db.CreateEvent(fields);
    assert ConfirmedIds(db.registrations, ev.id) == {};
    r := Created(ev);
  }

  // ---------------------------------------------------------------------------
  // The router

  /** A request to the `/events` router. */
  datatype EventsCall =
    | GetOne(id: string)
    | PostEvent(fields: EventFields)
    | PostRegister(eventId: string)
    | DeleteRegister(eventId: string)

  datatype EventsBody = EventBody(event: Event) | CountedEvent(counted: EventWithCount) | RegistrationBody(registration: Registration)

  /** The middleware a call goes through: none for the lookup, `authenticate` for
      registering and cancelling, `authenticate, requireAdmin` for creation. */
  function Guard(call: EventsCall, authorization: Option<string>, verify: string -> Option<Middleware.Claims>): (g: Option<Middleware.Gate>)
    ensures call.GetOne? <==> g.None?
    ensures call.PostEvent? ==> g == Some(Middleware.AdminGate(authorization, verify))
    ensures call.PostRegister? || call.DeleteRegister? ==> g == Some(Middleware.Authentication(authorization, verify))
  {
    match call
    case GetOne(_) => None
    case PostEvent(_) => Some(Middleware.AdminGate(authorization, verify))
    case _ => Some(Middleware.Authentication(authorization, verify))
  }

  /** What `POST /events/:id/register` answered for `userId`: a success is that
      user's CONFIRMED row for the event, the CANCELLED row reused with only its status
      changed (200) or a new row created at `now` (201), and it is the only row written;
      any error writes nothing. */
  ghost predicate RegisterAnswered(events: map<string, Event>, users: map<string, User>,
                                   before: map<string, Registration>, after: map<string, Registration>,
                                   userId: string, eventId: string, now: int, r: Reply<EventsBody>)
  {
    && PairsUnique(before)
    // Which answer each case gets, in the order the handler checks them.
    && (eventId !in events ==> r == Err(EVENT_NOT_FOUND))
    && (eventId in events && !HasSeat(events, before, eventId) ==> r == Err(FULL_CAPACITY))
    && (HasSeat(events, before, eventId) && FindPair(before, userId, eventId).Some? ==>
          var id := FindPair(before, userId, eventId).value;
          if before[id].status == Confirmed then r == Err(ALREADY_REGISTERED)
          else r == Ok(RegistrationBody(before[id].(status := Confirmed))))
    && (HasSeat(events, before, eventId) && FindPair(before, userId, eventId).None? ==>
          if userId in users then r.Created? else r == Err(INTERNAL_ERROR))
    && (r.Created? ==> r.body.RegistrationBody? && r.body.registration.createdAt == now)
    // What a success is and writes.
    && (r.Ok? || r.Created? ==>
          r.body.RegistrationBody?
          && OfPair(r.body.registration, userId, eventId)
          && r.body.registration.status == Confirmed
          && (r.Ok? <==> r.body.registration.id in before)
          && after == before[r.body.registration.id := r.body.registration]
          && OneMoreConfirmed(before, after, eventId))
    && (!(r.Ok? || r.Created?) ==> r.Err? && after == before)
  }

  /** What `DELETE /events/:id/register` answered for `userId`: 404 without a row,
      otherwise the user's own row, now CANCELLED. */
  ghost predicate CancelAnswered(before: map<string, Registration>, after: map<string, Registration>,
                                 userId: string, eventId: string, r: Reply<EventsBody>)
  {
    && PairsUnique(before)
    && (FindPair(before, userId, eventId).None? ==> r == Err(REGISTRATION_NOT_FOUND) && after == before)
    && (FindPair(before, userId, eventId).Some? ==>
          var id := FindPair(before, userId, eventId).value;
          r == Ok(RegistrationBody(before[id].(status := Cancelled))) && after == WithStatus(before, id, Cancelled))
  }

  /** What `POST /events` answered: 201 with one new event of the given fields. */
  ghost predicate EventCreated(before: map<string, Event>, after: map<string, Event>,
                               fields: EventFields, r: Reply<EventsBody>)
  {
    r.Created? && r.body.EventBody? && r.body.event == EventOf(r.body.event.id, fields)
    && r.body.event.id !in before && after == before[r.body.event.id := r.body.event]
  }

  /** The register handler with the token's user, as the router answers it. */
  method RegisterFor(db: Db, userId: string, eventId: string, now: int) returns (r: Reply<EventsBody>)
    requires db.Valid()
    modifies db
    ensures db.Valid()
    ensures db.events == old(db.events) && db.users == old(db.users)
    ensures RegisterAnswered(old(db.events), old(db.users), old(db.registrations), db.registrations, userId, eventId, now, r)
    ensures WithinCapacity(old(db.events), old(db.registrations)) ==> WithinCapacity(db.events, db.registrations)
  {
    var reg := Register(db, userId, eventId, now);
    r := match reg
         case Ok(b) => Ok(RegistrationBody(b))
         case Created(b) => Created(RegistrationBody(b))
         case NoContent => NoContent
         case Err(e) => Err(e);
  }

  /** The cancel handler with the token's user, as the router answers it. */
  method CancelFor(db: Db, userId: string, eventId: string) returns (r: Reply<EventsBody>)
    requires db.Valid()
    modifies db
    ensures db.Valid()
    ensures db.events == old(db.events) && db.users == old(db.users)
    ensures CancelAnswered(old(db.registrations), db.registrations, userId, eventId, r)
    ensures WithinCapacity(old(db.events), old(db.registrations)) ==> WithinCapacity(db.events, db.registrations)
  {
    var reg := Cancel(db, userId, eventId);
    r := if reg.Ok? then Ok(RegistrationBody(reg.body)) else Err(reg.error);
  }

  /** Serves one call: runs its middleware chain, then its handler with `req.user`.
      A refused call writes nothing; an admitted one acts for the token's own user. */
  method Serve(db: Db, call: EventsCall, authorization: Option<string>, verify: string -> Option<Middleware.Claims>, now: int)
    returns (r: Reply<EventsBody>)
    requires db.Valid()
    modifies db
    ensures db.Valid()
    ensures var g := Guard(call, authorization, verify);
      g.Some? && g.value.Deny? ==> r == Err(g.value.error) && unchanged(db)
    ensures call.PostRegister? || call.DeleteRegister? ==> db.events == old(db.events) && db.users == old(db.users)
    ensures WithinCapacity(old(db.events), old(db.registrations)) ==> WithinCapacity(db.events, db.registrations)
    // GET /events/:id: public and read-only.
    ensures call.GetOne? ==>
              unchanged(db)
              && (call.id !in db.events ==> r == Err(EVENT_NOT_FOUND))
              && (call.id in db.events ==>
                    r == Ok(CountedEvent(EventWithCount(db.events[call.id], ConfirmedCount(db.registrations, call.id)))))
    ensures call.PostEvent? && Middleware.AdminGate(authorization, verify).Pass? ==>
              EventCreated(old(db.events), db.events, call.fields, r)
              && db.registrations == old(db.registrations) && db.users == old(db.users)
    ensures call.PostRegister? && Middleware.Authentication(authorization, verify).Pass? ==>
              RegisterAnswered(old(db.events), old(db.users), old(db.registrations), db.registrations,
                               Middleware.Authentication(authorization, verify).user.id, call.eventId, now, r)
    ensures call.DeleteRegister? && Middleware.Authentication(authorization, verify).Pass? ==>
              CancelAnswered(old(db.registrations), db.registrations,
                             Middleware.Authentication(authorization, verify).user.id, call.eventId, r)
  {
    match call
    case GetOne(id) =>
      var got := GetEvent(db, id);
      r := if got.Ok? then Ok(CountedEvent(got.body)) else Err(got.error);
    case PostEvent(fields) =>
      var gate := Middleware.RunChain(authorization, verify, true);
      if gate.Deny? {
        return Err(gate.error);
      }
      var made := CreateEvent(db, fields);
      r := Created(EventBody(made.body));
    case PostRegister(eventId) =>
      var gate := Middleware.RunChain(authorization, verify, false);
      if gate.Deny? {
        return Err(gate.error);
      }
      r := RegisterFor(db, gate.user.id, eventId, now);
    case DeleteRegister(eventId) =>
      var gate := Middleware.RunChain(authorization, verify, false);
      if gate.Deny? {
        return Err(gate.error);
      }
      r := CancelFor(db, gate.user.id, eventId);
  }
}
