/** The database behind the routes: the Event, Registration and User tables, the
    constraints the schema enforces (primary keys, the unique (userId, eventId) pair,
    the unique email, the foreign keys of a registration), the queries the routes run
    and the writes they make. */
module Store {
  import opened Common

  datatype Status = Confirmed | Cancelled
  datatype Role = UserRole | AdminRole

  /** The enum values as they appear in JSON and in the export. */
  function StatusName(s: Status): (name: string)
    ensures name == "CONFIRMED" <==> s == Confirmed
    ensures name == "CANCELLED" <==> s == Cancelled
  {
    match s
    case Confirmed => "CONFIRMED"
    case Cancelled => "CANCELLED"
  }

  function RoleName(r: Role): (name: string)
    ensures name == "ADMIN" <==> r == AdminRole
    ensures name == "USER" <==> r == UserRole
  {
    match r
    case UserRole => "USER"
    case AdminRole => "ADMIN"
  }

  /** Dates and creation times are instants, compared as integers. */
  datatype Event = Event(id: string, title: string, description: string, date: int, capacity: int, location: string)
  datatype Registration = Registration(id: string, userId: string, eventId: string, status: Status, createdAt: int)
  datatype User = User(id: string, email: string, password: string, role: Role)

  /** The fields of an event that an administrator supplies on create and update. */
  datatype EventFields = EventFields(title: string, description: string, date: int, capacity: int, location: string)

  function EventOf(id: string, f: EventFields): (e: Event)
    ensures e.id == id && e.capacity == f.capacity && e.date == f.date
    ensures e.title == f.title && e.description == f.description && e.location == f.location
  {
    Event(id, f.title, f.description, f.date, f.capacity, f.location)
  }

  // ---------------------------------------------------------------------------
  // Schema constraints

  /** Every row is stored under its own primary key. */
  ghost predicate KeyedById(events: map<string, Event>, regs: map<string, Registration>, users: map<string, User>)
  {
    && (forall k :: k in events ==> events[k].id == k)
    && (forall k :: k in regs ==> regs[k].id == k)
    && (forall k :: k in users ==> users[k].id == k)
  }

  /** `@@unique([userId, eventId])`: at most one registration per (user, event). */
  ghost predicate PairsUnique(regs: map<string, Registration>)
  {
    forall a, b :: a in regs && b in regs && OfPair(regs[b], regs[a].userId, regs[a].eventId) ==> a == b
  }

  /** `email @unique`. */
  ghost predicate EmailsUnique(users: map<string, User>)
  {
    forall a, b :: a in users && b in users && users[a].email == users[b].email ==> a == b
  }

  /** The foreign keys of a registration: its event and its user exist. */
  ghost predicate References(events: map<string, Event>, regs: map<string, Registration>, users: map<string, User>)
  {
    forall k :: k in regs ==> regs[k].eventId in events && regs[k].userId in users
  }

  ghost predicate Consistent(events: map<string, Event>, regs: map<string, Registration>, users: map<string, User>)
  {
    && KeyedById(events, regs, users)
    && PairsUnique(regs)
    && EmailsUnique(users)
    && References(events, regs, users)
  }

  // ---------------------------------------------------------------------------
  // Queries

  /** The registration row of `userId` for `eventId`, whatever its status. */
  predicate OfPair(r: Registration, userId: string, eventId: string)
  {
    r.userId == userId && r.eventId == eventId
  }

  /** `registration.findUnique({ where: { userId_eventId } })`: the key of the one
      row of the pair, or `None` when there is none. */
  function FindPair(regs: map<string, Registration>, userId: string, eventId: string): (found: Option<string>)
    requires PairsUnique(regs)
    ensures found.Some? ==> found.value in regs && OfPair(regs[found.value], userId, eventId)
    ensures found.None? ==> forall k :: k in regs ==> !OfPair(regs[k], userId, eventId)
  {
    if exists k :: k in regs && OfPair(regs[k], userId, eventId) then
      var k :| k in regs && OfPair(regs[k], userId, eventId);
      Some(k)
    else None
  }

  /** The pair lookup finds a row under the row's own user and event: the unique
      constraint leaves no other candidate. */
  lemma FindPairFindsRow(regs: map<string, Registration>, k: string)
    requires PairsUnique(regs) && k in regs
    ensures FindPair(regs, regs[k].userId, regs[k].eventId) == Some(k)
  {
  }

  /** `user.findUnique({ where: { email } })`. */
  function FindByEmail(users: map<string, User>, email: string): (found: Option<string>)
    requires EmailsUnique(users)
    ensures found.Some? ==> found.value in users && users[found.value].email == email
    ensures found.None? ==> forall k :: k in users ==> users[k].email != email
  {
    if exists k :: k in users && users[k].email == email then
      var k :| k in users && users[k].email == email;
      Some(k)
    else None
  }

  /** The keys of the CONFIRMED registrations of an event. */
  function ConfirmedIds(regs: map<string, Registration>, eventId: string): set<string>
  {
    set k | k in regs && regs[k].eventId == eventId && regs[k].status == Confirmed
  }

  /** `_count: { registrations: { where: { status: 'CONFIRMED' } } }`. */
  function ConfirmedCount(regs: map<string, Registration>, eventId: string): nat
  {
    |ConfirmedIds(regs, eventId)|
  }

  /** An event counts zero exactly when none of its registrations is CONFIRMED. */
  lemma ZeroCountIffNoneConfirmed(regs: map<string, Registration>, eventId: string)
    ensures ConfirmedCount(regs, eventId) == 0 <==>
              forall k :: k in regs && regs[k].eventId == eventId ==> regs[k].status != Confirmed
  {
    var ids := ConfirmedIds(regs, eventId);
    if ids != {} {
      var k :| k in ids;
      assert k in regs && regs[k].eventId == eventId && regs[k].status == Confirmed;
    } else {
      assert forall k :: k in regs && regs[k].eventId == eventId && regs[k].status == Confirmed ==> k in ids;
    }
  }

  /** The seats an event's capacity admits: a capacity of zero or below admits none. */
  function Seats(capacity: int): nat
  {
    if capacity > 0 then capacity else 0
  }

  /** The capacity rule: no event has more CONFIRMED registrations than seats. */
  ghost predicate WithinCapacity(events: map<string, Event>, regs: map<string, Registration>)
  {
    forall e :: e in events ==> ConfirmedCount(regs, e) <= Seats(events[e].capacity)
  }

  // ---------------------------------------------------------------------------
  // Writes, as functions of the table

  /** `registration.update({ where: { id }, data: { status } })`. */
  function WithStatus(regs: map<string, Registration>, id: string, s: Status): (r: map<string, Registration>)
    requires id in regs
    ensures r.Keys == regs.Keys && r[id] == regs[id].(status := s)
    ensures forall k :: k in regs && k != id ==> r[k] == regs[k]
  {
    regs[id := regs[id].(status := s)]
  }

  /** `registration.deleteMany({ where: { eventId } })`. */
  function WithoutEvent(regs: map<string, Registration>, eventId: string): (r: map<string, Registration>)
    ensures forall k :: k in r ==> r[k].eventId != eventId
    ensures forall k :: k in regs && regs[k].eventId != eventId ==> k in r && r[k] == regs[k]
    ensures forall k :: k in r ==> k in regs && r[k] == regs[k]
  {
    map k | k in regs && regs[k].eventId != eventId :: regs[k]
  }

  // ---------------------------------------------------------------------------
  // How the writes move the confirmed counts

  /** Changing one row's status moves only its own event's count: by one up when a
      CANCELLED row becomes CONFIRMED, by one down when a CONFIRMED row is cancelled. */
  lemma {:induction false} StatusChangeCount(regs: map<string, Registration>, id: string, s: Status, eventId: string)
    requires id in regs
    ensures ConfirmedCount(WithStatus(regs, id, s), eventId)
         == ConfirmedCount(regs, eventId)
            - (if regs[id].eventId == eventId && regs[id].status == Confirmed then 1 else 0)
            + (if regs[id].eventId == eventId && s == Confirmed then 1 else 0)
  {
    var before := ConfirmedIds(regs, eventId);
    var after := ConfirmedIds(WithStatus(regs, id, s), eventId);
    var others := before - {id};
    assert after - {id} == others;
    if regs[id].eventId == eventId && s == Confirmed {
      assert after == others + {id};
    } else {
      assert after == others;
    }
    if regs[id].eventId == eventId && regs[id].status == Confirmed {
      assert before == others + {id};
    } else {
      assert before == others;
    }
  }

  /** Adding a row with a new key raises its event's count by one if it is CONFIRMED
      and leaves every other count alone. */
  lemma {:induction false} InsertCount(regs: map<string, Registration>, r: Registration, eventId: string)
    requires r.id !in regs
    ensures ConfirmedCount(regs[r.id := r], eventId)
         == ConfirmedCount(regs, eventId) + (if r.eventId == eventId && r.status == Confirmed then 1 else 0)
  {
    var before := ConfirmedIds(regs, eventId);
    var after := ConfirmedIds(regs[r.id := r], eventId);
    if r.eventId == eventId && r.status == Confirmed {
      assert after == before + {r.id};
    } else {
      assert after == before;
    }
  }

  /** After the cascade an event has no confirmed registrations left, and every
      other event keeps its count. */
  lemma {:induction false} CascadeCount(regs: map<string, Registration>, gone: string, eventId: string)
    ensures ConfirmedCount(WithoutEvent(regs, gone), eventId)
         == if eventId == gone then 0 else ConfirmedCount(regs, eventId)
  {
    if eventId == gone {
      assert ConfirmedIds(WithoutEvent(regs, gone), eventId) == {};
    } else {
      assert ConfirmedIds(WithoutEvent(regs, gone), eventId) == ConfirmedIds(regs, eventId);
    }
  }

  /** A status change does not move a row to another pair, so the pair lookup still
      finds the same row: cancelling and re-registering reuse one registration. */
  lemma {:induction false} FindPairIgnoresStatus(regs: map<string, Registration>, id: string, s: Status, userId: string, eventId: string)
    requires id in regs && PairsUnique(regs)
    ensures PairsUnique(WithStatus(regs, id, s))
    ensures FindPair(WithStatus(regs, id, s), userId, eventId) == FindPair(regs, userId, eventId)
  {
    var after := WithStatus(regs, id, s);
    assert forall k :: k in regs ==> (OfPair(after[k], userId, eventId) <==> OfPair(regs[k], userId, eventId));
  }

  /** Cancelling a row twice is the same as cancelling it once. */
  lemma CancelIdempotent(regs: map<string, Registration>, id: string)
    requires id in regs
    ensures WithStatus(WithStatus(regs, id, Cancelled), id, Cancelled) == WithStatus(regs, id, Cancelled)
  {
  }

  /** Without the cascade, removing an event that still has registrations would leave
      rows pointing at nothing: the schema's foreign key refuses that, which is why the
      registrations must go first. */
  lemma DeleteNeedsCascade(events: map<string, Event>, regs: map<string, Registration>, users: map<string, User>, id: string)
    requires exists k :: k in regs && regs[k].eventId == id
    ensures !References(events - {id}, regs, users)
    ensures References(events, regs, users) ==> References(events - {id}, WithoutEvent(regs, id), users)
  {
    var k :| k in regs && regs[k].eventId == id;
    assert regs[k].eventId !in events - {id};
  }

  /** The mint of primary keys: each new key is one longer than the longest so far. */
  function MintedKey(issued: nat): (k: string)
    ensures |k| == issued + 1
  {
    seq(issued + 1, _ => 'c')
  }

  // ---------------------------------------------------------------------------
  // The store

  /** The Prisma client's tables, updated in place by the route handlers. */
  class Db {
    var events: map<string, Event>
    var registrations: map<string, Registration>
    var users: map<string, User>
    /** How many keys have been minted; every key in use is at most this long. */
    var issued: nat

    ghost predicate Valid()
      reads this
    {
      && Consistent(events, registrations, users)
      && (forall k :: k in events ==> |k| <= issued)
      && (forall k :: k in registrations ==> |k| <= issued)
      && (forall k :: k in users ==> |k| <= issued)
    }

    constructor ()
      ensures Valid()
      ensures events == map[] && registrations == map[] && users == map[]
    {
      events, registrations, users := map[], map[], map[];
      issued := 0;
    }

    /** A primary key no table uses yet (the schema's generated id). */
    method NewKey() returns (k: string)
      requires Valid()
      modifies this`issued
      ensures Valid()
      ensures k !in events && k !in registrations && k !in users
      ensures |k| == issued
    {
      k := MintedKey(issued);
      issued := issued + 1;
    }

    /** `registration.create({ data: { userId, eventId, status: 'CONFIRMED' } })`,
        with `createdAt` defaulted to the current time `now`. The schema rejects a
        second row for the pair and a user or event that does not exist. */
    method CreateRegistration(userId: string, eventId: string, now: int) returns (reg: Registration)
      requires Valid()
      requires eventId in events && userId in users
      requires FindPair(registrations, userId, eventId).None?
      modifies this`registrations, this`issued
      ensures Valid()
      ensures reg == Registration(reg.id, userId, eventId, Confirmed, now)
      ensures reg.id !in old(registrations)
      ensures registrations == old(registrations)[reg.id := reg]
    {
      var k := NewKey();
      reg := Registration(k, userId, eventId, Confirmed, now);
      registrations := registrations[k := reg];
    }

    /** `registration.update({ where: { id }, data: { status } })`. */
    method UpdateStatus(id: string, s: Status) returns (reg: Registration)
      requires Valid() && id in registrations
      modifies this`registrations
      ensures Valid()
      ensures reg == old(registrations)[id].(status := s)
      ensures registrations == WithStatus(old(registrations), id, s)
    {
      reg := registrations[id].(status := s);
      registrations := registrations[id := reg];
    }

    /** `registration.deleteMany({ where: { eventId } })`. */
    method DeleteRegistrationsOf(eventId: string)
      requires Valid()
      modifies this`registrations
      ensures Valid()
      ensures registrations == WithoutEvent(old(registrations), eventId)
    {
      registrations := WithoutEvent(registrations, eventId);
    }

    /** `event.create({ data })`. */
    method CreateEvent(fields: EventFields) returns (ev: Event)
      requires Valid()
      modifies this`events, this`issued
      ensures Valid()
      ensures ev == EventOf(ev.id, fields) && ev.id !in old(events)
      ensures ev.id !in old(registrations) && forall k :: k in registrations ==> registrations[k].eventId != ev.id
      ensures events == old(events)[ev.id := ev]
    {
      var k := NewKey();
      ev := EventOf(k, fields);
      events := events[k := ev];
    }

    /** `event.update({ where: { id }, data })` on an existing event. */
    method UpdateEvent(id: string, fields: EventFields) returns (ev: Event)
      requires Valid() && id in events
      modifies this`events
      ensures Valid()
      ensures ev == EventOf(id, fields)
      ensures events == old(events)[id := ev]
    {
      ev := EventOf(id, fields);
      events := events[id := ev];
    }

    /** `event.delete({ where: { id } })`; the schema refuses it while registrations
        still point at the event. */
    method DeleteEvent(id: string)
      requires Valid() && id in events
      requires forall k :: k in registrations ==> registrations[k].eventId != id
      modifies this`events
      ensures Valid()
      ensures events == old(events) - {id}
    {
      events := events - {id};
    }

    /** `user.create({ data: { email, password, role } })`; the schema refuses an
        email already in use. */
    method CreateUser(email: string, password: string, role: Role) returns (user: User)
      requires Valid() && FindByEmail(users, email).None?
      modifies this`users, this`issued
      ensures Valid()
      ensures user == User(user.id, email, password, role) && user.id !in old(users)
      ensures users == old(users)[user.id := user]
    {
      var k := NewKey();
      user := User(k, email, password, role);
      users := users[k := user];
    }
  }
}
