/** Clients of the routes: what their contracts alone determine about a run of
    requests made one after another. Each run is split into phases; a phase states
    the table it starts from and hands the table it leaves to the next phase. */
module Scenarios {
  import opened Http
  import opened Store
  import opened EventRoutes

  /** Changing the status of the only row of a table. */
  lemma StatusOfOnlyRow(k: string, r: Registration, s: Status)
    ensures WithStatus(map[k := r], k, s) == map[k := r.(status := s)]
  {
  }

  /** A table whose only row belongs to another user has no row for `userId`. */
  lemma OnlyRowIsOthers(k: string, r: Registration, userId: string, eventId: string)
    requires r.userId != userId
    ensures PairsUnique(map[k := r]) && FindPair(map[k := r], userId, eventId).None?
  {
  }

  /** A table whose only row is CANCELLED has no confirmed registrations. */
  lemma OnlyRowCancelled(k: string, r: Registration, eventId: string)
    requires r.status == Cancelled
    ensures ConfirmedCount(map[k := r], eventId) == 0
  {
    assert ConfirmedIds(map[k := r], eventId) == {};
  }

  /** An event with one seat. A registers (201); B is refused for capacity; A cancels,
      which frees the seat; B registers (201); A is now refused for capacity, and so
      is B, because capacity is checked before the duplicate check. */
  method OneSeat()
  {
    var db := new Db();
    var a := db.CreateUser("a@example.com", "hash-a", UserRole);
    var b := db.CreateUser("b@example.com", "hash-b", UserRole);
    var made := CreateEvent(db, EventFields("Workshop", "Hands-on", 100, 1, "Online"));
    OneSeatFirstComeFirstServed(db, a.id, b.id, made.body.id);
  }

  method OneSeatFirstComeFirstServed(db: Db, a: string, b: string, e: string)
    requires db.Valid() && a in db.users && b in db.users && a != b
    requires e in db.events && db.events[e].capacity == 1 && db.registrations == map[]
    modifies db
  {
    var r1 := Register(db, a, e, 1);
    assert r1.Created? && r1.body == Registration(r1.body.id, a, e, Confirmed, 1);
    assert db.registrations == map[r1.body.id := r1.body];

    var r2 := Register(db, b, e, 2);
    assert r2 == Err(FULL_CAPACITY);
    OneSeatCancelFreesSeat(db, a, b, e, r1.body);
  }

  method OneSeatCancelFreesSeat(db: Db, a: string, b: string, e: string, rowA: Registration)
    requires db.Valid() && a in db.users && b in db.users && a != b
    requires e in db.events && db.events[e].capacity == 1
    requires rowA == Registration(rowA.id, a, e, Confirmed, rowA.createdAt)
    requires db.registrations == map[rowA.id := rowA]
    modifies db
  {
    FindPairFindsRow(db.registrations, rowA.id);
    StatusOfOnlyRow(rowA.id, rowA, Cancelled);
    var c := Cancel(db, a, e);
    assert c == Ok(rowA.(status := Cancelled));
    assert db.registrations == map[rowA.id := rowA.(status := Cancelled)];
    OneSeatSecondUser(db, a, b, e, rowA.(status := Cancelled));
  }

  method OneSeatSecondUser(db: Db, a: string, b: string, e: string, rowA: Registration)
    requires db.Valid() && a in db.users && b in db.users && a != b
    requires e in db.events && db.events[e].capacity == 1
    requires rowA == Registration(rowA.id, a, e, Cancelled, rowA.createdAt)
    requires db.registrations == map[rowA.id := rowA]
    modifies db
  {
    OnlyRowCancelled(rowA.id, rowA, e);
    OnlyRowIsOthers(rowA.id, rowA, b, e);
    var r3 := Register(db, b, e, 3);
    assert r3.Created? && r3.body.userId == b && r3.body.id != rowA.id;
    assert ConfirmedCount(db.registrations, e) == 1;

    var r4 := Register(db, a, e, 4);
    assert r4 == Err(FULL_CAPACITY);
    var r5 := Register(db, b, e, 5);
    assert r5 == Err(FULL_CAPACITY);
  }

  /** Register, cancel twice, register again: the second registration reuses the
      first row (200, same id, CONFIRMED), and registering once more is a duplicate. */
  method ReuseRow()
  {
    var db := new Db();
    var a := db.CreateUser("a@example.com", "hash-a", UserRole);
    var made := CreateEvent(db, EventFields("Meetup", "Networking", 200, 2, "Hotel"));
    ReuseRowCancelTwice(db, a.id, made.body.id);
  }

  method ReuseRowCancelTwice(db: Db, a: string, e: string)
    requires db.Valid() && a in db.users
    requires e in db.events && db.events[e].capacity == 2 && db.registrations == map[]
    modifies db
  {
    var r1 := Register(db, a, e, 1);
    assert r1.Created? && r1.body == Registration(r1.body.id, a, e, Confirmed, 1);
    var rowA := r1.body;
    assert db.registrations == map[rowA.id := rowA];

    FindPairFindsRow(db.registrations, rowA.id);
    StatusOfOnlyRow(rowA.id, rowA, Cancelled);
    var c := Cancel(db, a, e);
    assert c == Ok(rowA.(status := Cancelled));
    assert db.registrations == map[rowA.id := rowA.(status := Cancelled)];

    FindPairFindsRow(db.registrations, rowA.id);
    StatusOfOnlyRow(rowA.id, rowA.(status := Cancelled), Cancelled);
    var c2 := Cancel(db, a, e);
    assert c2 == Ok(rowA.(status := Cancelled));
    assert db.registrations == map[rowA.id := rowA.(status := Cancelled)];
    ReuseRowRegisterAgain(db, a, e, rowA);
  }

  method ReuseRowRegisterAgain(db: Db, a: string, e: string, rowA: Registration)
    requires db.Valid() && a in db.users
    requires e in db.events && db.events[e].capacity == 2
    requires rowA == Registration(rowA.id, a, e, Confirmed, rowA.createdAt)
    requires db.registrations == map[rowA.id := rowA.(status := Cancelled)]
    modifies db
  {
    OnlyRowCancelled(rowA.id, rowA.(status := Cancelled), e);
    FindPairFindsRow(db.registrations, rowA.id);
    StatusOfOnlyRow(rowA.id, rowA.(status := Cancelled), Confirmed);
    var r2 := Register(db, a, e, 2);
    assert r2 == Ok(rowA) && db.registrations == map[rowA.id := rowA];

    FindPairFindsRow(db.registrations, rowA.id);
    var r3 := Register(db, a, e, 3);
    assert r3 == Err(ALREADY_REGISTERED);
  }
}
