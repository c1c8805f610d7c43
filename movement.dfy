/**
 * src/routes/movement.ts: create, update and delete a movement, and the
 * read-only filters by status, period and date. Every route validates
 * through the middleware first; "now" is a parameter.
 */
module SrcMovement {
  import opened Joi
  import opened Inventory
  import opened MovementSchema

  /** Every movement names a stored user. */
  predicate MovementsLinked(db: Store)
    reads db
  {
    forall id :: id in db.movements ==> db.movements[id].user in db.users
  }

  /** POST `/`: validate the body, resolve the user, insert an active movement. */
  method Post(db: Store, lib: Lib, now: int, body: Json, newId: Id) returns (r: Response<Movement>)
    requires newId !in db.movements
    modifies db`movements
    ensures var v := CreateSchema(lib, now, body);
      && (v.Invalid? ==> r == Reject(v))
      && (v.Valid? && v.value.user !in db.users ==> r == Err("userId", "User not found"))
      && (v.Valid? && v.value.user in db.users ==>
            && r == Created(newId, Movement(v.value.movementDate, true, v.value.user))
            && db.movements == old(db.movements)[newId := Movement(v.value.movementDate, true, v.value.user)])
    ensures !r.Created? ==> db.movements == old(db.movements)
    ensures r.Created? ==> r.row.isActive && r.row.user in db.users && r.row.movementDate <= now
    ensures old(MovementsLinked(db)) ==> MovementsLinked(db)
  {
    var v := CreateSchema(lib, now, body);
    if v.Invalid? {
      return Reject(v);
    }
    var input := v.value;
    if input.user !in db.users {
      return Err("userId", "User not found");
    }
    var movement := Movement(input.movementDate, true, input.user);
    db.movements := db.movements[newId := movement];
    r := Created(newId, movement);
  }

  /**
   * PUT `/:id`: validate params and body, look up both the movement and the
   * user, report a missing movement first, then overwrite `isActive`,
   * `movementDate` and `user`; the answer is the row as read before.
   */
  method Put(db: Store, lib: Lib, now: int, rawId: string, body: Json) returns (r: Response<Movement>)
    modifies db`movements
    ensures var p := IdParams(lib, rawId); var v := UpdateSchema(lib, now, body);
      && (p.Invalid? ==> r == Reject(p))
      && (p.Valid? && v.Invalid? ==> r == Reject(v))
      && (p.Valid? && v.Valid? && p.value !in old(db.movements) ==> r == Err("id", "Movement not found"))
      && (p.Valid? && v.Valid? && p.value in old(db.movements) && v.value.user !in db.users ==>
            r == Err("userId", "User not found"))
      && (p.Valid? && v.Valid? && p.value in old(db.movements) && v.value.user in db.users ==>
            && r == Ok(p.value, old(db.movements)[p.value])
            && db.movements == old(db.movements)[p.value := old(db.movements)[p.value].(
                 isActive := v.value.isActive,
                 movementDate := v.value.movementDate,
                 user := v.value.user)])
    ensures !r.Ok? ==> db.movements == old(db.movements)
    ensures old(MovementsLinked(db)) ==> MovementsLinked(db)
  {
    var p := IdParams(lib, rawId);
    if p.Invalid? {
      return Reject(p);
    }
    var v := UpdateSchema(lib, now, body);
    if v.Invalid? {
      return Reject(v);
    }
    r := Update(db, p.value, v.value);
  }

  /**
   * The PUT handler proper, on the validated id and body: both lookups
   * run before either is checked, the movement's first; then `isActive`,
   * `movementDate` and `user` are overwritten.
   */
  method Update(db: Store, id: Id, input: UpdateBody) returns (r: Response<Movement>)
    modifies db`movements
    ensures id !in old(db.movements) ==> r == Err("id", "Movement not found")
    ensures id in old(db.movements) && input.user !in db.users ==> r == Err("userId", "User not found")
    ensures id in old(db.movements) && input.user in db.users ==>
      && r == Ok(id, old(db.movements)[id])
      && db.movements == old(db.movements)[id := old(db.movements)[id].(
           isActive := input.isActive,
           movementDate := input.movementDate,
           user := input.user)]
    ensures !r.Ok? ==> db.movements == old(db.movements)
    ensures old(MovementsLinked(db)) ==> MovementsLinked(db)
  {
    var movementFound := id in db.movements;
    var userFound := input.user in db.users;
    if !movementFound {
      return Err("id", "Movement not found");
    }
    if !userFound {
      return Err("userId", "User not found");
    }
    var movement := db.movements[id];
    db.movements := db.movements[id := movement.(
      isActive := input.isActive,
      movementDate := input.movementDate,
      user := input.user)];
    r := Ok(id, movement);
  }

  /** DELETE `/:id`: an unknown id is answered with plain text, not the JSON error shape. */
  method Delete(db: Store, lib: Lib, rawId: string) returns (r: Response<Movement>)
    modifies db`movements
    ensures var p := IdParams(lib, rawId);
      && (p.Invalid? ==> r == Reject(p) && db.movements == old(db.movements))
      && (p.Valid? && p.value !in old(db.movements) ==>
            r == Text("Movement not found") && db.movements == old(db.movements))
      && (p.Valid? && p.value in old(db.movements) ==>
            r == NoContent && db.movements == old(db.movements) - {p.value})
    ensures old(MovementsLinked(db)) ==> MovementsLinked(db)
  {
    var p := IdParams(lib, rawId);
    if p.Invalid? {
      return Reject(p);
    }
    var id := p.value;
    if id !in db.movements {
      return Text("Movement not found");
    }
    db.movements := db.movements - {id};
    r := NoContent;
  }

  /** GET `/active`: the movements whose `isActive` is set. */
  function Active(t: map<Id, Movement>): map<Id, Movement> {
    map id | id in t && t[id].isActive :: t[id]
  }

  /** GET `/movementPeriod/:startDate/:endDate`: the movements dated within the period, both ends included. */
  function InPeriod(t: map<Id, Movement>, start: int, end: int): map<Id, Movement> {
    map id | id in t && start <= t[id].movementDate <= end :: t[id]
  }

  /** GET `/movementDate/:movementDate`: the movements dated exactly `d`. */
  function On(t: map<Id, Movement>, d: int): map<Id, Movement> {
    map id | id in t && t[id].movementDate == d :: t[id]
  }

  /** A filter keeps rows unchanged: its result is a sub-table of `t`. */
  predicate SubTable(s: map<Id, Movement>, t: map<Id, Movement>) {
    forall id :: id in s ==> id in t && s[id] == t[id]
  }

  /** `/active` answers exactly the active rows, each as stored. */
  lemma ActiveExactly(t: map<Id, Movement>)
    ensures SubTable(Active(t), t)
    ensures forall id :: id in t ==> (id in Active(t) <==> t[id].isActive)
  {
  }

  /** The period query answers exactly the rows dated within the period, each as stored. */
  lemma InPeriodExactly(t: map<Id, Movement>, start: int, end: int)
    ensures SubTable(InPeriod(t, start, end), t)
    ensures forall id :: id in t ==> (id in InPeriod(t, start, end) <==> start <= t[id].movementDate <= end)
  {
  }

  /**
   * The date query is the period query of a single instant: dates are
   * timestamps, so it matches only rows stamped exactly at `d`.
   */
  lemma OnIsOneInstantPeriod(t: map<Id, Movement>, d: int)
    ensures On(t, d) == InPeriod(t, d, d)
  {
  }

  /**
   * The date route compares whole timestamps: a movement stamped any time
   * after `d` (later the same calendar day included) is not in its answer,
   * though the period from `d` to its stamp holds it.
   */
  lemma OnMissesLaterInstant(t: map<Id, Movement>, d: int, id: Id)
    requires id in t && d < t[id].movementDate
    ensures id !in On(t, d)
    ensures id in InPeriod(t, d, t[id].movementDate)
  {
  }

  /**
   * Splitting a period at any instant splits its answer: the two halves are
   * disjoint and together give the whole period.
   */
  lemma PeriodSplits(t: map<Id, Movement>, start: int, mid: int, end: int)
    requires start <= mid < end
    ensures InPeriod(t, start, end).Keys == InPeriod(t, start, mid).Keys + InPeriod(t, mid + 1, end).Keys
    ensures InPeriod(t, start, mid).Keys !! InPeriod(t, mid + 1, end).Keys
  {
  }

  /** A period ending before it starts answers nothing; the schema never lets one through. */
  lemma ReversedPeriodIsEmpty(t: map<Id, Movement>, start: int, end: int)
    requires end < start
    ensures InPeriod(t, start, end) == map[]
  {
  }

  /**
   * The period route answers the rows dated in the validated period, and
   * that period always contains the rows stamped at its start instant.
   */
  lemma PeriodRouteCoversStart(lib: Lib, t: map<Id, Movement>, params: Json)
    requires PeriodSchema(lib, params).Valid?
    ensures var q := PeriodSchema(lib, params).value;
      On(t, q.start).Keys <= InPeriod(t, q.start, q.end).Keys
  {
  }

  /** A movement the update switches off leaves the `/active` answer; nothing else in it changes. */
  lemma DeactivatedLeavesActive(t: map<Id, Movement>, id: Id, row: Movement)
    requires id in t && !row.isActive
    ensures Active(t[id := row]) == Active(t) - {id}
  {
  }

  /** A created movement is in the `/active` answer. */
  lemma CreatedIsActive(t: map<Id, Movement>, id: Id, row: Movement)
    requires row.isActive
    ensures Active(t[id := row]) == Active(t)[id := row]
  {
  }
}
