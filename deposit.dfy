/**
 * src/routes/deposit.ts: create, update and delete a deposit, whose name
 * is unique ignoring case. A new deposit is always active; the update
 * looks the row up before it validates the body and never touches
 * `isActive`.
 */
module SrcDeposit {
  import opened Wrappers
  import opened Strings
  import opened Joi
  import opened Inventory
  import opened Tables

  /** The uniqueness key of a deposit. */
  function DepositKey(d: Deposit): string {
    d.name
  }

  datatype DepositBody = DepositBody(name: string, description: Option<string>)

  /** `depositSchema`: `name` trimmed, 1 to 250 characters; `description` optional, trimmed, 1 to 250 characters. */
  function DepositSchema(lib: Lib, body: Json): Validation<DepositBody> {
    var f :- Fields(body);
    var name :- ReqBounded(lib, f, "name", 250);
    var description :- OptBounded(lib, f, "description", 250);
    Valid(DepositBody(name, description))
  }

  /** What `depositSchema` accepts, and the trimmed values it hands on. */
  lemma DepositSchemaAccepts(lib: Lib, body: Json)
    ensures DepositSchema(lib, body).Valid? <==>
      && body.JObj?
      && BoundedField(body.fields, "name", 250)
      && ("description" in body.fields ==> BoundedField(body.fields, "description", 250))
    ensures DepositSchema(lib, body).Valid? ==>
      && DepositSchema(lib, body).value.name == Trim(body.fields["name"].s)
      && DepositSchema(lib, body).value.description ==
           (if "description" in body.fields then Some(Trim(body.fields["description"].s)) else None)
  {
  }

  /** POST `/`: validate, reject a name taken ignoring case, insert an active deposit. */
  method Post(db: Store, lib: Lib, body: Json, newId: Id) returns (r: Response<Deposit>)
    requires newId !in db.deposits
    modifies db`deposits
    ensures var v := DepositSchema(lib, body);
      && (v.Invalid? ==> r == Reject(v))
      && (v.Valid? && Taken(old(db.deposits), DepositKey, v.value.name) ==>
            r == Err("name", "Deposit already exists"))
      && (v.Valid? && !Taken(old(db.deposits), DepositKey, v.value.name) ==>
            var row := Deposit(v.value.name, v.value.description, true);
            r == Created(newId, row) && db.deposits == old(db.deposits)[newId := row])
    ensures !r.Created? ==> db.deposits == old(db.deposits)
    ensures r.Created? ==> r.row.isActive
    ensures DistinctIgnoringCase(old(db.deposits), DepositKey) ==> DistinctIgnoringCase(db.deposits, DepositKey)
  {
    var v := DepositSchema(lib, body);
    if v.Invalid? {
      return Reject(v);
    }
    var input := v.value;
    if Taken(db.deposits, DepositKey, input.name) {
      return Err("name", "Deposit already exists");
    }
    var deposit := Deposit(input.name, input.description, true);
    InsertKeepsDistinct(db.deposits, DepositKey, newId, deposit);
    db.deposits := db.deposits[newId := deposit];
    r := Created(newId, deposit);
  }

  /**
   * PUT `/:id`: validate the id, look the row up, then validate the body,
   * reject a name another deposit takes, and overwrite `name` and
   * `description` (when given).
   */
  method Put(db: Store, lib: Lib, rawId: string, body: Json) returns (r: Response<Deposit>)
    modifies db`deposits
    ensures var p := IdParam(lib, rawId, PlainUuid); var v := DepositSchema(lib, body);
      && (p.Invalid? ==> r == Reject(p))
      && (p.Valid? && p.value !in old(db.deposits) ==> r == Err("id", "Deposit not found"))
      && (p.Valid? && p.value in old(db.deposits) && v.Invalid? ==> r == Reject(v))
      && (p.Valid? && p.value in old(db.deposits) && v.Valid?
          && TakenByOther(old(db.deposits), DepositKey, v.value.name, p.value) ==>
            r == Err("name", "Deposit already exists"))
      && (p.Valid? && p.value in old(db.deposits) && v.Valid?
          && !TakenByOther(old(db.deposits), DepositKey, v.value.name, p.value) ==>
            var row := old(db.deposits)[p.value];
            && r == Ok(p.value, row)
            && db.deposits == old(db.deposits)[p.value := row.(
                 name := v.value.name,
                 description := Updated(v.value.description, row.description))])
    ensures !r.Ok? ==> db.deposits == old(db.deposits)
    ensures forall id :: id in db.deposits ==> id in old(db.deposits) && db.deposits[id].isActive == old(db.deposits)[id].isActive
    ensures DistinctIgnoringCase(old(db.deposits), DepositKey) ==> DistinctIgnoringCase(db.deposits, DepositKey)
  {
    var p := IdParam(lib, rawId, PlainUuid);
    if p.Invalid? {
      return Reject(p);
    }
    var id := p.value;
    if id !in db.deposits {
      return Err("id", "Deposit not found");
    }
    var deposit := db.deposits[id];
    var v := DepositSchema(lib, body);
    if v.Invalid? {
      return Reject(v);
    }
    var input := v.value;
    if TakenByOther(db.deposits, DepositKey, input.name, id) {
      return Err("name", "Deposit already exists");
    }
    var updated := deposit.(name := input.name, description := Updated(input.description, deposit.description));
    OverwriteKeepsDistinct(db.deposits, DepositKey, id, updated);
    db.deposits := db.deposits[id := updated];
    r := Ok(id, deposit);
  }

  /** DELETE `/:id`: validate the id, look the row up, remove it. */
  method Delete(db: Store, lib: Lib, rawId: string) returns (r: Response<Deposit>)
    modifies db`deposits
    ensures var p := IdParam(lib, rawId, PlainUuid);
      && (p.Invalid? ==> r == Reject(p) && db.deposits == old(db.deposits))
      && (p.Valid? && p.value !in old(db.deposits) ==>
            r == Err("id", "Deposit not found") && db.deposits == old(db.deposits))
      && (p.Valid? && p.value in old(db.deposits) ==>
            r == NoContent && db.deposits == old(db.deposits) - {p.value})
    ensures DistinctIgnoringCase(old(db.deposits), DepositKey) ==> DistinctIgnoringCase(db.deposits, DepositKey)
  {
    var p := IdParam(lib, rawId, PlainUuid);
    if p.Invalid? {
      return Reject(p);
    }
    var id := p.value;
    if id !in db.deposits {
      return Err("id", "Deposit not found");
    }
    RemoveKeepsDistinct(db.deposits, DepositKey, id);
    db.deposits := db.deposits - {id};
    r := NoContent;
  }
}
