/**
 * src/routes/user.ts: create, update and delete a user. Creation refuses
 * an e-mail already registered (exact comparison, no case folding); the
 * update validates the body before the lookup and checks no e-mail at
 * all.
 */
module SrcUser {
  import opened Joi
  import opened Inventory
  import UserSchema

  /** Some user is registered with exactly this e-mail (`user.email = :email`). */
  predicate EmailTaken(users: map<Id, User>, email: string) {
    exists id :: id in users && users[id].email == email
  }

  /** No two users share an e-mail. */
  predicate EmailsDistinct(users: map<Id, User>) {
    forall a, b :: a in users && b in users && a != b ==> users[a].email != users[b].email
  }

  function Row(u: UserSchema.UserBody): User {
    User(u.firstName, u.lastName, u.email, u.password)
  }

  /** POST `/`: validate, reject a registered e-mail, insert the four validated fields. */
  method Post(db: Store, lib: Lib, body: Json, newId: Id) returns (r: Response<User>)
    requires newId !in db.users
    modifies db`users
    ensures var v := UserSchema.UserSchema(lib, body);
      && (v.Invalid? ==> r == Reject(v))
      && (v.Valid? && EmailTaken(old(db.users), v.value.email) ==> r == Err("email", "Email already registered"))
      && (v.Valid? && !EmailTaken(old(db.users), v.value.email) ==>
            r == Created(newId, Row(v.value)) && db.users == old(db.users)[newId := Row(v.value)])
    ensures !r.Created? ==> db.users == old(db.users)
    ensures EmailsDistinct(old(db.users)) ==> EmailsDistinct(db.users)
  {
    var v := UserSchema.UserSchema(lib, body);
    if v.Invalid? {
      return Reject(v);
    }
    var input := v.value;
    if EmailTaken(db.users, input.email) {
      return Err("email", "Email already registered");
    }
    var user := Row(input);
    db.users := db.users[newId := user];
    r := Created(newId, user);
  }

  /**
   * PUT `/:id`: validate the id, then the body, then look the row up, and
   * overwrite `firstName`, `lastName`, `email` and `password`.
   */
  method Put(db: Store, lib: Lib, rawId: string, body: Json) returns (r: Response<User>)
    modifies db`users
    ensures var p := IdParam(lib, rawId, PlainUuid); var v := UserSchema.UserSchema(lib, body);
      && (p.Invalid? ==> r == Reject(p))
      && (p.Valid? && v.Invalid? ==> r == Reject(v))
      && (p.Valid? && v.Valid? && p.value !in old(db.users) ==> r == Err("id", "User not found"))
      && (p.Valid? && v.Valid? && p.value in old(db.users) ==>
            && r == Ok(p.value, old(db.users)[p.value])
            && db.users == old(db.users)[p.value := old(db.users)[p.value].(
                 firstName := v.value.firstName,
                 lastName := v.value.lastName,
                 email := v.value.email,
                 password := v.value.password)])
    ensures !r.Ok? ==> db.users == old(db.users)
  {
    var p := IdParam(lib, rawId, PlainUuid);
    if p.Invalid? {
      return Reject(p);
    }
    var v := UserSchema.UserSchema(lib, body);
    if v.Invalid? {
      return Reject(v);
    }
    var id := p.value;
    if id !in db.users {
      return Err("id", "User not found");
    }
    var user := db.users[id];
    var input := v.value;
    db.users := db.users[id := user.(
      firstName := input.firstName,
      lastName := input.lastName,
      email := input.email,
      password := input.password)];
    r := Ok(id, user);
  }

  /** DELETE `/:id`: validate the id, look the row up, remove it. */
  method Delete(db: Store, lib: Lib, rawId: string) returns (r: Response<User>)
    modifies db`users
    ensures var p := IdParam(lib, rawId, PlainUuid);
      && (p.Invalid? ==> r == Reject(p) && db.users == old(db.users))
      && (p.Valid? && p.value !in old(db.users) ==> r == Err("id", "User not found") && db.users == old(db.users))
      && (p.Valid? && p.value in old(db.users) ==> r == NoContent && db.users == old(db.users) - {p.value})
    ensures EmailsDistinct(old(db.users)) ==> EmailsDistinct(db.users)
  {
    var p := IdParam(lib, rawId, PlainUuid);
    if p.Invalid? {
      return Reject(p);
    }
    var id := p.value;
    if id !in db.users {
      return Err("id", "User not found");
    }
    db.users := db.users - {id};
    r := NoContent;
  }
}
