/**
 * src/routes/group.ts: create, update and delete a product group, whose
 * description is unique ignoring case. The handlers validate inline, and
 * the update looks the row up before it validates the body.
 */
module SrcGroup {
  import opened Strings
  import opened Joi
  import opened Inventory
  import opened Tables

  /** The uniqueness key of a group. */
  function GroupKey(g: Group): string {
    g.description
  }

  /**
   * `groupSchema`: a required string `description`, trimmed, 1 to 250
   * characters (the same rules as `createGroupSchema` and
   * `updateGroupSchema`).
   */
  function GroupSchema(lib: Lib, body: Json): (r: Validation<string>)
    ensures r.Valid? <==> body.JObj? && BoundedField(body.fields, "description", 250)
    ensures r.Valid? ==> r.value == Trim(body.fields["description"].s) && Trimmed(r.value)
    ensures r.Invalid? && body.JObj? ==> r.first.path == ["description"]
  {
    var f :- Fields(body);
    ReqBounded(lib, f, "description", 250)
  }

  /** POST `/`: validate, reject a description taken ignoring case, insert. */
  method Post(db: Store, lib: Lib, body: Json, newId: Id) returns (r: Response<Group>)
    requires newId !in db.groups
    modifies db`groups
    ensures var v := GroupSchema(lib, body);
      && (v.Invalid? ==> r == Reject(v))
      && (v.Valid? && Taken(old(db.groups), GroupKey, v.value) ==>
            r == Err("description", "Group already exists"))
      && (v.Valid? && !Taken(old(db.groups), GroupKey, v.value) ==>
            r == Created(newId, Group(v.value)) && db.groups == old(db.groups)[newId := Group(v.value)])
    ensures !r.Created? ==> db.groups == old(db.groups)
    ensures DistinctIgnoringCase(old(db.groups), GroupKey) ==> DistinctIgnoringCase(db.groups, GroupKey)
  {
    var v := GroupSchema(lib, body);
    if v.Invalid? {
      return Reject(v);
    }
    var description := v.value;
    if Taken(db.groups, GroupKey, description) {
      return Err("description", "Group already exists");
    }
    var group := Group(description);
    InsertKeepsDistinct(db.groups, GroupKey, newId, group);
    db.groups := db.groups[newId := group];
    r := Created(newId, group);
  }

  /**
   * PUT `/:id`: validate the id, look the row up, then validate the body,
   * reject a description another group takes, and overwrite the
   * description; the answer is the row as read before the write.
   */
  method Put(db: Store, lib: Lib, rawId: string, body: Json) returns (r: Response<Group>)
    modifies db`groups
    ensures var p := IdParam(lib, rawId, PlainUuid); var v := GroupSchema(lib, body);
      && (p.Invalid? ==> r == Reject(p))
      && (p.Valid? && p.value !in old(db.groups) ==> r == Err("id", "Group not found"))
      && (p.Valid? && p.value in old(db.groups) && v.Invalid? ==> r == Reject(v))
      && (p.Valid? && p.value in old(db.groups) && v.Valid? && TakenByOther(old(db.groups), GroupKey, v.value, p.value) ==>
            r == Err("description", "Group already exists"))
      && (p.Valid? && p.value in old(db.groups) && v.Valid? && !TakenByOther(old(db.groups), GroupKey, v.value, p.value) ==>
            && r == Ok(p.value, old(db.groups)[p.value])
            && db.groups == old(db.groups)[p.value := old(db.groups)[p.value].(description := v.value)])
    ensures !r.Ok? ==> db.groups == old(db.groups)
    ensures DistinctIgnoringCase(old(db.groups), GroupKey) ==> DistinctIgnoringCase(db.groups, GroupKey)
  {
    var p := IdParam(lib, rawId, PlainUuid);
    if p.Invalid? {
      return Reject(p);
    }
    var id := p.value;
    if id !in db.groups {
      return Err("id", "Group not found");
    }
    var group := db.groups[id];
    var v := GroupSchema(lib, body);
    if v.Invalid? {
      return Reject(v);
    }
    var description := v.value;
    if TakenByOther(db.groups, GroupKey, description, id) {
      return Err("description", "Group already exists");
    }
    OverwriteKeepsDistinct(db.groups, GroupKey, id, group.(description := description));
    db.groups := db.groups[id := group.(description := description)];
    r := Ok(id, group);
  }

  /** DELETE `/:id`: validate the id, look the row up, remove it. */
  method Delete(db: Store, lib: Lib, rawId: string) returns (r: Response<Group>)
    modifies db`groups
    ensures var p := IdParam(lib, rawId, PlainUuid);
      && (p.Invalid? ==> r == Reject(p) && db.groups == old(db.groups))
      && (p.Valid? && p.value !in old(db.groups) ==> r == Err("id", "Group not found") && db.groups == old(db.groups))
      && (p.Valid? && p.value in old(db.groups) ==> r == NoContent && db.groups == old(db.groups) - {p.value})
    ensures DistinctIgnoringCase(old(db.groups), GroupKey) ==> DistinctIgnoringCase(db.groups, GroupKey)
  {
    var p := IdParam(lib, rawId, PlainUuid);
    if p.Invalid? {
      return Reject(p);
    }
    var id := p.value;
    if id !in db.groups {
      return Err("id", "Group not found");
    }
    RemoveKeepsDistinct(db.groups, GroupKey, id);
    db.groups := db.groups - {id};
    r := NoContent;
  }
}
