/**
 * backend/src/routes/group.ts: the same group rules as SrcGroup, with the
 * params and body validated by the `validator` middleware before the
 * handler runs, so an update validates its body before the lookup.
 */
module BackendGroup {
  import opened Joi
  import opened Inventory
  import opened Tables
  import SrcGroup

  /** `paramsGroupSchema`: `id` trimmed and a UUID, "Invalid Id" otherwise. */
  function GroupParams(lib: Lib, rawId: string): Validation<string> {
    IdParam(lib, rawId, TrimmedUuid("Invalid Id"))
  }

  /** POST `/` after `validator(createGroupSchema, "body")`. */
  method Post(db: Store, lib: Lib, body: Json, newId: Id) returns (r: Response<Group>)
    requires newId !in db.groups
    modifies db`groups
    ensures var v := SrcGroup.GroupSchema(lib, body);
      && (v.Invalid? ==> r == Reject(v))
      && (v.Valid? && Taken(old(db.groups), SrcGroup.GroupKey, v.value) ==>
            r == Err("description", "Group already exists"))
      && (v.Valid? && !Taken(old(db.groups), SrcGroup.GroupKey, v.value) ==>
            r == Created(newId, Group(v.value)) && db.groups == old(db.groups)[newId := Group(v.value)])
    ensures !r.Created? ==> db.groups == old(db.groups)
    ensures DistinctIgnoringCase(old(db.groups), SrcGroup.GroupKey) ==> DistinctIgnoringCase(db.groups, SrcGroup.GroupKey)
  {
    var v := SrcGroup.GroupSchema(lib, body);
    if v.Invalid? {
      return Reject(v);
    }
    var description := v.value;
    if Taken(db.groups, SrcGroup.GroupKey, description) {
      return Err("description", "Group already exists");
    }
    var group := Group(description);
    InsertKeepsDistinct(db.groups, SrcGroup.GroupKey, newId, group);
    db.groups := db.groups[newId := group];
    r := Created(newId, group);
  }

  /**
   * PUT `/:id` after the params and body validators: look the row up,
   * reject a description another group takes, overwrite the description.
   */
  method Put(db: Store, lib: Lib, rawId: string, body: Json) returns (r: Response<Group>)
    modifies db`groups
    ensures var p := GroupParams(lib, rawId); var v := SrcGroup.GroupSchema(lib, body);
      && (p.Invalid? ==> r == Reject(p))
      && (p.Valid? && v.Invalid? ==> r == Reject(v))
      && (p.Valid? && v.Valid? && p.value !in old(db.groups) ==> r == Err("id", "Group not found"))
      && (p.Valid? && v.Valid? && p.value in old(db.groups) && TakenByOther(old(db.groups), SrcGroup.GroupKey, v.value, p.value) ==>
            r == Err("description", "Group already exists"))
      && (p.Valid? && v.Valid? && p.value in old(db.groups) && !TakenByOther(old(db.groups), SrcGroup.GroupKey, v.value, p.value) ==>
            && r == Ok(p.value, old(db.groups)[p.value])
            && db.groups == old(db.groups)[p.value := old(db.groups)[p.value].(description := v.value)])
    ensures !r.Ok? ==> db.groups == old(db.groups)
    ensures DistinctIgnoringCase(old(db.groups), SrcGroup.GroupKey) ==> DistinctIgnoringCase(db.groups, SrcGroup.GroupKey)
  {
    var p := GroupParams(lib, rawId);
    if p.Invalid? {
      return Reject(p);
    }
    var v := SrcGroup.GroupSchema(lib, body);
    if v.Invalid? {
      return Reject(v);
    }
    var id := p.value;
    if id !in db.groups {
      return Err("id", "Group not found");
    }
    var group := db.groups[id];
    var description := v.value;
    if TakenByOther(db.groups, SrcGroup.GroupKey, description, id) {
      return Err("description", "Group already exists");
    }
    OverwriteKeepsDistinct(db.groups, SrcGroup.GroupKey, id, group.(description := description));
    db.groups := db.groups[id := group.(description := description)];
    r := Ok(id, group);
  }

  /** DELETE `/:id` after the params validator. */
  method Delete(db: Store, lib: Lib, rawId: string) returns (r: Response<Group>)
    modifies db`groups
    ensures var p := GroupParams(lib, rawId);
      && (p.Invalid? ==> r == Reject(p) && db.groups == old(db.groups))
      && (p.Valid? && p.value !in old(db.groups) ==> r == Err("id", "Group not found") && db.groups == old(db.groups))
      && (p.Valid? && p.value in old(db.groups) ==> r == NoContent && db.groups == old(db.groups) - {p.value})
    ensures DistinctIgnoringCase(old(db.groups), SrcGroup.GroupKey) ==> DistinctIgnoringCase(db.groups, SrcGroup.GroupKey)
  {
    var p := GroupParams(lib, rawId);
    if p.Invalid? {
      return Reject(p);
    }
    var id := p.value;
    if id !in db.groups {
      return Err("id", "Group not found");
    }
    RemoveKeepsDistinct(db.groups, SrcGroup.GroupKey, id);
    db.groups := db.groups - {id};
    r := NoContent;
  }
}
