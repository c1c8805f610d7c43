/**
 * src/routes/category.ts: create, update and delete a category, whose
 * description is unique ignoring case. The update looks the row up before
 * it validates the body.
 */
module SrcCategory {
  import opened Wrappers
  import opened Strings
  import opened Joi
  import opened Inventory
  import opened Tables

  /** The uniqueness key of a category. */
  function CategoryKey(c: Category): string {
    c.description
  }

  datatype CategoryBody = CategoryBody(description: string, isActive: bool)

  /**
   * `categoriesSchema`: `description` a trimmed string of 1 to 250
   * characters, then `isActive` a required boolean.
   */
  function CategorySchema(lib: Lib, body: Json): (r: Validation<CategoryBody>)
    ensures r.Valid? <==>
      && body.JObj? && BoundedField(body.fields, "description", 250)
      && "isActive" in body.fields && BoolValue("isActive", body.fields["isActive"]).Valid?
    ensures r.Valid? ==>
      && r.value.description == Trim(body.fields["description"].s)
      && r.value.isActive == BoolValue("isActive", body.fields["isActive"]).value
    ensures body.JObj? && !BoundedField(body.fields, "description", 250) ==>
      r.Invalid? && r.first.path == ["description"]
  {
    var f :- Fields(body);
    var description :- ReqBounded(lib, f, "description", 250);
    var isActive :- ReqBool(f, "isActive");
    Valid(CategoryBody(description, isActive))
  }

  /** POST `/`: validate, reject a description taken ignoring case, insert. */
  method Post(db: Store, lib: Lib, body: Json, newId: Id) returns (r: Response<Category>)
    requires newId !in db.categories
    modifies db`categories
    ensures var v := CategorySchema(lib, body);
      && (v.Invalid? ==> r == Reject(v))
      && (v.Valid? && Taken(old(db.categories), CategoryKey, v.value.description) ==>
            r == Err("description", "Category already exists"))
      && (v.Valid? && !Taken(old(db.categories), CategoryKey, v.value.description) ==>
            var row := Category(v.value.description, Some(v.value.isActive));
            r == Created(newId, row) && db.categories == old(db.categories)[newId := row])
    ensures !r.Created? ==> db.categories == old(db.categories)
    ensures DistinctIgnoringCase(old(db.categories), CategoryKey) ==> DistinctIgnoringCase(db.categories, CategoryKey)
  {
    var v := CategorySchema(lib, body);
    if v.Invalid? {
      return Reject(v);
    }
    var input := v.value;
    if Taken(db.categories, CategoryKey, input.description) {
      return Err("description", "Category already exists");
    }
    var category := Category(input.description, Some(input.isActive));
    InsertKeepsDistinct(db.categories, CategoryKey, newId, category);
    db.categories := db.categories[newId := category];
    r := Created(newId, category);
  }

  /**
   * PUT `/:id`: validate the id, look the row up, then validate the body,
   * reject a description another category takes, and overwrite
   * `description` and `isActive`; the answer is the row as read before.
   */
  method Put(db: Store, lib: Lib, rawId: string, body: Json) returns (r: Response<Category>)
    modifies db`categories
    ensures var p := IdParam(lib, rawId, PlainUuid); var v := CategorySchema(lib, body);
      && (p.Invalid? ==> r == Reject(p))
      && (p.Valid? && p.value !in old(db.categories) ==> r == Err("id", "Categories not found"))
      && (p.Valid? && p.value in old(db.categories) && v.Invalid? ==> r == Reject(v))
      && (p.Valid? && p.value in old(db.categories) && v.Valid?
          && TakenByOther(old(db.categories), CategoryKey, v.value.description, p.value) ==>
            r == Err("description", "Category already exists"))
      && (p.Valid? && p.value in old(db.categories) && v.Valid?
          && !TakenByOther(old(db.categories), CategoryKey, v.value.description, p.value) ==>
            && r == Ok(p.value, old(db.categories)[p.value])
            && db.categories == old(db.categories)[p.value :=
                 old(db.categories)[p.value].(description := v.value.description, isActive := Some(v.value.isActive))])
    ensures !r.Ok? ==> db.categories == old(db.categories)
    ensures DistinctIgnoringCase(old(db.categories), CategoryKey) ==> DistinctIgnoringCase(db.categories, CategoryKey)
  {
    var p := IdParam(lib, rawId, PlainUuid);
    if p.Invalid? {
      return Reject(p);
    }
    var id := p.value;
    if id !in db.categories {
      return Err("id", "Categories not found");
    }
    var category := db.categories[id];
    var v := CategorySchema(lib, body);
    if v.Invalid? {
      return Reject(v);
    }
    var input := v.value;
    if TakenByOther(db.categories, CategoryKey, input.description, id) {
      return Err("description", "Category already exists");
    }
    var updated := category.(description := input.description, isActive := Some(input.isActive));
    OverwriteKeepsDistinct(db.categories, CategoryKey, id, updated);
    db.categories := db.categories[id := updated];
    r := Ok(id, category);
  }

  /** DELETE `/:id`: validate the id, look the row up, remove it. */
  method Delete(db: Store, lib: Lib, rawId: string) returns (r: Response<Category>)
    modifies db`categories
    ensures var p := IdParam(lib, rawId, PlainUuid);
      && (p.Invalid? ==> r == Reject(p) && db.categories == old(db.categories))
      && (p.Valid? && p.value !in old(db.categories) ==>
            r == Err("id", "Categories not found") && db.categories == old(db.categories))
      && (p.Valid? && p.value in old(db.categories) ==>
            r == NoContent && db.categories == old(db.categories) - {p.value})
    ensures DistinctIgnoringCase(old(db.categories), CategoryKey) ==> DistinctIgnoringCase(db.categories, CategoryKey)
  {
    var p := IdParam(lib, rawId, PlainUuid);
    if p.Invalid? {
      return Reject(p);
    }
    var id := p.value;
    if id !in db.categories {
      return Err("id", "Categories not found");
    }
    RemoveKeepsDistinct(db.categories, CategoryKey, id);
    db.categories := db.categories - {id};
    r := NoContent;
  }
}
