/**
 * src/routes/categories.ts: the older category handlers. Creation runs a
 * lenient Joi schema and then checks the description by hand; updates
 * skip Joi altogether; nothing checks uniqueness; every error is a
 * plain-text 400.
 */
module SrcCategories {
  import opened Wrappers
  import opened Strings
  import opened Joi
  import opened Inventory

  /** `categoriesSchema`: an optional string `description` (untrimmed, but not empty). */
  function LegacySchema(lib: Lib, body: Json): (r: Validation<Option<string>>)
    ensures r.Valid? <==> body.JObj? && ("description" in body.fields ==>
      body.fields["description"].JStr? && body.fields["description"].s != "")
    ensures r.Valid? ==> r.value == (if "description" in body.fields then Some(body.fields["description"].s) else None)
  {
    var f :- Fields(body);
    OptStr(lib, f, "description", StrSpec(false, false, [], NoMessages))
  }

  /** The outcome of the checks the handlers make by hand. */
  datatype Checked = Accepted(stored: string) | Refused(text: string)

  const NotAString := "Description must be a non-empty string"
  const TooLong := "Description too long, must be less than 255 characters"

  /**
   * The hand-made checks on the raw `description`: it must be a string
   * that is not blank, then its untrimmed length must be at most 255; the
   * trimmed value is stored.
   */
  function CheckDescription(d: Option<Json>): (c: Checked)
    ensures c.Accepted? <==> d.Some? && d.value.JStr? && !Blank(d.value.s) && |d.value.s| <= 255
    ensures c.Accepted? ==> c.stored == Trim(d.value.s) && Trimmed(c.stored) && 1 <= |c.stored| <= 255
    ensures d.None? || !d.value.JStr? || Blank(d.value.s) ==> c == Refused(NotAString)
    ensures d.Some? && d.value.JStr? && !Blank(d.value.s) && |d.value.s| > 255 ==> c == Refused(TooLong)
  {
    if d.None? || !d.value.JStr? || Trim(d.value.s) == "" then Refused(NotAString)
    else if |d.value.s| > 255 then Refused(TooLong)
    else Accepted(Trim(d.value.s))
  }

  /** `const { description } = req.body`: absent unless the body is an object holding the key. */
  function DescriptionOf(body: Json): Option<Json> {
    if body.JObj? && "description" in body.fields then Some(body.fields["description"]) else None
  }

  /** Every stored description is trimmed and not empty, as the hand-made checks leave it. */
  predicate DescriptionsStored(t: map<Id, Category>) {
    forall id :: id in t ==> Trimmed(t[id].description) && t[id].description != []
  }

  /**
   * POST `/`: the Joi message as plain text on a schema error, then the
   * hand-made checks, then an insert with no uniqueness check and no
   * `isActive`.
   */
  method Post(db: Store, lib: Lib, body: Json, newId: Id) returns (r: Response<Category>)
    requires newId !in db.categories
    modifies db`categories
    ensures var v := LegacySchema(lib, body); var c := CheckDescription(DescriptionOf(body));
      && (v.Invalid? ==> r == Text(v.first.message))
      && (v.Valid? && c.Refused? ==> r == Text(c.text))
      && (v.Valid? && c.Accepted? ==>
            r == Created(newId, Category(c.stored, None))
            && db.categories == old(db.categories)[newId := Category(c.stored, None)])
    ensures !r.Created? ==> db.categories == old(db.categories)
    ensures DescriptionsStored(old(db.categories)) ==> DescriptionsStored(db.categories)
  {
    var v := LegacySchema(lib, body);
    if v.Invalid? {
      return Text(v.first.message);
    }
    var c := CheckDescription(DescriptionOf(body));
    if c.Refused? {
      return Text(c.text);
    }
    var category := Category(c.stored, None);
    db.categories := db.categories[newId := category];
    r := Created(newId, category);
  }

  /**
   * PUT `/:id`: the raw id is looked up first, then the body gets the
   * hand-made checks only; `description` alone is overwritten and the
   * answer is 201 with the row as read before.
   */
  method Put(db: Store, id: string, body: Json) returns (r: Response<Category>)
    modifies db`categories
    ensures var c := CheckDescription(DescriptionOf(body));
      && (id !in old(db.categories) ==> r == Text("Categories not found"))
      && (id in old(db.categories) && c.Refused? ==> r == Text(c.text))
      && (id in old(db.categories) && c.Accepted? ==>
            && r == Created(id, old(db.categories)[id])
            && db.categories == old(db.categories)[id := old(db.categories)[id].(description := c.stored)])
    ensures !r.Created? ==> db.categories == old(db.categories)
    ensures DescriptionsStored(old(db.categories)) ==> DescriptionsStored(db.categories)
  {
    if id !in db.categories {
      return Text("Categories not found");
    }
    var category := db.categories[id];
    var c := CheckDescription(DescriptionOf(body));
    if c.Refused? {
      return Text(c.text);
    }
    db.categories := db.categories[id := category.(description := c.stored)];
    r := Created(id, category);
  }

  /** DELETE `/:id`: the raw id is looked up, removed, and the removed row is the 200 body. */
  method Delete(db: Store, id: string) returns (r: Response<Category>)
    modifies db`categories
    ensures id !in old(db.categories) ==> r == Text("Categories not found") && db.categories == old(db.categories)
    ensures id in old(db.categories) ==>
      r == Ok(id, old(db.categories)[id]) && db.categories == old(db.categories) - {id}
    ensures DescriptionsStored(old(db.categories)) ==> DescriptionsStored(db.categories)
  {
    if id !in db.categories {
      return Text("Categories not found");
    }
    var category := db.categories[id];
    db.categories := db.categories - {id};
    r := Ok(id, category);
  }
}
