/**
 * app/src/routes/product.ts: products with a unique name (ignoring case)
 * that link a category and a group. The `validator` middleware checks the
 * params and body before each handler runs; a new product is always
 * active (`status = true`).
 */
module AppProduct {
  import opened Wrappers
  import opened Strings
  import opened Joi
  import opened Inventory
  import opened Tables
  import SrcProduct

  datatype CreateBody = CreateBody(name: string, description: Option<string>, category: Id, group: Id)

  /**
   * `createProductSchema`: `name` trimmed, 1 to 250 characters;
   * `description` optional, trimmed, at most 250 characters, blank
   * allowed; `categoryId` and `groupId` trimmed UUIDs.
   */
  function CreateSchema(lib: Lib, body: Json): Validation<CreateBody> {
    var f :- Fields(body);
    var name :- ReqBounded(lib, f, "name", 250);
    var description :- OptBoundedOrEmpty(lib, f, "description", 250);
    var category :- ReqUuid(lib, f, "categoryId", "Invalid Category Id");
    var group :- ReqUuid(lib, f, "groupId", "Invalid Group Id");
    Valid(CreateBody(name, description, category, group))
  }

  /** What `createProductSchema` accepts, and the value it hands on. */
  lemma CreateSchemaAccepts(lib: Lib, body: Json)
    ensures CreateSchema(lib, body).Valid? <==>
      && body.JObj?
      && BoundedField(body.fields, "name", 250)
      && ("description" in body.fields ==>
            body.fields["description"].JStr? && |Trim(body.fields["description"].s)| <= 250)
      && UuidField(lib, body.fields, "categoryId")
      && UuidField(lib, body.fields, "groupId")
    ensures CreateSchema(lib, body).Valid? ==>
      && CreateSchema(lib, body).value.name == Trim(body.fields["name"].s)
      && CreateSchema(lib, body).value.description == (if "description" in body.fields then Some(Trim(body.fields["description"].s)) else None)
      && CreateSchema(lib, body).value.category == Trim(body.fields["categoryId"].s)
      && CreateSchema(lib, body).value.group == Trim(body.fields["groupId"].s)
  {
  }

  datatype UpdateBody = UpdateBody(name: string, description: Option<string>, status: bool, category: Id, group: Id)

  /** The update schema: the create rules plus a required boolean `status`, checked after `description`. */
  function UpdateSchema(lib: Lib, body: Json): Validation<UpdateBody> {
    var f :- Fields(body);
    var name :- ReqBounded(lib, f, "name", 250);
    var description :- OptBoundedOrEmpty(lib, f, "description", 250);
    var status :- ReqBool(f, "status");
    var category :- ReqUuid(lib, f, "categoryId", "Invalid Category Id");
    var group :- ReqUuid(lib, f, "groupId", "Invalid Group Id");
    Valid(UpdateBody(name, description, status, category, group))
  }

  /** What the update schema accepts, and the value it hands on. */
  lemma UpdateSchemaAccepts(lib: Lib, body: Json)
    ensures UpdateSchema(lib, body).Valid? <==>
      && body.JObj?
      && BoundedField(body.fields, "name", 250)
      && ("description" in body.fields ==>
            body.fields["description"].JStr? && |Trim(body.fields["description"].s)| <= 250)
      && "status" in body.fields && BoolValue("status", body.fields["status"]).Valid?
      && UuidField(lib, body.fields, "categoryId")
      && UuidField(lib, body.fields, "groupId")
    ensures UpdateSchema(lib, body).Valid? ==>
      && UpdateSchema(lib, body).value.name == Trim(body.fields["name"].s)
      && UpdateSchema(lib, body).value.status == BoolValue("status", body.fields["status"]).value
      && UpdateSchema(lib, body).value.category == Trim(body.fields["categoryId"].s)
      && UpdateSchema(lib, body).value.group == Trim(body.fields["groupId"].s)
  {
  }

  /** `paramsProductSchema`: `id` trimmed and a UUID, "Invalid Id" otherwise. */
  function ProductParams(lib: Lib, rawId: string): Validation<string> {
    IdParam(lib, rawId, TrimmedUuid("Invalid Id"))
  }

  /**
   * The POST handler proper, on the validated body: reject a name taken
   * ignoring case, then resolve the category, then the group, then insert
   * an active product linked to both.
   */
  method Insert(db: Store, input: CreateBody, newId: Id) returns (r: Response<Product>)
    requires newId !in db.products
    modifies db`products
    ensures Taken(old(db.products), SrcProduct.ProductKey, input.name) ==> r == Err("name", "Product already exists")
    ensures (!Taken(old(db.products), SrcProduct.ProductKey, input.name) && input.category !in db.categories) ==>
      r == Err("categoryId", "Category not found")
    ensures (!Taken(old(db.products), SrcProduct.ProductKey, input.name)
      && input.category in db.categories && input.group !in db.groups) ==>
        r == Err("groupId", "Group not found")
    ensures (!Taken(old(db.products), SrcProduct.ProductKey, input.name)
      && input.category in db.categories && input.group in db.groups) ==>
        var row := Product(input.name, input.description, true, Some(input.category), Some(input.group));
        r == Created(newId, row) && db.products == old(db.products)[newId := row]
    ensures !r.Created? ==> db.products == old(db.products)
    ensures r.Created? ==>
      r.row.active && r.row.category.Some? && r.row.category.value in db.categories
      && r.row.group.Some? && r.row.group.value in db.groups
    ensures DistinctIgnoringCase(old(db.products), SrcProduct.ProductKey) ==>
      DistinctIgnoringCase(db.products, SrcProduct.ProductKey)
  {
    if Taken(db.products, SrcProduct.ProductKey, input.name) {
      return Err("name", "Product already exists");
    }
    if input.category !in db.categories {
      return Err("categoryId", "Category not found");
    }
    if input.group !in db.groups {
      return Err("groupId", "Group not found");
    }
    var product := Product(input.name, input.description, true, Some(input.category), Some(input.group));
    InsertKeepsDistinct(db.products, SrcProduct.ProductKey, newId, product);
    db.products := db.products[newId := product];
    r := Created(newId, product);
  }

  /** POST `/`: the body validator, then the handler. */
  method Post(db: Store, lib: Lib, body: Json, newId: Id) returns (r: Response<Product>)
    requires newId !in db.products
    modifies db`products
    ensures var v := CreateSchema(lib, body);
      && (v.Invalid? ==> r == Reject(v))
      && (v.Valid? && Taken(old(db.products), SrcProduct.ProductKey, v.value.name) ==>
            r == Err("name", "Product already exists"))
      && (v.Valid? && !Taken(old(db.products), SrcProduct.ProductKey, v.value.name)
          && v.value.category !in db.categories ==>
            r == Err("categoryId", "Category not found"))
      && (v.Valid? && !Taken(old(db.products), SrcProduct.ProductKey, v.value.name)
          && v.value.category in db.categories && v.value.group !in db.groups ==>
            r == Err("groupId", "Group not found"))
      && (v.Valid? && !Taken(old(db.products), SrcProduct.ProductKey, v.value.name)
          && v.value.category in db.categories && v.value.group in db.groups ==>
            var row := Product(v.value.name, v.value.description, true, Some(v.value.category), Some(v.value.group));
            r == Created(newId, row) && db.products == old(db.products)[newId := row])
    ensures !r.Created? ==> db.products == old(db.products)
    ensures r.Created? ==>
      r.row.active && r.row.category.Some? && r.row.category.value in db.categories
      && r.row.group.Some? && r.row.group.value in db.groups
    ensures DistinctIgnoringCase(old(db.products), SrcProduct.ProductKey) ==>
      DistinctIgnoringCase(db.products, SrcProduct.ProductKey)
  {
    var v := CreateSchema(lib, body);
    if v.Invalid? {
      return Reject(v);
    }
    r := Insert(db, v.value, newId);
  }

  /**
   * The PUT handler proper, on the validated id and body: look the row up,
   * reject a name another product takes, resolve the category, then the
   * group, and overwrite name, description (when given), status, category
   * and group; the answer is the row as read before the write.
   */
  method Update(db: Store, id: Id, input: UpdateBody) returns (r: Response<Product>)
    modifies db`products
    ensures id !in old(db.products) ==> r == Err("id", "Product not found")
    ensures id in old(db.products) && TakenByOther(old(db.products), SrcProduct.ProductKey, input.name, id) ==>
      r == Err("name", "Product already exists")
    ensures (id in old(db.products) && !TakenByOther(old(db.products), SrcProduct.ProductKey, input.name, id)
      && input.category !in db.categories) ==>
        r == Err("categoryId", "Category not found")
    ensures (id in old(db.products) && !TakenByOther(old(db.products), SrcProduct.ProductKey, input.name, id)
      && input.category in db.categories && input.group !in db.groups) ==>
        r == Err("groupId", "Group not found")
    ensures (id in old(db.products) && !TakenByOther(old(db.products), SrcProduct.ProductKey, input.name, id)
      && input.category in db.categories && input.group in db.groups) ==>
        var row := old(db.products)[id];
        && r == Ok(id, row)
        && db.products == old(db.products)[id := row.(
             name := input.name,
             description := Updated(input.description, row.description),
             active := input.status,
             category := Some(input.category),
             group := Some(input.group))]
    ensures !r.Ok? ==> db.products == old(db.products)
    ensures DistinctIgnoringCase(old(db.products), SrcProduct.ProductKey) ==>
      DistinctIgnoringCase(db.products, SrcProduct.ProductKey)
  {
    if id !in db.products {
      return Err("id", "Product not found");
    }
    var product := db.products[id];
    if TakenByOther(db.products, SrcProduct.ProductKey, input.name, id) {
      return Err("name", "Product already exists");
    }
    if input.category !in db.categories {
      return Err("categoryId", "Category not found");
    }
    if input.group !in db.groups {
      return Err("groupId", "Group not found");
    }
    var updated := product.(
      name := input.name,
      description := Updated(input.description, product.description),
      active := input.status,
      category := Some(input.category),
      group := Some(input.group));
    OverwriteKeepsDistinct(db.products, SrcProduct.ProductKey, id, updated);
    db.products := db.products[id := updated];
    r := Ok(id, product);
  }

  /** PUT `/:id`: the params validator, then the body validator, then the handler. */
  method Put(db: Store, lib: Lib, rawId: string, body: Json) returns (r: Response<Product>)
    modifies db`products
    ensures var p := ProductParams(lib, rawId); var v := UpdateSchema(lib, body);
      && (p.Invalid? ==> r == Reject(p))
      && (p.Valid? && v.Invalid? ==> r == Reject(v))
      && (p.Valid? && v.Valid? && p.value !in old(db.products) ==> r == Err("id", "Product not found"))
      && (p.Valid? && v.Valid? && p.value in old(db.products)
          && TakenByOther(old(db.products), SrcProduct.ProductKey, v.value.name, p.value) ==>
            r == Err("name", "Product already exists"))
      && (p.Valid? && v.Valid? && p.value in old(db.products)
          && !TakenByOther(old(db.products), SrcProduct.ProductKey, v.value.name, p.value)
          && v.value.category !in db.categories ==>
            r == Err("categoryId", "Category not found"))
      && (p.Valid? && v.Valid? && p.value in old(db.products)
          && !TakenByOther(old(db.products), SrcProduct.ProductKey, v.value.name, p.value)
          && v.value.category in db.categories && v.value.group !in db.groups ==>
            r == Err("groupId", "Group not found"))
      && (p.Valid? && v.Valid? && p.value in old(db.products)
          && !TakenByOther(old(db.products), SrcProduct.ProductKey, v.value.name, p.value)
          && v.value.category in db.categories && v.value.group in db.groups ==>
            var row := old(db.products)[p.value];
            && r == Ok(p.value, row)
            && db.products == old(db.products)[p.value := row.(
                 name := v.value.name,
                 description := Updated(v.value.description, row.description),
                 active := v.value.status,
                 category := Some(v.value.category),
                 group := Some(v.value.group))])
    ensures !r.Ok? ==> db.products == old(db.products)
    ensures DistinctIgnoringCase(old(db.products), SrcProduct.ProductKey) ==>
      DistinctIgnoringCase(db.products, SrcProduct.ProductKey)
  {
    var p := ProductParams(lib, rawId);
    if p.Invalid? {
      return Reject(p);
    }
    var v := UpdateSchema(lib, body);
    if v.Invalid? {
      return Reject(v);
    }
    r := Update(db, p.value, v.value);
  }

  /** DELETE `/:id`: after the params validator, look the row up and remove it. */
  method Delete(db: Store, lib: Lib, rawId: string) returns (r: Response<Product>)
    modifies db`products
    ensures var p := ProductParams(lib, rawId);
      && (p.Invalid? ==> r == Reject(p) && db.products == old(db.products))
      && (p.Valid? && p.value !in old(db.products) ==>
            r == Err("id", "Product not found") && db.products == old(db.products))
      && (p.Valid? && p.value in old(db.products) ==>
            r == NoContent && db.products == old(db.products) - {p.value})
    ensures DistinctIgnoringCase(old(db.products), SrcProduct.ProductKey) ==>
      DistinctIgnoringCase(db.products, SrcProduct.ProductKey)
  {
    var p := ProductParams(lib, rawId);
    if p.Invalid? {
      return Reject(p);
    }
    var id := p.value;
    if id !in db.products {
      return Err("id", "Product not found");
    }
    RemoveKeepsDistinct(db.products, SrcProduct.ProductKey, id);
    db.products := db.products - {id};
    r := NoContent;
  }
}
