/**
 * src/routes/product.ts: create, update and delete a product, whose name
 * is unique ignoring case. This snapshot has no category or group links,
 * and the update looks the row up before it validates the body.
 */
module SrcProduct {
  import opened Wrappers
  import opened Strings
  import opened Joi
  import opened Inventory
  import opened Tables

  /** The uniqueness key of a product. */
  function ProductKey(p: Product): string {
    p.name
  }

  datatype ProductBody = ProductBody(name: string, description: Option<string>, isActive: bool)

  /**
   * `productSchema`: `name` trimmed, 1 to 250 characters; `description`
   * optional, trimmed, 1 to 250 characters; `isActive` a required boolean.
   */
  function ProductSchema(lib: Lib, body: Json): (r: Validation<ProductBody>)
    ensures r.Valid? <==>
      && body.JObj?
      && BoundedField(body.fields, "name", 250)
      && ("description" in body.fields ==> BoundedField(body.fields, "description", 250))
      && "isActive" in body.fields && BoolValue("isActive", body.fields["isActive"]).Valid?
    ensures r.Valid? ==>
      && r.value.name == Trim(body.fields["name"].s)
      && r.value.description == (if "description" in body.fields then Some(Trim(body.fields["description"].s)) else None)
      && r.value.isActive == BoolValue("isActive", body.fields["isActive"]).value
  {
    var f :- Fields(body);
    var name :- ReqBounded(lib, f, "name", 250);
    var description :- OptBounded(lib, f, "description", 250);
    var isActive :- ReqBool(f, "isActive");
    Valid(ProductBody(name, description, isActive))
  }

  /** POST `/`: validate, reject a name taken ignoring case, insert with the given `isActive`. */
  method Post(db: Store, lib: Lib, body: Json, newId: Id) returns (r: Response<Product>)
    requires newId !in db.products
    modifies db`products
    ensures var v := ProductSchema(lib, body);
      && (v.Invalid? ==> r == Reject(v))
      && (v.Valid? && Taken(old(db.products), ProductKey, v.value.name) ==>
            r == Err("name", "Product already exists"))
      && (v.Valid? && !Taken(old(db.products), ProductKey, v.value.name) ==>
            var row := Product(v.value.name, v.value.description, v.value.isActive, None, None);
            r == Created(newId, row) && db.products == old(db.products)[newId := row])
    ensures !r.Created? ==> db.products == old(db.products)
    ensures DistinctIgnoringCase(old(db.products), ProductKey) ==> DistinctIgnoringCase(db.products, ProductKey)
  {
    var v := ProductSchema(lib, body);
    if v.Invalid? {
      return Reject(v);
    }
    var input := v.value;
    if Taken(db.products, ProductKey, input.name) {
      return Err("name", "Product already exists");
    }
    var product := Product(input.name, input.description, input.isActive, None, None);
    InsertKeepsDistinct(db.products, ProductKey, newId, product);
    db.products := db.products[newId := product];
    r := Created(newId, product);
  }

  /**
   * PUT `/:id`: validate the id, look the row up, then validate the body,
   * reject a name another product takes, and overwrite `name`,
   * `description` (when given) and `isActive`.
   */
  method Put(db: Store, lib: Lib, rawId: string, body: Json) returns (r: Response<Product>)
    modifies db`products
    ensures var p := IdParam(lib, rawId, PlainUuid); var v := ProductSchema(lib, body);
      && (p.Invalid? ==> r == Reject(p))
      && (p.Valid? && p.value !in old(db.products) ==> r == Err("id", "Product not found"))
      && (p.Valid? && p.value in old(db.products) && v.Invalid? ==> r == Reject(v))
      && (p.Valid? && p.value in old(db.products) && v.Valid?
          && TakenByOther(old(db.products), ProductKey, v.value.name, p.value) ==>
            r == Err("name", "Product already exists"))
      && (p.Valid? && p.value in old(db.products) && v.Valid?
          && !TakenByOther(old(db.products), ProductKey, v.value.name, p.value) ==>
            var row := old(db.products)[p.value];
            && r == Ok(p.value, row)
            && db.products == old(db.products)[p.value := row.(
                 name := v.value.name,
                 description := Updated(v.value.description, row.description),
                 active := v.value.isActive)])
    ensures !r.Ok? ==> db.products == old(db.products)
    ensures DistinctIgnoringCase(old(db.products), ProductKey) ==> DistinctIgnoringCase(db.products, ProductKey)
  {
    var p := IdParam(lib, rawId, PlainUuid);
    if p.Invalid? {
      return Reject(p);
    }
    var id := p.value;
    if id !in db.products {
      return Err("id", "Product not found");
    }
    var product := db.products[id];
    var v := ProductSchema(lib, body);
    if v.Invalid? {
      return Reject(v);
    }
    var input := v.value;
    if TakenByOther(db.products, ProductKey, input.name, id) {
      return Err("name", "Product already exists");
    }
    var updated := product.(
      name := input.name,
      description := Updated(input.description, product.description),
      active := input.isActive);
    OverwriteKeepsDistinct(db.products, ProductKey, id, updated);
    db.products := db.products[id := updated];
    r := Ok(id, product);
  }

  /** DELETE `/:id`: validate the id, look the row up, remove it. */
  method Delete(db: Store, lib: Lib, rawId: string) returns (r: Response<Product>)
    modifies db`products
    ensures var p := IdParam(lib, rawId, PlainUuid);
      && (p.Invalid? ==> r == Reject(p) && db.products == old(db.products))
      && (p.Valid? && p.value !in old(db.products) ==>
            r == Err("id", "Product not found") && db.products == old(db.products))
      && (p.Valid? && p.value in old(db.products) ==>
            r == NoContent && db.products == old(db.products) - {p.value})
    ensures DistinctIgnoringCase(old(db.products), ProductKey) ==> DistinctIgnoringCase(db.products, ProductKey)
  {
    var p := IdParam(lib, rawId, PlainUuid);
    if p.Invalid? {
      return Reject(p);
    }
    var id := p.value;
    if id !in db.products {
      return Err("id", "Product not found");
    }
    RemoveKeepsDistinct(db.products, ProductKey, id);
    db.products := db.products - {id};
    r := NoContent;
  }
}
