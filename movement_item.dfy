/**
 * src/routes/movement_item.ts: create, update and delete one product line
 * of a movement. Validation runs in the middleware first; creation
 * resolves the movement, then the product. The update writes `details`,
 * `price` and `quantity` only, so an item's links never change.
 */
module SrcMovementItem {
  import opened Wrappers
  import opened Strings
  import opened Joi
  import opened Inventory
  import opened Tables

  datatype ItemBody = ItemBody(
    details: Option<string>,
    price: real,
    quantity: real,
    movement: string,
    product: string)

  /** The key is present and is a number, or a string that converts to one, no smaller than `min`. */
  predicate NumField(lib: Lib, f: map<string, Json>, key: string, min: real) {
    key in f && NumValue(lib, key, f[key], Some(min)).Valid?
  }

  /**
   * `updateMovementItemSchema` (also taken for the create body):
   * `details` optional, trimmed, 1 to 250 characters; `price` and
   * `quantity` numbers no smaller than 0; `movementId` and `productId`
   * trimmed UUIDs with their own messages.
   */
  function ItemSchema(lib: Lib, body: Json): Validation<ItemBody> {
    var f :- Fields(body);
    var details :- OptBounded(lib, f, "details", 250);
    var price :- ReqNum(lib, f, "price", Some(0.0));
    var quantity :- ReqNum(lib, f, "quantity", Some(0.0));
    var movement :- ReqUuid(lib, f, "movementId", "Invalid Movement Id");
    var product :- ReqUuid(lib, f, "productId", "Invalid Product Id");
    Valid(ItemBody(details, price, quantity, movement, product))
  }

  /** What the item schema accepts, and the value it hands on. */
  lemma ItemSchemaAccepts(lib: Lib, body: Json)
    ensures ItemSchema(lib, body).Valid? <==>
      && body.JObj?
      && ("details" !in body.fields || BoundedField(body.fields, "details", 250))
      && NumField(lib, body.fields, "price", 0.0)
      && NumField(lib, body.fields, "quantity", 0.0)
      && UuidField(lib, body.fields, "movementId")
      && UuidField(lib, body.fields, "productId")
    ensures ItemSchema(lib, body).Valid? ==>
      var b := ItemSchema(lib, body).value;
      && b.price >= 0.0 && b.quantity >= 0.0
      && b.details == (if "details" in body.fields then Some(Trim(body.fields["details"].s)) else None)
      && b.movement == Trim(body.fields["movementId"].s)
      && b.product == Trim(body.fields["productId"].s)
  {
  }

  /** The params schema of the item routes: `id` trimmed and a UUID, "Invalid Id" otherwise. */
  function ItemParams(lib: Lib, rawId: string): Validation<string> {
    IdParam(lib, rawId, TrimmedUuid("Invalid Id"))
  }

  /** Every item names a stored movement and a stored product. */
  predicate ItemsLinked(db: Store)
    reads db
  {
    forall id :: id in db.movementItems ==>
      db.movementItems[id].movement in db.movements && db.movementItems[id].product in db.products
  }

  /** POST `/`: validate, resolve the movement, then the product, insert. */
  method Post(db: Store, lib: Lib, body: Json, newId: Id) returns (r: Response<MovementItem>)
    requires newId !in db.movementItems
    modifies db`movementItems
    ensures var v := ItemSchema(lib, body);
      && (v.Invalid? ==> r == Reject(v))
      && (v.Valid? && v.value.movement !in db.movements ==> r == Err("movementId", "Movement not found"))
      && (v.Valid? && v.value.movement in db.movements && v.value.product !in db.products ==>
            r == Err("productId", "Product not found"))
      && (v.Valid? && v.value.movement in db.movements && v.value.product in db.products ==>
            var row := MovementItem(v.value.details, v.value.price, v.value.quantity, v.value.movement, v.value.product);
            r == Created(newId, row) && db.movementItems == old(db.movementItems)[newId := row])
    ensures !r.Created? ==> db.movementItems == old(db.movementItems)
    ensures old(ItemsLinked(db)) ==> ItemsLinked(db)
  {
    var v := ItemSchema(lib, body);
    if v.Invalid? {
      return Reject(v);
    }
    var input := v.value;
    if input.movement !in db.movements {
      return Err("movementId", "Movement not found");
    }
    if input.product !in db.products {
      return Err("productId", "Product not found");
    }
    var item := MovementItem(input.details, input.price, input.quantity, input.movement, input.product);
    db.movementItems := db.movementItems[newId := item];
    r := Created(newId, item);
  }

  /**
   * PUT `/:id`: validate params and body, look the item up, and write
   * `details` (left as it was when the body omits it), `price` and
   * `quantity`. The `movementId` and `productId` the body must carry are
   * never used; the answer is the row as read before the write.
   */
  method Put(db: Store, lib: Lib, rawId: string, body: Json) returns (r: Response<MovementItem>)
    modifies db`movementItems
    ensures var p := ItemParams(lib, rawId); var v := ItemSchema(lib, body);
      && (p.Invalid? ==> r == Reject(p))
      && (p.Valid? && v.Invalid? ==> r == Reject(v))
      && (p.Valid? && v.Valid? && p.value !in old(db.movementItems) ==> r == Err("id", "Movement item not found"))
      && (p.Valid? && v.Valid? && p.value in old(db.movementItems) ==>
            var row := old(db.movementItems)[p.value];
            && r == Ok(p.value, row)
            && db.movementItems == old(db.movementItems)[p.value := row.(
                 details := Updated(v.value.details, row.details),
                 price := v.value.price,
                 quantity := v.value.quantity)])
    ensures !r.Ok? ==> db.movementItems == old(db.movementItems)
    ensures db.movementItems.Keys == old(db.movementItems).Keys
    ensures forall id :: id in db.movementItems ==>
      db.movementItems[id].movement == old(db.movementItems)[id].movement &&
      db.movementItems[id].product == old(db.movementItems)[id].product
    ensures old(ItemsLinked(db)) ==> ItemsLinked(db)
  {
    var p := ItemParams(lib, rawId);
    if p.Invalid? {
      return Reject(p);
    }
    var v := ItemSchema(lib, body);
    if v.Invalid? {
      return Reject(v);
    }
    r := Update(db, p.value, v.value);
  }

  /** The PUT handler proper, on the validated id and body. */
  method Update(db: Store, id: Id, input: ItemBody) returns (r: Response<MovementItem>)
    modifies db`movementItems
    ensures id !in old(db.movementItems) ==> r == Err("id", "Movement item not found")
    ensures id in old(db.movementItems) ==>
      var row := old(db.movementItems)[id];
      && r == Ok(id, row)
      && db.movementItems == old(db.movementItems)[id := row.(
           details := Updated(input.details, row.details),
           price := input.price,
           quantity := input.quantity)]
    ensures !r.Ok? ==> db.movementItems == old(db.movementItems)
    ensures db.movementItems.Keys == old(db.movementItems).Keys
    ensures forall id :: id in db.movementItems ==>
      db.movementItems[id].movement == old(db.movementItems)[id].movement &&
      db.movementItems[id].product == old(db.movementItems)[id].product
    ensures old(ItemsLinked(db)) ==> ItemsLinked(db)
  {
    if id !in db.movementItems {
      return Err("id", "Movement item not found");
    }
    var item := db.movementItems[id];
    db.movementItems := db.movementItems[id := item.(
      details := Updated(input.details, item.details),
      price := input.price,
      quantity := input.quantity)];
    r := Ok(id, item);
  }

  /** DELETE `/:id`: validate the id, look the item up, remove it. */
  method Delete(db: Store, lib: Lib, rawId: string) returns (r: Response<MovementItem>)
    modifies db`movementItems
    ensures var p := ItemParams(lib, rawId);
      && (p.Invalid? ==> r == Reject(p) && db.movementItems == old(db.movementItems))
      && (p.Valid? && p.value !in old(db.movementItems) ==>
            r == Err("id", "Movement item not found") && db.movementItems == old(db.movementItems))
      && (p.Valid? && p.value in old(db.movementItems) ==>
            r == NoContent && db.movementItems == old(db.movementItems) - {p.value})
    ensures old(ItemsLinked(db)) ==> ItemsLinked(db)
  {
    var p := ItemParams(lib, rawId);
    if p.Invalid? {
      return Reject(p);
    }
    var id := p.value;
    if id !in db.movementItems {
      return Err("id", "Movement item not found");
    }
    db.movementItems := db.movementItems - {id};
    r := NoContent;
  }
}
