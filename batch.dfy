/**
 * src/routes/batch.ts: create, update and delete a batch of a product.
 * The handlers validate inline with `batchSchema`; the update looks the
 * row up by the raw route parameter before it validates the body.
 */
module SrcBatch {
  import opened Strings
  import opened Joi
  import opened Inventory

  datatype BatchBody = BatchBody(description: string, expirationDate: int, product: string)

  /**
   * A batch body schema with the given `productId` overrides:
   * `description` trimmed, 1 to 250 characters; then `expirationDate` a
   * date not before `now`; then `productId` a UUID as given (not trimmed).
   */
  function BatchSchemaWith(lib: Lib, now: int, body: Json, custom: Messages): (r: Validation<BatchBody>)
    ensures r.Valid? ==> r.value.expirationDate >= now
  {
    var f :- Fields(body);
    var description :- ReqBounded(lib, f, "description", 250);
    var expiration :- ReqDate(lib, f, "expirationDate", NotBefore(now), NoMessages);
    var product :- ReqRawUuid(lib, f, "productId", custom);
    Valid(BatchBody(description, expiration, product))
  }

  /** What the batch schema accepts, whatever its overrides, and the values it hands on. */
  lemma BatchSchemaAccepts(lib: Lib, now: int, body: Json, custom: Messages)
    ensures BatchSchemaWith(lib, now, body, custom).Valid? <==>
      && body.JObj?
      && BoundedField(body.fields, "description", 250)
      && DateField(lib, body.fields, "expirationDate", NotBefore(now))
      && RawUuidField(lib, body.fields, "productId")
    ensures BatchSchemaWith(lib, now, body, custom).Valid? ==>
      var b := BatchSchemaWith(lib, now, body, custom).value;
      && b.description == Trim(body.fields["description"].s)
      && b.expirationDate == lib.toDate(body.fields["expirationDate"]).value
      && b.product == body.fields["productId"].s
  {
  }

  /** `batchSchema`: no message overrides. */
  function BatchSchema(lib: Lib, now: int, body: Json): Validation<BatchBody> {
    BatchSchemaWith(lib, now, body, NoMessages)
  }

  function Row(b: BatchBody): Batch {
    Batch(b.description, b.expirationDate, b.product)
  }

  /** Every batch names a stored product. */
  predicate BatchesLinked(db: Store)
    reads db
  {
    forall id :: id in db.batches ==> db.batches[id].product in db.products
  }

  /** POST `/`: validate, resolve the product, insert. */
  method Post(db: Store, lib: Lib, now: int, body: Json, newId: Id) returns (r: Response<Batch>)
    requires newId !in db.batches
    modifies db`batches
    ensures var v := BatchSchema(lib, now, body);
      && (v.Invalid? ==> r == Reject(v))
      && (v.Valid? && v.value.product !in db.products ==> r == Err("productId", "Product not found"))
      && (v.Valid? && v.value.product in db.products ==>
            r == Created(newId, Row(v.value)) && db.batches == old(db.batches)[newId := Row(v.value)])
    ensures !r.Created? ==> db.batches == old(db.batches)
    ensures r.Created? ==> r.row.expirationDate >= now
    ensures old(BatchesLinked(db)) ==> BatchesLinked(db)
  {
    var v := BatchSchema(lib, now, body);
    if v.Invalid? {
      return Reject(v);
    }
    var input := v.value;
    if input.product !in db.products {
      return Err("productId", "Product not found");
    }
    var batch := Row(input);
    db.batches := db.batches[newId := batch];
    r := Created(newId, batch);
  }

  /**
   * PUT `/:id`: look the row up by the raw parameter, then validate the
   * body, resolve the product, and overwrite `description`,
   * `expirationDate` and `product`; the answer is the row as read before.
   */
  method Put(db: Store, lib: Lib, now: int, rawId: string, body: Json) returns (r: Response<Batch>)
    modifies db`batches
    ensures var v := BatchSchema(lib, now, body);
      && (rawId !in old(db.batches) ==> r == Err("id", "Batch not found"))
      && (rawId in old(db.batches) && v.Invalid? ==> r == Reject(v))
      && (rawId in old(db.batches) && v.Valid? && v.value.product !in db.products ==>
            r == Err("productId", "Product not found"))
      && (rawId in old(db.batches) && v.Valid? && v.value.product in db.products ==>
            && r == Ok(rawId, old(db.batches)[rawId])
            && db.batches == old(db.batches)[rawId := Row(v.value)])
    ensures !r.Ok? ==> db.batches == old(db.batches)
    ensures old(BatchesLinked(db)) ==> BatchesLinked(db)
  {
    if rawId !in db.batches {
      return Err("id", "Batch not found");
    }
    var batch := db.batches[rawId];
    var v := BatchSchema(lib, now, body);
    if v.Invalid? {
      return Reject(v);
    }
    var input := v.value;
    if input.product !in db.products {
      return Err("productId", "Product not found");
    }
    db.batches := db.batches[rawId := batch.(
      description := input.description,
      expirationDate := input.expirationDate,
      product := input.product)];
    r := Ok(rawId, batch);
  }

  /** DELETE `/:id`: look the row up by the raw parameter and remove it. */
  method Delete(db: Store, rawId: string) returns (r: Response<Batch>)
    modifies db`batches
    ensures rawId !in old(db.batches) ==> r == Err("id", "Batch not found") && db.batches == old(db.batches)
    ensures rawId in old(db.batches) ==> r == NoContent && db.batches == old(db.batches) - {rawId}
    ensures old(BatchesLinked(db)) ==> BatchesLinked(db)
  {
    if rawId !in db.batches {
      return Err("id", "Batch not found");
    }
    db.batches := db.batches - {rawId};
    r := NoContent;
  }
}
