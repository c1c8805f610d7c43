/**
 * app/src/routes/batch.ts: the same batch rules, with validation done by
 * the middleware (params, then body) before the lookup. The body schema
 * is `createBatchSchema`, whose `productId` override is keyed
 * "string.uuid", a code Joi never reports: a UUID failure is reported as
 * "string.guid" and the custom text never reaches the client.
 */
module AppBatch {
  import opened Joi
  import opened Inventory
  import SrcBatch

  /** The overrides as written: keyed by a code `.uuid()` does not produce. */
  const WrittenMessages: Messages := map["string.uuid" := "Invalid Product Id"]

  /** The overrides evidently intended: keyed by the code `.uuid()` reports. */
  const IntendedMessages: Messages := map["string.guid" := "Invalid Product Id"]

  /** `createBatchSchema` as written. */
  function CreateSchema(lib: Lib, now: int, body: Json): Validation<SrcBatch.BatchBody> {
    SrcBatch.BatchSchemaWith(lib, now, body, WrittenMessages)
  }

  /** `createBatchSchema` with the override keyed as evidently intended. */
  function IntendedCreateSchema(lib: Lib, now: int, body: Json): Validation<SrcBatch.BatchBody> {
    SrcBatch.BatchSchemaWith(lib, now, body, IntendedMessages)
  }

  /** The key is present, a non-empty string as given, but not a UUID. */
  predicate NotUuid(lib: Lib, f: map<string, Json>, key: string) {
    key in f && f[key].JStr? && f[key].s != [] && !lib.isUuid(f[key].s)
  }

  /**
   * As written, a body whose only fault is a `productId` that is not a
   * UUID is answered with the bare code "string.guid", not the custom text.
   */
  lemma WrittenProductIdMessage(lib: Lib, now: int, body: Json)
    requires body.JObj? && BoundedField(body.fields, "description", 250)
    requires DateField(lib, body.fields, "expirationDate", NotBefore(now))
    requires NotUuid(lib, body.fields, "productId")
    ensures CreateSchema(lib, now, body) == Invalid(Detail(["productId"], "string.guid", "string.guid"), [])
  {
    var f := body.fields;
    assert ReqBounded(lib, f, "description", 250).Valid?;
    assert ReqDate(lib, f, "expirationDate", NotBefore(now), NoMessages).Valid?;
    assert ReqRawUuid(lib, f, "productId", WrittenMessages).first.code == "string.guid";
  }

  /** With the override keyed "string.guid", the same body is answered with the custom text. */
  lemma IntendedProductIdMessage(lib: Lib, now: int, body: Json)
    requires body.JObj? && BoundedField(body.fields, "description", 250)
    requires DateField(lib, body.fields, "expirationDate", NotBefore(now))
    requires NotUuid(lib, body.fields, "productId")
    ensures IntendedCreateSchema(lib, now, body) == Invalid(Detail(["productId"], "string.guid", "Invalid Product Id"), [])
  {
    var f := body.fields;
    assert ReqBounded(lib, f, "description", 250).Valid?;
    assert ReqDate(lib, f, "expirationDate", NotBefore(now), NoMessages).Valid?;
    assert ReqRawUuid(lib, f, "productId", IntendedMessages).first.code == "string.guid";
  }

  /** The params schema of the batch routes: `id` trimmed and a UUID, "Invalid Id" otherwise. */
  function BatchParams(lib: Lib, rawId: string): Validation<string> {
    IdParam(lib, rawId, TrimmedUuid("Invalid Id"))
  }

  /** POST `/`: the middleware validates the body, then the product is resolved and the batch inserted. */
  method Post(db: Store, lib: Lib, now: int, body: Json, newId: Id) returns (r: Response<Batch>)
    requires newId !in db.batches
    modifies db`batches
    ensures var v := CreateSchema(lib, now, body);
      && (v.Invalid? ==> r == Reject(v))
      && (v.Valid? && v.value.product !in db.products ==> r == Err("productId", "Product not found"))
      && (v.Valid? && v.value.product in db.products ==>
            && r == Created(newId, SrcBatch.Row(v.value))
            && db.batches == old(db.batches)[newId := SrcBatch.Row(v.value)])
    ensures !r.Created? ==> db.batches == old(db.batches)
    ensures r.Created? ==> r.row.expirationDate >= now
    ensures old(SrcBatch.BatchesLinked(db)) ==> SrcBatch.BatchesLinked(db)
  {
    var v := CreateSchema(lib, now, body);
    if v.Invalid? {
      return Reject(v);
    }
    var input := v.value;
    if input.product !in db.products {
      return Err("productId", "Product not found");
    }
    var batch := SrcBatch.Row(input);
    db.batches := db.batches[newId := batch];
    r := Created(newId, batch);
  }

  /**
   * The PUT handler proper, on the validated id and body: look the row up,
   * resolve the product, and overwrite `description`, `expirationDate` and
   * `product`; the answer is the row as read before the write.
   */
  method Update(db: Store, id: Id, input: SrcBatch.BatchBody) returns (r: Response<Batch>)
    modifies db`batches
    ensures id !in old(db.batches) ==> r == Err("id", "Batch not found")
    ensures id in old(db.batches) && input.product !in db.products ==> r == Err("productId", "Product not found")
    ensures id in old(db.batches) && input.product in db.products ==>
      r == Ok(id, old(db.batches)[id]) && db.batches == old(db.batches)[id := SrcBatch.Row(input)]
    ensures !r.Ok? ==> db.batches == old(db.batches)
    ensures old(SrcBatch.BatchesLinked(db)) ==> SrcBatch.BatchesLinked(db)
  {
    if id !in db.batches {
      return Err("id", "Batch not found");
    }
    var batch := db.batches[id];
    if input.product !in db.products {
      return Err("productId", "Product not found");
    }
    db.batches := db.batches[id := SrcBatch.Row(input)];
    r := Ok(id, batch);
  }

  /** PUT `/:id`: the params validator, then the body validator, then the handler. */
  method Put(db: Store, lib: Lib, now: int, rawId: string, body: Json) returns (r: Response<Batch>)
    modifies db`batches
    ensures var p := BatchParams(lib, rawId); var v := CreateSchema(lib, now, body);
      && (p.Invalid? ==> r == Reject(p))
      && (p.Valid? && v.Invalid? ==> r == Reject(v))
      && (p.Valid? && v.Valid? && p.value !in old(db.batches) ==> r == Err("id", "Batch not found"))
      && (p.Valid? && v.Valid? && p.value in old(db.batches) && v.value.product !in db.products ==>
            r == Err("productId", "Product not found"))
      && (p.Valid? && v.Valid? && p.value in old(db.batches) && v.value.product in db.products ==>
            && r == Ok(p.value, old(db.batches)[p.value])
            && db.batches == old(db.batches)[p.value := SrcBatch.Row(v.value)])
    ensures !r.Ok? ==> db.batches == old(db.batches)
    ensures old(SrcBatch.BatchesLinked(db)) ==> SrcBatch.BatchesLinked(db)
  {
    var p := BatchParams(lib, rawId);
    if p.Invalid? {
      return Reject(p);
    }
    var v := CreateSchema(lib, now, body);
    if v.Invalid? {
      return Reject(v);
    }
    r := Update(db, p.value, v.value);
  }

  /** DELETE `/:id`: validate the id, look the row up, remove it. */
  method Delete(db: Store, lib: Lib, rawId: string) returns (r: Response<Batch>)
    modifies db`batches
    ensures var p := BatchParams(lib, rawId);
      && (p.Invalid? ==> r == Reject(p) && db.batches == old(db.batches))
      && (p.Valid? && p.value !in old(db.batches) ==> r == Err("id", "Batch not found") && db.batches == old(db.batches))
      && (p.Valid? && p.value in old(db.batches) ==> r == NoContent && db.batches == old(db.batches) - {p.value})
    ensures old(SrcBatch.BatchesLinked(db)) ==> SrcBatch.BatchesLinked(db)
  {
    var p := BatchParams(lib, rawId);
    if p.Invalid? {
      return Reject(p);
    }
    var id := p.value;
    if id !in db.batches {
      return Err("id", "Batch not found");
    }
    db.batches := db.batches - {id};
    r := NoContent;
  }
}
