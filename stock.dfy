/**
 * src/routes/stock.ts: create, update and delete the quantity of one batch
 * kept in one deposit. The handlers validate inline with `stockSchema`.
 *
 * Two TypeORM behaviours decide what happens when the optional `batchId`
 * is omitted: a query-builder parameter that is undefined matches no row,
 * so the (batch, deposit) check finds nothing; and `findOneBy({id:
 * undefined})` drops the criterion and returns some stored batch. A create
 * without `batchId` therefore skips the duplicate check and binds an
 * arbitrary batch.
 */
module SrcStock {
  import opened Wrappers
  import opened Strings
  import opened Joi
  import opened Inventory

  datatype StockBody = StockBody(quantity: real, deposit: string, batch: Option<string>)

  /**
   * `stockSchema`: `quantity` a number no smaller than 0; `depositId`
   * trimmed and a UUID ("Invalid Deposit Id"); `batchId` optional,
   * trimmed and a UUID ("Invalid Batch Id").
   */
  function StockSchema(lib: Lib, body: Json): Validation<StockBody> {
    var f :- Fields(body);
    var quantity :- ReqNum(lib, f, "quantity", Some(0.0));
    var deposit :- ReqUuid(lib, f, "depositId", "Invalid Deposit Id");
    var batch :- OptUuid(lib, f, "batchId", "Invalid Batch Id");
    Valid(StockBody(quantity, deposit, batch))
  }

  /** What `stockSchema` accepts, and the value it hands on. */
  lemma StockSchemaAccepts(lib: Lib, body: Json)
    ensures StockSchema(lib, body).Valid? <==>
      && body.JObj?
      && "quantity" in body.fields && NumValue(lib, "quantity", body.fields["quantity"], Some(0.0)).Valid?
      && UuidField(lib, body.fields, "depositId")
      && ("batchId" !in body.fields || UuidField(lib, body.fields, "batchId"))
    ensures StockSchema(lib, body).Valid? ==>
      var b := StockSchema(lib, body).value;
      && b.quantity >= 0.0
      && b.deposit == Trim(body.fields["depositId"].s)
      && b.batch == (if "batchId" in body.fields then Some(Trim(body.fields["batchId"].s)) else None)
  {
  }

  /** `stockParamsSchema`: `id` trimmed and a UUID, with no custom message. */
  const ParamsSpec := StrSpec(true, false, [Guid], NoMessages)

  /** Some stock row holds batch `b` in deposit `d`. */
  predicate Paired(stocks: map<Id, Stock>, b: Id, d: Id) {
    exists id :: id in stocks && stocks[id].batch == b && stocks[id].deposit == d
  }

  /** The create's pair query: with `batchId` undefined it matches nothing. */
  predicate PairQueryFinds(stocks: map<Id, Stock>, batch: Option<Id>, deposit: Id) {
    batch.Some? && Paired(stocks, batch.value, deposit)
  }

  /** At most one stock row per (batch, deposit) pair. */
  predicate PairsUnique(stocks: map<Id, Stock>) {
    forall a, b :: a in stocks && b in stocks && a != b ==>
      stocks[a].batch != stocks[b].batch || stocks[a].deposit != stocks[b].deposit
  }

  /** `findOneBy({id: batchId})` finds a row: the given batch, or any batch when `batchId` is undefined. */
  predicate BatchFound(batches: map<Id, Batch>, batch: Option<Id>) {
    if batch.Some? then batch.value in batches else batches != map[]
  }

  /** `b` is a row the batch lookup may return. */
  predicate Resolves(batches: map<Id, Batch>, batch: Option<Id>, b: Id) {
    b in batches && (batch.Some? ==> b == batch.value)
  }

  /** Inserting a row whose pair no row holds keeps the pairs unique. */
  lemma InsertKeepsPairsUnique(stocks: map<Id, Stock>, id: Id, row: Stock)
    requires id !in stocks && !Paired(stocks, row.batch, row.deposit)
    ensures PairsUnique(stocks) ==> PairsUnique(stocks[id := row])
  {
    var t := stocks[id := row];
    forall a, b | PairsUnique(stocks) && a in t && b in t && a != b
      ensures t[a].batch != t[b].batch || t[a].deposit != t[b].deposit
    {
      if a == id {
        assert b in stocks;
      } else if b == id {
        assert a in stocks;
      }
    }
  }

  /** Pick the batch row the lookup returns. */
  method FindBatch(batches: map<Id, Batch>, batch: Option<Id>) returns (found: Option<Id>)
    ensures found.Some? <==> BatchFound(batches, batch)
    ensures found.Some? ==> Resolves(batches, batch, found.value)
  {
    if batch.Some? {
      found := if batch.value in batches then Some(batch.value) else None;
    } else if batches != map[] {
      var b :| b in batches;
      found := Some(b);
    } else {
      found := None;
    }
  }

  /**
   * POST `/`: validate; reject a pair the query finds; resolve the batch,
   * then the deposit; insert the row.
   */
  method Post(db: Store, lib: Lib, body: Json, newId: Id) returns (r: Response<Stock>)
    requires newId !in db.stocks
    modifies db`stocks
    ensures var v := StockSchema(lib, body);
      && (v.Invalid? ==> r == Reject(v))
      && (v.Valid? && PairQueryFinds(old(db.stocks), v.value.batch, v.value.deposit) ==>
            r == Err("id", "Stock already exists"))
      && (v.Valid? && !PairQueryFinds(old(db.stocks), v.value.batch, v.value.deposit) ==>
            && (!BatchFound(db.batches, v.value.batch) ==> r == Err("batch", "Batch not found"))
            && (BatchFound(db.batches, v.value.batch) && v.value.deposit !in db.deposits ==>
                  r == Err("deposit", "Deposit not found"))
            && (BatchFound(db.batches, v.value.batch) && v.value.deposit in db.deposits ==>
                  && r.Created? && r.id == newId
                  && Resolves(db.batches, v.value.batch, r.row.batch)
                  && r.row == Stock(v.value.quantity, r.row.batch, v.value.deposit)
                  && db.stocks == old(db.stocks)[newId := r.row]))
    ensures !r.Created? ==> db.stocks == old(db.stocks)
    ensures var v := StockSchema(lib, body);
      v.Valid? && v.value.batch.Some? && PairsUnique(old(db.stocks)) ==> PairsUnique(db.stocks)
  {
    var v := StockSchema(lib, body);
    if v.Invalid? {
      return Reject(v);
    }
    var input := v.value;
    if PairQueryFinds(db.stocks, input.batch, input.deposit) {
      return Err("id", "Stock already exists");
    }
    var batch := FindBatch(db.batches, input.batch);
    if batch.None? {
      return Err("batch", "Batch not found");
    }
    if input.deposit !in db.deposits {
      return Err("deposit", "Deposit not found");
    }
    var stock := Stock(input.quantity, batch.value, input.deposit);
    if input.batch.Some? {
      InsertKeepsPairsUnique(db.stocks, newId, stock);
    }
    db.stocks := db.stocks[newId := stock];
    r := Created(newId, stock);
  }

  /**
   * The create with the duplicate check made against the batch the row
   * will hold: with `batchId` given it answers as `Post` does; without
   * it, a pair the resolved batch already holds in the deposit is
   * refused too.
   */
  method PostChecked(db: Store, lib: Lib, body: Json, newId: Id) returns (r: Response<Stock>)
    requires newId !in db.stocks
    modifies db`stocks
    ensures var v := StockSchema(lib, body);
      && (v.Invalid? ==> r == Reject(v))
      && (v.Valid? && PairQueryFinds(old(db.stocks), v.value.batch, v.value.deposit) ==>
            r == Err("id", "Stock already exists"))
      && (v.Valid? && !PairQueryFinds(old(db.stocks), v.value.batch, v.value.deposit) ==>
            && (!BatchFound(db.batches, v.value.batch) ==> r == Err("batch", "Batch not found"))
            && (BatchFound(db.batches, v.value.batch) && v.value.batch.Some? && v.value.deposit !in db.deposits ==>
                  r == Err("deposit", "Deposit not found"))
            && (BatchFound(db.batches, v.value.batch) && v.value.batch.Some? && v.value.deposit in db.deposits ==>
                  && r == Created(newId, Stock(v.value.quantity, v.value.batch.value, v.value.deposit))
                  && db.stocks == old(db.stocks)[newId := r.row]))
    ensures var v := StockSchema(lib, body);
      v.Valid? && v.value.batch.None? && BatchFound(db.batches, None) ==>
        && ((forall b :: b in db.batches ==> Paired(old(db.stocks), b, v.value.deposit)) ==>
              r == Err("id", "Stock already exists"))
        && ((forall b :: b in db.batches ==> !Paired(old(db.stocks), b, v.value.deposit)) ==>
              && (v.value.deposit !in db.deposits ==> r == Err("deposit", "Deposit not found"))
              && (v.value.deposit in db.deposits ==> r.Created?))
    ensures r.Created? ==> !Paired(old(db.stocks), r.row.batch, r.row.deposit)
    ensures r.Created? ==> db.stocks == old(db.stocks)[newId := r.row] && r.row.batch in db.batches
    ensures !r.Created? ==> db.stocks == old(db.stocks)
    ensures PairsUnique(old(db.stocks)) ==> PairsUnique(db.stocks)
  {
    var v := StockSchema(lib, body);
    if v.Invalid? {
      return Reject(v);
    }
    var input := v.value;
    if PairQueryFinds(db.stocks, input.batch, input.deposit) {
      return Err("id", "Stock already exists");
    }
    var batch := FindBatch(db.batches, input.batch);
    if batch.None? {
      return Err("batch", "Batch not found");
    }
    if Paired(db.stocks, batch.value, input.deposit) {
      return Err("id", "Stock already exists");
    }
    if input.deposit !in db.deposits {
      return Err("deposit", "Deposit not found");
    }
    var stock := Stock(input.quantity, batch.value, input.deposit);
    InsertKeepsPairsUnique(db.stocks, newId, stock);
    db.stocks := db.stocks[newId := stock];
    r := Created(newId, stock);
  }

  /**
   * PUT `/:id`: validate params, then the body; look the row up; resolve
   * the deposit, then the batch (the reverse of create); overwrite
   * `quantity`, `batch` and `deposit` with no pair check. The answer is
   * the row as read before the write.
   */
  method Put(db: Store, lib: Lib, rawId: string, body: Json) returns (r: Response<Stock>)
    modifies db`stocks
    ensures var p := IdParam(lib, rawId, ParamsSpec); var v := StockSchema(lib, body);
      && (p.Invalid? ==> r == Reject(p))
      && (p.Valid? && v.Invalid? ==> r == Reject(v))
      && (p.Valid? && v.Valid? && p.value !in old(db.stocks) ==> r == Err("id", "Stock not found"))
      && (p.Valid? && v.Valid? && p.value in old(db.stocks) && v.value.deposit !in db.deposits ==>
            r == Err("deposit", "Deposit not found"))
      && (p.Valid? && v.Valid? && p.value in old(db.stocks) && v.value.deposit in db.deposits &&
            !BatchFound(db.batches, v.value.batch) ==>
            r == Err("batch", "Batch not found"))
      && (p.Valid? && v.Valid? && p.value in old(db.stocks) && v.value.deposit in db.deposits &&
            BatchFound(db.batches, v.value.batch) ==>
            r.Ok? && r.id == p.value)
    ensures !r.Ok? ==> db.stocks == old(db.stocks)
    ensures r.Ok? ==> IdParam(lib, rawId, ParamsSpec) == Valid(r.id) && r.id in old(db.stocks)
    ensures r.Ok? ==> r.row == old(db.stocks)[r.id] && db.stocks.Keys == old(db.stocks).Keys
    ensures r.Ok? ==> forall id :: id in db.stocks && id != r.id ==> db.stocks[id] == old(db.stocks)[id]
    ensures r.Ok? ==>
      var v := StockSchema(lib, body);
      && v.Valid? && v.value.deposit in db.deposits && BatchFound(db.batches, v.value.batch)
      && Resolves(db.batches, v.value.batch, db.stocks[r.id].batch)
      && db.stocks[r.id] == Stock(v.value.quantity, db.stocks[r.id].batch, v.value.deposit)
  {
    var p := IdParam(lib, rawId, ParamsSpec);
    if p.Invalid? {
      return Reject(p);
    }
    var v := StockSchema(lib, body);
    if v.Invalid? {
      return Reject(v);
    }
    var id := p.value;
    var input := v.value;
    if id !in db.stocks {
      return Err("id", "Stock not found");
    }
    var stock := db.stocks[id];
    if input.deposit !in db.deposits {
      return Err("deposit", "Deposit not found");
    }
    var batch := FindBatch(db.batches, input.batch);
    if batch.None? {
      return Err("batch", "Batch not found");
    }
    var row := Stock(input.quantity, batch.value, input.deposit);
    db.stocks := db.stocks[id := row];
    r := Ok(id, stock);
  }

  /** DELETE `/:id`: validate the id, look the row up, remove it. */
  method Delete(db: Store, lib: Lib, rawId: string) returns (r: Response<Stock>)
    modifies db`stocks
    ensures var p := IdParam(lib, rawId, ParamsSpec);
      && (p.Invalid? ==> r == Reject(p) && db.stocks == old(db.stocks))
      && (p.Valid? && p.value !in old(db.stocks) ==> r == Err("id", "Stock not found") && db.stocks == old(db.stocks))
      && (p.Valid? && p.value in old(db.stocks) ==> r == NoContent && db.stocks == old(db.stocks) - {p.value})
    ensures PairsUnique(old(db.stocks)) ==> PairsUnique(db.stocks)
  {
    var p := IdParam(lib, rawId, ParamsSpec);
    if p.Invalid? {
      return Reject(p);
    }
    var id := p.value;
    if id !in db.stocks {
      return Err("id", "Stock not found");
    }
    db.stocks := db.stocks - {id};
    r := NoContent;
  }
}
