/**
 * Concrete runs of the handlers on small stores, showing the behaviours
 * the general contracts allow: the stock pair rule broken by a create
 * without `batchId` and by an update, and the older category handler
 * accepting the same description twice.
 */
module Scenarios {
  import opened Wrappers
  import opened Joi
  import opened Inventory
  import SrcStock
  import SrcCategories

  /** Every string is a UUID and an e-mail; no string converts to a number and nothing to a date. */
  const Lenient := Lib(s => true, s => true, s => None, j => None)

  /**
   * A create that omits `batchId`, for a deposit every stored batch is
   * already paired with: the pair query matches nothing, the batch lookup
   * returns some stored batch, and the new row repeats a pair an existing
   * row holds, whatever batch is picked.
   */
  method CreateWithoutBatchDuplicatesPair(db: Store, lib: Lib, body: Json, newId: Id) returns (r: Response<Stock>)
    requires newId !in db.stocks
    requires SrcStock.StockSchema(lib, body).Valid? && SrcStock.StockSchema(lib, body).value.batch.None?
    requires db.batches != map[] && SrcStock.StockSchema(lib, body).value.deposit in db.deposits
    requires forall b :: b in db.batches ==> SrcStock.Paired(db.stocks, b, SrcStock.StockSchema(lib, body).value.deposit)
    modifies db`stocks
    ensures r.Created? && !SrcStock.PairsUnique(db.stocks)
  {
    r := SrcStock.Post(db, lib, body, newId);
    ghost var old_id :| old_id in old(db.stocks) && old(db.stocks)[old_id].batch == r.row.batch &&
      old(db.stocks)[old_id].deposit == r.row.deposit;
    assert old_id in db.stocks && newId in db.stocks && old_id != newId;
  }

  /** The corrected create refuses the same request and leaves the table as it was. */
  method CheckedCreateRefusesPair(db: Store, lib: Lib, body: Json, newId: Id) returns (r: Response<Stock>)
    requires newId !in db.stocks
    requires SrcStock.StockSchema(lib, body).Valid? && SrcStock.StockSchema(lib, body).value.batch.None?
    requires db.batches != map[] && SrcStock.StockSchema(lib, body).value.deposit in db.deposits
    requires forall b :: b in db.batches ==> SrcStock.Paired(db.stocks, b, SrcStock.StockSchema(lib, body).value.deposit)
    modifies db`stocks
    ensures r == Err("id", "Stock already exists")
    ensures db.stocks == old(db.stocks)
  {
    r := SrcStock.PostChecked(db, lib, body, newId);
  }

  /**
   * An update that moves a row onto the pair another row holds is
   * accepted: the update never checks pairs.
   */
  method UpdateDuplicatesPair(db: Store, lib: Lib, rawId: string, body: Json, other: Id) returns (r: Response<Stock>)
    requires IdParam(lib, rawId, SrcStock.ParamsSpec).Valid?
    requires IdParam(lib, rawId, SrcStock.ParamsSpec).value in db.stocks
    requires SrcStock.StockSchema(lib, body).Valid? && SrcStock.StockSchema(lib, body).value.batch.Some?
    requires SrcStock.StockSchema(lib, body).value.batch.value in db.batches
    requires SrcStock.StockSchema(lib, body).value.deposit in db.deposits
    requires other in db.stocks && other != IdParam(lib, rawId, SrcStock.ParamsSpec).value
    requires db.stocks[other].batch == SrcStock.StockSchema(lib, body).value.batch.value
    requires db.stocks[other].deposit == SrcStock.StockSchema(lib, body).value.deposit
    modifies db`stocks
    ensures r.Ok? && !SrcStock.PairsUnique(db.stocks)
  {
    r := SrcStock.Put(db, lib, rawId, body);
    assert other in db.stocks && r.id in db.stocks && other != r.id;
  }

  /** The older category handler stores the same description twice. */
  method LegacyCategoriesAcceptDuplicates() returns (first: Response<Category>, second: Response<Category>, after: map<Id, Category>)
    ensures first.Created? && second.Created?
    ensures after == map["c1" := Category("Dairy", None), "c2" := Category("Dairy", None)]
  {
    var db := new Store();
    var body := JObj(map["description" := JStr("Dairy")]);
    assert Strings.Trimmed("Dairy");
    first := SrcCategories.Post(db, Lenient, body, "c1");
    second := SrcCategories.Post(db, Lenient, body, "c2");
    after := db.categories;
  }
}
