/**
 * The records of the inventory database, the store that holds them (one
 * table per entity, keyed by the row's generated UUID) and the responses a
 * mutating route sends back.
 */
module Inventory {
  import opened Wrappers
  import opened Strings
  import opened Joi

  /** A row id: the UUID the database generated for the row. */
  type Id = string

  /** A quantity of one batch kept in one deposit. */
  datatype Stock = Stock(quantity: real, batch: Id, deposit: Id)

  /** A lot of one product with its expiration date (a timestamp). */
  datatype Batch = Batch(description: string, expirationDate: int, product: Id)

  /** A storage place; `isActive` is the entity's status column. */
  datatype Deposit = Deposit(name: string, description: Option<string>, isActive: bool)

  /**
   * A product. `active` is the `isActive` column of one snapshot of the API
   * and the `status` column of the other; only the newer one links a
   * category and a group.
   */
  datatype Product = Product(
    name: string,
    description: Option<string>,
    active: bool,
    category: Option<Id>,
    group: Option<Id>)

  /** A product category; the older handlers never write `isActive`. */
  datatype Category = Category(description: string, isActive: Option<bool>)

  datatype Group = Group(description: string)

  datatype User = User(firstName: string, lastName: string, email: string, password: string)

  /** A movement of goods made by a user on a date. */
  datatype Movement = Movement(movementDate: int, isActive: bool, user: Id)

  /** One product line of a movement. */
  datatype MovementItem = MovementItem(
    details: Option<string>,
    price: real,
    quantity: real,
    movement: Id,
    product: Id)

  /**
   * What a mutating route answers: 201 or 200 with a row as the JSON body,
   * 204 with no body, 400 with the JSON body `{error: {[field]: message}}`,
   * or 400 with a plain-text body.
   */
  datatype Response<R> =
    | Created(id: Id, row: R)
    | Ok(id: Id, row: R)
    | NoContent
    | Err(field: string, message: string)
    | Text(message: string)
  {
    function Status(): int {
      match this
      case Created(_, _) => 201
      case Ok(_, _) => 200
      case NoContent => 204
      case _ => 400
    }
  }

  /** The 400 answer built from the first validation detail: its path joined with commas names the field. */
  function Reject<R, T>(v: Validation<T>): Response<R>
    requires v.Invalid?
  {
    Err(JoinComma(v.first.path), v.first.message)
  }

  /** The database: one table per entity. */
  class Store {
    var stocks: map<Id, Stock>
    var batches: map<Id, Batch>
    var deposits: map<Id, Deposit>
    var products: map<Id, Product>
    var categories: map<Id, Category>
    var groups: map<Id, Group>
    var users: map<Id, User>
    var movements: map<Id, Movement>
    var movementItems: map<Id, MovementItem>

    constructor()
      ensures stocks == map[] && batches == map[] && deposits == map[]
      ensures products == map[] && categories == map[] && groups == map[]
      ensures users == map[] && movements == map[] && movementItems == map[]
    {
      stocks := map[];
      batches := map[];
      deposits := map[];
      products := map[];
      categories := map[];
      groups := map[];
      users := map[];
      movements := map[];
      movementItems := map[];
    }
  }
}
