/**
 * The `validator(schema, property)` middleware: it validates one slice of
 * the request, answers 400 with the first error, or replaces that slice by
 * the validated value and passes the request on.
 */
module Validator {
  import opened Strings
  import opened Joi
  import Inventory

  /** The request slice a middleware instance validates. */
  datatype Property = Body | Params | Query

  /** The parts of an Express request the middleware reads and writes. */
  class Request {
    var body: Json
    var params: Json
    var query: Json
    /** How many times the handler chain has been continued with `next()`. */
    var nextCalls: nat

    constructor(body: Json, params: Json, query: Json)
      ensures this.body == body && this.params == params && this.query == query
      ensures nextCalls == 0
    {
      this.body := body;
      this.params := params;
      this.query := query;
      nextCalls := 0;
    }

    function Slice(p: Property): Json
      reads this
    {
      match p
      case Body => body
      case Params => params
      case Query => query
    }
  }

  /** The middleware either answers 400 with `{error: body}` or hands over to the next handler. */
  datatype Outcome = BadRequest(error: map<string, string>) | Passed

  /** The error body for a failed validation: the first detail's path, joined with commas, mapped to its message. */
  function ErrorBody<T>(v: Validation<T>): map<string, string>
    requires v.Invalid?
  {
    map[JoinComma(v.first.path) := v.first.message]
  }

  /**
   * The body has a single key, and that key gives the failing path back
   * when no path element holds a comma.
   */
  lemma {:induction false} ErrorBodyNamesPath<T>(v: Validation<T>)
    requires v.Invalid? && |v.first.path| >= 1
    requires forall i :: 0 <= i < |v.first.path| ==> ',' !in v.first.path[i]
    ensures |ErrorBody(v)| == 1
    ensures forall k :: k in ErrorBody(v) ==> SplitComma(k) == v.first.path && ErrorBody(v)[k] == v.first.message
  {
    JoinCommaRoundTrip(v.first.path);
  }

  /** Only the first detail reaches the client: the details after it never change the answer. */
  lemma ErrorBodyIgnoresLaterDetails<T>(first: Detail, rest: seq<Detail>, rest': seq<Detail>)
    ensures ErrorBody<T>(Invalid(first, rest)) == ErrorBody<T>(Invalid(first, rest'))
  {
  }

  /**
   * The handlers that validate inline answer with the same body as the
   * middleware: `Inventory.Reject` is the single entry of `ErrorBody`.
   */
  lemma RejectIsErrorBody<R, T>(v: Validation<T>)
    requires v.Invalid?
    ensures var r := Inventory.Reject<R, T>(v);
      r.Err? && r.Status() == 400 && ErrorBody(v) == map[r.field := r.message]
  {
  }

  method Validate(schema: Json -> Validation<Json>, property: Property, req: Request) returns (o: Outcome)
    modifies req
    ensures var v := schema(old(req.Slice(property)));
      && (v.Invalid? ==>
            && o == BadRequest(ErrorBody(v))
            && req.body == old(req.body) && req.params == old(req.params) && req.query == old(req.query)
            && req.nextCalls == old(req.nextCalls))
      && (v.Valid? ==>
            && o == Passed
            && req.Slice(property) == v.value
            && (forall p :: p != property ==> req.Slice(p) == old(req.Slice(p)))
            && req.nextCalls == old(req.nextCalls) + 1)
  {
    var v := schema(req.Slice(property));
    if v.Invalid? {
      return BadRequest(ErrorBody(v));
    }
    if property == Params {
      req.params := v.value;
    }
    if property == Query {
      req.query := v.value;
    }
    if property == Body {
      req.body := v.value;
    }
    req.nextCalls := req.nextCalls + 1;
    o := Passed;
  }
}
