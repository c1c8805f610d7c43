/**
 * The movement schemas: the route parameters of src/schemas/movement/
 * paramsMovementSchema.ts, and the create and update bodies
 * (createMovementSchema, updateMovementSchema).
 */
module MovementSchema {
  import opened Joi
  import Strings

  /** `paramsMovementSchema`: `id` trimmed and a UUID, "Invalid Id" otherwise. */
  function IdParams(lib: Lib, rawId: string): (r: Validation<string>)
    ensures r.Valid? <==> Strings.Trim(rawId) != [] && lib.isUuid(Strings.Trim(rawId))
    ensures r.Valid? ==> r.value == Strings.Trim(rawId)
    ensures r.Invalid? ==> r.first.path == ["id"]
    ensures Strings.Trim(rawId) != [] && !lib.isUuid(Strings.Trim(rawId)) ==> r.first.message == "Invalid Id"
  {
    TrimmedUuidAccepts(lib, "id", JStr(rawId), "Invalid Id");
    IdParam(lib, rawId, TrimmedUuid("Invalid Id"))
  }

  /** The validated period: both ends as timestamps. */
  datatype Period = Period(start: int, end: int)

  /** The custom text of the period's `date.min` error, closing quote included as written. */
  const EndBeforeStart := "The end date must be greater than or equal to start date\""

  const PeriodMessages: Messages := map["date.min" := EndBeforeStart]

  /**
   * `movementPeriodSchema`: `startDate` a required date, then `endDate` a
   * required date no earlier than the converted `startDate`.
   */
  function PeriodSchema(lib: Lib, params: Json): (r: Validation<Period>)
    ensures r.Valid? <==>
      && params.JObj?
      && DateField(lib, params.fields, "startDate", NoBound)
      && DateField(lib, params.fields, "endDate", NotBefore(lib.toDate(params.fields["startDate"]).value))
    ensures r.Valid? ==>
      && r.value.start == lib.toDate(params.fields["startDate"]).value
      && r.value.end == lib.toDate(params.fields["endDate"]).value
      && r.value.start <= r.value.end
  {
    var f :- Fields(params);
    var start :- ReqDate(lib, f, "startDate", NoBound, NoMessages);
    var end :- ReqDate(lib, f, "endDate", NotBefore(start), PeriodMessages);
    Valid(Period(start, end))
  }

  /** Both dates parse but the end is before the start: the answer is the period's own `date.min` text on `endDate`. */
  lemma EndBeforeStartRejected(lib: Lib, params: Json)
    requires params.JObj? && "startDate" in params.fields && "endDate" in params.fields
    requires lib.toDate(params.fields["startDate"]).Some? && lib.toDate(params.fields["endDate"]).Some?
    requires lib.toDate(params.fields["endDate"]).value < lib.toDate(params.fields["startDate"]).value
    ensures PeriodSchema(lib, params).Invalid?
    ensures PeriodSchema(lib, params).first == Detail(["endDate"], "date.min", EndBeforeStart)
  {
  }

  /** A period of a single instant (equal dates) is accepted: the minimum is inclusive. */
  lemma EqualDatesAccepted(lib: Lib, params: Json)
    requires params.JObj? && "startDate" in params.fields && "endDate" in params.fields
    requires lib.toDate(params.fields["startDate"]).Some?
    requires lib.toDate(params.fields["endDate"]) == lib.toDate(params.fields["startDate"])
    ensures PeriodSchema(lib, params).Valid?
    ensures PeriodSchema(lib, params).value.start == PeriodSchema(lib, params).value.end
  {
  }

  /** `movementDateSchema`: `movementDate` a required date. */
  function DateSchema(lib: Lib, params: Json): (r: Validation<int>)
    ensures r.Valid? <==> params.JObj? && DateField(lib, params.fields, "movementDate", NoBound)
    ensures r.Valid? ==> r.value == lib.toDate(params.fields["movementDate"]).value
  {
    var f :- Fields(params);
    ReqDate(lib, f, "movementDate", NoBound, NoMessages)
  }

  datatype CreateBody = CreateBody(user: string, movementDate: int)

  /**
   * `createMovementSchema`: `userId` trimmed and a UUID ("Invalid User
   * Id"), then `movementDate` a required date not after `now`.
   */
  function CreateSchema(lib: Lib, now: int, body: Json): (r: Validation<CreateBody>)
    ensures r.Valid? <==>
      && body.JObj?
      && UuidField(lib, body.fields, "userId")
      && DateField(lib, body.fields, "movementDate", NotAfter(now))
    ensures r.Valid? ==>
      && r.value.user == Strings.Trim(body.fields["userId"].s)
      && r.value.movementDate == lib.toDate(body.fields["movementDate"]).value
      && r.value.movementDate <= now
  {
    var f :- Fields(body);
    var user :- ReqUuid(lib, f, "userId", "Invalid User Id");
    var date :- ReqDate(lib, f, "movementDate", NotAfter(now), NoMessages);
    Valid(CreateBody(user, date))
  }

  datatype UpdateBody = UpdateBody(user: string, movementDate: int, isActive: bool)

  /** `updateMovementSchema`: the create rules, then `isActive` a required boolean. */
  function UpdateSchema(lib: Lib, now: int, body: Json): (r: Validation<UpdateBody>)
    ensures r.Valid? <==>
      && body.JObj?
      && UuidField(lib, body.fields, "userId")
      && DateField(lib, body.fields, "movementDate", NotAfter(now))
      && "isActive" in body.fields && BoolValue("isActive", body.fields["isActive"]).Valid?
    ensures r.Valid? ==>
      && r.value.user == Strings.Trim(body.fields["userId"].s)
      && r.value.movementDate == lib.toDate(body.fields["movementDate"]).value
      && r.value.movementDate <= now
      && r.value.isActive == BoolValue("isActive", body.fields["isActive"]).value
  {
    var f :- Fields(body);
    var user :- ReqUuid(lib, f, "userId", "Invalid User Id");
    var date :- ReqDate(lib, f, "movementDate", NotAfter(now), NoMessages);
    var active :- ReqBool(f, "isActive");
    Valid(UpdateBody(user, date, active))
  }
}
