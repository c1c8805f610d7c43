/**
 * The part of Joi (v17) the schemas of this API use: object schemas whose
 * keys are validated in declaration order and stop at the first error
 * (`abortEarly`), and string, number, boolean and date keys with the rules
 * `trim`, `min`, `max`, `uuid`, `email`, `pattern`, `allow("")`,
 * `required`/`optional` and `.messages()` overrides.
 *
 * UUID and e-mail syntax, number parsing and date parsing are library
 * behaviour this model does not open up; they are the oracles in `Lib`.
 * A message that a schema does not override is represented by its error
 * code ("string.max"), an overridden one by the schema's own text.
 */
module Joi {
  import opened Wrappers
  import opened Strings

  /** A parsed JSON value, as Express hands it to a handler. */
  datatype Json =
    | JNull
    | JBool(b: bool)
    | JNum(n: real)
    | JStr(s: string)
    | JArr(items: seq<Json>)
    | JObj(fields: map<string, Json>)

  /** The library predicates and conversions the model takes as given. */
  datatype Lib = Lib(
    isUuid: string -> bool,
    isEmail: string -> bool,
    toNumber: string -> Option<real>,
    toDate: Json -> Option<int>)

  /** One entry of `error.details`: where the value failed and the message to show. */
  datatype Detail = Detail(path: seq<string>, code: string, message: string)

  /**
   * The outcome of `schema.validate(value)`: the converted value, or the
   * error details, of which there is at least one.
   */
  datatype Validation<+T> = Valid(value: T) | Invalid(first: Detail, rest: seq<Detail>)
  {
    predicate IsFailure() {
      Invalid?
    }

    function PropagateFailure<U>(): Validation<U>
      requires Invalid?
    {
      Invalid(first, rest)
    }

    function Extract(): T
      requires Valid?
    {
      value
    }
  }

  /** The overrides passed to `.messages({...})`, by error code. */
  type Messages = map<string, string>

  const NoMessages: Messages := map[]

  function Message(code: string, custom: Messages): (m: string)
    ensures code in custom ==> m == custom[code]
    ensures code !in custom ==> m == code
  {
    if code in custom then custom[code] else code
  }

  /** The single detail `abortEarly` reports for a failing key. */
  function Fail<T>(key: string, code: string, custom: Messages): (r: Validation<T>)
    ensures r.Invalid? && r.first.path == [key] && r.first.code == code && r.rest == []
    ensures r.first.message == Message(code, custom)
  {
    Invalid(Detail([key], code, Message(code, custom)), [])
  }

  /** The string rules, in the order they were chained. */
  datatype StrRule =
    | MinLength(min: nat)
    | MaxLength(max: nat)
    | Guid
    | Email
    | Pattern(matches: string -> bool)

  function RuleCode(rule: StrRule): string {
    match rule
    case MinLength(_) => "string.min"
    case MaxLength(_) => "string.max"
    case Guid => "string.guid"
    case Email => "string.email"
    case Pattern(_) => "string.pattern.base"
  }

  predicate RuleHolds(lib: Lib, rule: StrRule, s: string) {
    match rule
    case MinLength(n) => |s| >= n
    case MaxLength(n) => |s| <= n
    case Guid => lib.isUuid(s)
    case Email => lib.isEmail(s)
    case Pattern(m) => m(s)
  }

  predicate AllHold(lib: Lib, rules: seq<StrRule>, s: string) {
    forall i :: 0 <= i < |rules| ==> RuleHolds(lib, rules[i], s)
  }

  /** The index of the first rule that `s` breaks, if any. */
  function FirstBroken(lib: Lib, rules: seq<StrRule>, s: string): (r: Option<nat>)
    ensures r.None? <==> AllHold(lib, rules, s)
    ensures r.Some? ==> r.value < |rules| && !RuleHolds(lib, rules[r.value], s)
    ensures r.Some? ==> forall i :: 0 <= i < r.value ==> RuleHolds(lib, rules[i], s)
  {
    if rules == [] then None
    else if !RuleHolds(lib, rules[0], s) then Some(0)
    else
      match FirstBroken(lib, rules[1..], s)
      case None => None
      case Some(i) => Some(i + 1)
  }

  /** `Joi.string()` with its flags and rules. */
  datatype StrSpec = StrSpec(trim: bool, allowEmpty: bool, rules: seq<StrRule>, custom: Messages)

  /** What the value of a string key becomes after conversion. */
  function Converted(spec: StrSpec, s: string): string {
    if spec.trim then Trim(s) else s
  }

  /** The string a key is accepted with: converted, non-empty unless allowed, every rule holding. */
  predicate StrAccepts(lib: Lib, spec: StrSpec, s: string) {
    var t := Converted(spec, s);
    if t == [] then spec.allowEmpty else AllHold(lib, spec.rules, t)
  }

  /**
   * A present string key: not a string gives `string.base`; the value is
   * trimmed if asked; an empty result is accepted when `allow("")` was
   * given (allowed values skip the rules) and otherwise gives
   * `string.empty`; then the first broken rule, in chain order, reports.
   */
  function StrValue(lib: Lib, key: string, v: Json, spec: StrSpec): (r: Validation<string>)
    ensures r.Valid? <==> v.JStr? && StrAccepts(lib, spec, v.s)
    ensures r.Valid? ==> r.value == Converted(spec, v.s)
    ensures r.Invalid? ==> r.first.path == [key] && r.rest == []
    ensures !v.JStr? ==> r.Invalid? && r.first.code == "string.base"
    ensures v.JStr? && Converted(spec, v.s) == [] && !spec.allowEmpty ==>
      r.Invalid? && r.first.code == "string.empty"
    ensures r.Invalid? ==> r.first.message == Message(r.first.code, spec.custom)
  {
    if !v.JStr? then Fail(key, "string.base", spec.custom)
    else
      var t := Converted(spec, v.s);
      if t == [] then
        if spec.allowEmpty then Valid(t) else Fail(key, "string.empty", spec.custom)
      else
        match FirstBroken(lib, spec.rules, t)
        case None => Valid(t)
        case Some(i) => Fail(key, RuleCode(spec.rules[i]), spec.custom)
  }

  /** A `.required()` string key: a missing key gives `any.required`. */
  function ReqStr(lib: Lib, f: map<string, Json>, key: string, spec: StrSpec): (r: Validation<string>)
    ensures key !in f ==> r == Fail(key, "any.required", spec.custom)
    ensures key in f ==> r == StrValue(lib, key, f[key], spec)
  {
    if key !in f then Fail(key, "any.required", spec.custom) else StrValue(lib, key, f[key], spec)
  }

  /** An optional string key: a missing key is accepted as absent. */
  function OptStr(lib: Lib, f: map<string, Json>, key: string, spec: StrSpec): (r: Validation<Option<string>>)
    ensures key !in f ==> r == Valid(None)
    ensures key in f ==> (r.Valid? <==> StrValue(lib, key, f[key], spec).Valid?)
    ensures key in f && r.Valid? ==> r.value == Some(StrValue(lib, key, f[key], spec).value)
    ensures key in f && r.Invalid? ==> r.first == StrValue(lib, key, f[key], spec).first && r.rest == []
  {
    if key !in f then Valid(None)
    else
      var s :- StrValue(lib, key, f[key], spec);
      Valid(Some(s))
  }

  /** `Number.MAX_SAFE_INTEGER`, the largest integer a double holds exactly. */
  const MaxSafeInteger: real := 9007199254740991.0

  /** Joi refuses a number outside the safe-integer range unless `.unsafe()` is given. */
  predicate Safe(n: real) {
    -MaxSafeInteger <= n <= MaxSafeInteger
  }

  /**
   * `Joi.number()`, with an optional `.min()`: numbers pass, strings are
   * converted when they parse, anything else gives `number.base`; a value
   * outside the safe-integer range gives `number.unsafe` before `.min()`
   * is tried.
   */
  function NumValue(lib: Lib, key: string, v: Json, min: Option<real>): (r: Validation<real>)
    ensures v.JNum? ==> (r.Valid? <==> Safe(v.n) && (min.None? || v.n >= min.value))
    ensures v.JNum? && r.Valid? ==> r.value == v.n
    ensures v.JNum? && !Safe(v.n) ==> r == Fail(key, "number.unsafe", NoMessages)
    ensures v.JNum? && Safe(v.n) && min.Some? && v.n < min.value ==> r == Fail(key, "number.min", NoMessages)
    ensures !v.JNum? && !v.JStr? ==> r == Fail(key, "number.base", NoMessages)
    ensures r.Valid? ==> Safe(r.value)
    ensures r.Valid? && min.Some? ==> r.value >= min.value
    ensures r.Invalid? ==> r.first.path == [key] && r.rest == []
  {
    var n :-
      match v
      case JNum(n) => Valid(n)
      case JStr(s) =>
        (match lib.toNumber(s)
         case Some(n) => Valid(n)
         case None => Fail(key, "number.base", NoMessages))
      case _ => Fail(key, "number.base", NoMessages);
    if !Safe(n) then Fail(key, "number.unsafe", NoMessages)
    else if min.Some? && n < min.value then Fail(key, "number.min", NoMessages)
    else Valid(n)
  }

  function ReqNum(lib: Lib, f: map<string, Json>, key: string, min: Option<real>): (r: Validation<real>)
    ensures key !in f ==> r == Fail(key, "any.required", NoMessages)
    ensures key in f ==> r == NumValue(lib, key, f[key], min)
  {
    if key !in f then Fail(key, "any.required", NoMessages) else NumValue(lib, key, f[key], min)
  }

  function LowerChar(c: char): (l: char)
    ensures 'A' <= c <= 'Z' ==> l as int == c as int + 32
    ensures !('A' <= c <= 'Z') ==> l == c
  {
    if 'A' <= c <= 'Z' then (c as int + 32) as char else c
  }

  function Lower(s: string): (r: string)
    ensures |r| == |s|
    ensures forall i :: 0 <= i < |s| ==> r[i] == LowerChar(s[i])
  {
    if s == [] then [] else [LowerChar(s[0])] + Lower(s[1..])
  }

  /**
   * `Joi.boolean()`: booleans pass, the strings "true" and "false" in any
   * letter case are converted, anything else gives `boolean.base`.
   */
  function BoolValue(key: string, v: Json): (r: Validation<bool>)
    ensures v.JBool? ==> r == Valid(v.b)
    ensures v.JStr? && v.s == "true" ==> r == Valid(true)
    ensures v.JStr? && v.s == "false" ==> r == Valid(false)
    ensures v.JStr? ==> (r.Valid? <==> Lower(v.s) == "true" || Lower(v.s) == "false")
    ensures v.JStr? && r.Valid? ==> r.value == (Lower(v.s) == "true")
    ensures !v.JBool? && !v.JStr? ==> r == Fail(key, "boolean.base", NoMessages)
    ensures r.Invalid? ==> r == Fail(key, "boolean.base", NoMessages)
  {
    match v
    case JBool(b) => Valid(b)
    case JStr(s) =>
      if Lower(s) == "true" then Valid(true)
      else if Lower(s) == "false" then Valid(false)
      else Fail(key, "boolean.base", NoMessages)
    case _ => Fail(key, "boolean.base", NoMessages)
  }

  function ReqBool(f: map<string, Json>, key: string): (r: Validation<bool>)
    ensures key !in f ==> r == Fail(key, "any.required", NoMessages)
    ensures key in f ==> r == BoolValue(key, f[key])
  {
    if key !in f then Fail(key, "any.required", NoMessages) else BoolValue(key, f[key])
  }

  /** The limit of `Joi.date()`: none, `.min(t)` (not before t) or `.max(t)` (not after t). */
  datatype DateBound = NoBound | NotBefore(earliest: int) | NotAfter(latest: int)

  predicate WithinBound(t: int, bound: DateBound) {
    match bound
    case NoBound => true
    case NotBefore(e) => t >= e
    case NotAfter(l) => t <= l
  }

  /**
   * `Joi.date()` with its bound: a value that does not convert gives
   * `date.base`; one before `.min` gives `date.min`, one after `.max`
   * gives `date.max`; both limits are inclusive.
   */
  function DateValue(lib: Lib, key: string, v: Json, bound: DateBound, custom: Messages): (r: Validation<int>)
    ensures r.Valid? <==> lib.toDate(v).Some? && WithinBound(lib.toDate(v).value, bound)
    ensures r.Valid? ==> r.value == lib.toDate(v).value
    ensures lib.toDate(v).None? ==> r == Fail(key, "date.base", custom)
    ensures lib.toDate(v).Some? && bound.NotBefore? && lib.toDate(v).value < bound.earliest ==>
      r == Fail(key, "date.min", custom)
    ensures lib.toDate(v).Some? && bound.NotAfter? && lib.toDate(v).value > bound.latest ==>
      r == Fail(key, "date.max", custom)
  {
    match lib.toDate(v)
    case None => Fail(key, "date.base", custom)
    case Some(t) =>
      match bound
      case NoBound => Valid(t)
      case NotBefore(e) => if t < e then Fail(key, "date.min", custom) else Valid(t)
      case NotAfter(l) => if t > l then Fail(key, "date.max", custom) else Valid(t)
  }

  /** The key is present and parses as a date within the bound. */
  predicate DateField(lib: Lib, f: map<string, Json>, key: string, bound: DateBound) {
    key in f && lib.toDate(f[key]).Some? && WithinBound(lib.toDate(f[key]).value, bound)
  }

  function ReqDate(lib: Lib, f: map<string, Json>, key: string, bound: DateBound, custom: Messages): (r: Validation<int>)
    ensures key !in f ==> r == Fail(key, "any.required", custom)
    ensures key in f ==> r == DateValue(lib, key, f[key], bound, custom)
  {
    if key !in f then Fail(key, "any.required", custom) else DateValue(lib, key, f[key], bound, custom)
  }

  /** `Joi.object({...})` on a value that is not an object reports `object.base` at the root. */
  function Fields(v: Json): (r: Validation<map<string, Json>>)
    ensures v.JObj? ==> r == Valid(v.fields)
    ensures !v.JObj? ==> r == Invalid(Detail([], "object.base", "object.base"), [])
  {
    if v.JObj? then Valid(v.fields) else Invalid(Detail([], "object.base", "object.base"), [])
  }

  /**
   * A route parameter `id` checked by a params schema: Express always
   * supplies it as a string, so only the string rules can fail.
   */
  function IdParam(lib: Lib, raw: string, spec: StrSpec): (r: Validation<string>)
    ensures r.Valid? <==> StrAccepts(lib, spec, raw)
    ensures r.Valid? ==> r.value == Converted(spec, raw)
    ensures r.Invalid? ==> r.first.path == ["id"] && r.rest == []
  {
    StrValue(lib, "id", JStr(raw), spec)
  }

  /** `Joi.string().uuid().required()`: the inline params schemas of the older routes. */
  const PlainUuid := StrSpec(false, false, [Guid], NoMessages)

  /** `Joi.string().trim().uuid().messages({"string.guid": text})`. */
  function TrimmedUuid(text: string): StrSpec {
    StrSpec(true, false, [Guid], map["string.guid" := text])
  }

  /** `Joi.string().trim().min(1).max(n)`. */
  function Bounded(n: nat): StrSpec {
    StrSpec(true, false, [MinLength(1), MaxLength(n)], NoMessages)
  }

  /** `Joi.string().trim().max(n).allow("")`. */
  function BoundedOrEmpty(n: nat): StrSpec {
    StrSpec(true, true, [MaxLength(n)], NoMessages)
  }

  /** The key is present and its trimmed string value has 1 to n characters. */
  predicate BoundedField(f: map<string, Json>, key: string, n: nat) {
    key in f && f[key].JStr? && 1 <= |Trim(f[key].s)| <= n
  }

  /**
   * A `.trim().min(1).max(n)` key is accepted exactly when its trimmed
   * value has 1 to n characters, and it is stored trimmed.
   */
  lemma BoundedAccepts(lib: Lib, key: string, v: Json, n: nat)
    ensures StrValue(lib, key, v, Bounded(n)).Valid? <==>
      v.JStr? && 1 <= |Trim(v.s)| <= n
    ensures StrValue(lib, key, v, Bounded(n)).Valid? ==>
      var s := StrValue(lib, key, v, Bounded(n)).value;
      s == Trim(v.s) && Trimmed(s)
    ensures v.JStr? && |Trim(v.s)| > n ==> StrValue(lib, key, v, Bounded(n)).first.code == "string.max"
  {
    if v.JStr? && Trim(v.s) != [] {
      var rules := Bounded(n).rules;
      assert AllHold(lib, rules, Trim(v.s)) <==> |Trim(v.s)| <= n by {
        assert RuleHolds(lib, rules[0], Trim(v.s));
        if |Trim(v.s)| > n {
          assert !RuleHolds(lib, rules[1], Trim(v.s));
        }
      }
      if |Trim(v.s)| > n {
        assert FirstBroken(lib, rules, Trim(v.s)) == Some(1);
      }
    }
  }

  /**
   * A `.trim().uuid()` key is accepted exactly when its trimmed value is a
   * UUID; otherwise the schema's own text is the message (a value that is
   * blank after trimming reports `string.empty` instead).
   */
  lemma TrimmedUuidAccepts(lib: Lib, key: string, v: Json, text: string)
    ensures StrValue(lib, key, v, TrimmedUuid(text)).Valid? <==>
      v.JStr? && Trim(v.s) != [] && lib.isUuid(Trim(v.s))
    ensures v.JStr? && Trim(v.s) != [] && !lib.isUuid(Trim(v.s)) ==>
      StrValue(lib, key, v, TrimmedUuid(text)).first.message == text
  {
    if v.JStr? && Trim(v.s) != [] && !lib.isUuid(Trim(v.s)) {
      assert !RuleHolds(lib, TrimmedUuid(text).rules[0], Trim(v.s));
    }
  }
  /** A required `.trim().min(1).max(n)` key. */
  function ReqBounded(lib: Lib, f: map<string, Json>, key: string, n: nat): (r: Validation<string>)
    ensures r.Valid? <==> BoundedField(f, key, n)
    ensures r.Valid? ==> r.value == Trim(f[key].s) && Trimmed(r.value) && 1 <= |r.value| <= n
    ensures r.Invalid? ==> r.first.path == [key] && r.rest == []
  {
    if key in f then
      BoundedAccepts(lib, key, f[key], n);
      ReqStr(lib, f, key, Bounded(n))
    else
      ReqStr(lib, f, key, Bounded(n))
  }

  /** An optional `.trim().min(1).max(n)` key. */
  function OptBounded(lib: Lib, f: map<string, Json>, key: string, n: nat): (r: Validation<Option<string>>)
    ensures r.Valid? <==> key !in f || BoundedField(f, key, n)
    ensures r.Valid? ==> r.value == if key in f then Some(Trim(f[key].s)) else None
    ensures r.Valid? && r.value.Some? ==> Trimmed(r.value.value) && 1 <= |r.value.value| <= n
    ensures r.Invalid? ==> r.first.path == [key] && r.rest == []
  {
    if key in f then
      BoundedAccepts(lib, key, f[key], n);
      OptStr(lib, f, key, Bounded(n))
    else
      OptStr(lib, f, key, Bounded(n))
  }

  /** An optional `.trim().max(n).allow("")` key: blank is accepted as the empty string. */
  function OptBoundedOrEmpty(lib: Lib, f: map<string, Json>, key: string, n: nat): (r: Validation<Option<string>>)
    ensures r.Valid? <==> key !in f || (f[key].JStr? && |Trim(f[key].s)| <= n)
    ensures r.Valid? ==> r.value == if key in f then Some(Trim(f[key].s)) else None
    ensures r.Invalid? ==> r.first.path == [key] && r.rest == []
  {
    if key in f && f[key].JStr? && Trim(f[key].s) != [] then
      var rules := BoundedOrEmpty(n).rules;
      assert AllHold(lib, rules, Trim(f[key].s)) <==> RuleHolds(lib, rules[0], Trim(f[key].s));
      OptStr(lib, f, key, BoundedOrEmpty(n))
    else
      OptStr(lib, f, key, BoundedOrEmpty(n))
  }

  /** The key is present and its trimmed string value is a non-empty UUID. */
  predicate UuidField(lib: Lib, f: map<string, Json>, key: string) {
    key in f && f[key].JStr? && Trim(f[key].s) != [] && lib.isUuid(Trim(f[key].s))
  }

  /** A required `.trim().uuid()` key with its own "string.guid" text. */
  function ReqUuid(lib: Lib, f: map<string, Json>, key: string, text: string): (r: Validation<string>)
    ensures r.Valid? <==> UuidField(lib, f, key)
    ensures r.Valid? ==> r.value == Trim(f[key].s)
    ensures r.Invalid? ==> r.first.path == [key] && r.rest == []
    ensures key in f && f[key].JStr? && Trim(f[key].s) != [] && !lib.isUuid(Trim(f[key].s)) ==>
      r.first.message == text
  {
    if key in f then
      TrimmedUuidAccepts(lib, key, f[key], text);
      ReqStr(lib, f, key, TrimmedUuid(text))
    else
      ReqStr(lib, f, key, TrimmedUuid(text))
  }

  /** An optional `.trim().uuid()` key with its own "string.guid" text. */
  function OptUuid(lib: Lib, f: map<string, Json>, key: string, text: string): (r: Validation<Option<string>>)
    ensures r.Valid? <==> key !in f || UuidField(lib, f, key)
    ensures r.Valid? ==> r.value == if key in f then Some(Trim(f[key].s)) else None
    ensures r.Invalid? ==> r.first.path == [key] && r.rest == []
  {
    if key in f then
      TrimmedUuidAccepts(lib, key, f[key], text);
      OptStr(lib, f, key, TrimmedUuid(text))
    else
      OptStr(lib, f, key, TrimmedUuid(text))
  }

  /** The key is present and its string value, as given, is a non-empty UUID. */
  predicate RawUuidField(lib: Lib, f: map<string, Json>, key: string) {
    key in f && f[key].JStr? && f[key].s != [] && lib.isUuid(f[key].s)
  }

  /** A required `.uuid()` key without `.trim()`, with the overrides `custom`. */
  function ReqRawUuid(lib: Lib, f: map<string, Json>, key: string, custom: Messages): (r: Validation<string>)
    ensures r.Valid? <==> RawUuidField(lib, f, key)
    ensures r.Valid? ==> r.value == f[key].s
    ensures r.Invalid? ==> r.first.path == [key] && r.rest == []
    ensures r.Invalid? ==> r.first.message == Message(r.first.code, custom)
    ensures key in f && f[key].JStr? && f[key].s != [] && !lib.isUuid(f[key].s) ==>
      r.first.code == "string.guid"
  {
    var spec := StrSpec(false, false, [Guid], custom);
    if key in f && f[key].JStr? && f[key].s != [] then
      assert AllHold(lib, spec.rules, f[key].s) <==> RuleHolds(lib, spec.rules[0], f[key].s);
      ReqStr(lib, f, key, spec)
    else
      ReqStr(lib, f, key, spec)
  }

  /** The key is present and its trimmed string value is a non-empty e-mail address. */
  predicate EmailField(lib: Lib, f: map<string, Json>, key: string) {
    key in f && f[key].JStr? && Trim(f[key].s) != [] && lib.isEmail(Trim(f[key].s))
  }

  /** A required `.trim().email()` key. */
  function ReqEmail(lib: Lib, f: map<string, Json>, key: string): (r: Validation<string>)
    ensures r.Valid? <==> EmailField(lib, f, key)
    ensures r.Valid? ==> r.value == Trim(f[key].s)
    ensures r.Invalid? ==> r.first.path == [key] && r.rest == []
  {
    var spec := StrSpec(true, false, [Email], NoMessages);
    if key in f && f[key].JStr? && Trim(f[key].s) != [] then
      assert AllHold(lib, spec.rules, Trim(f[key].s)) <==> RuleHolds(lib, spec.rules[0], Trim(f[key].s));
      ReqStr(lib, f, key, spec)
    else
      ReqStr(lib, f, key, spec)
  }
}
