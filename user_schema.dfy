/**
 * The user schema (the inline `userSchema` of src/routes/user.ts and
 * backend/src/schemas/user/updateUserSchema.ts, which state the same
 * rules): bounded names, a trimmed e-mail, and a password that must pass
 * `min(8)`, `max(30)` and a regular expression, in that order.
 */
module UserSchema {
  import opened Wrappers
  import opened Strings
  import opened Joi

  predicate IsLower(c: char) { 'a' <= c <= 'z' }
  predicate IsUpper(c: char) { 'A' <= c <= 'Z' }
  predicate IsDigit(c: char) { '0' <= c <= '9' }

  /** The special characters `!@#$%^&*`. */
  predicate IsSpecial(c: char) {
    c == '!' || c == '@' || c == '#' || c == '$' || c == '%' || c == '^' || c == '&' || c == '*'
  }

  /** `[a-zA-Z0-9!@#$%^&*]`. */
  predicate InClass(c: char) {
    IsLower(c) || IsUpper(c) || IsDigit(c) || IsSpecial(c)
  }

  /** `(?=.*[P])` anchored at the start: a P-character occurs before the first line terminator. */
  predicate SeenBeforeLineEnd(s: string, p: char -> bool) {
    exists i :: 0 <= i < |s| && p(s[i]) && forall j :: 0 <= j < i ==> !IsLineTerminator(s[j])
  }

  /**
   * A literal reading of the password expression
   * `^(?=.*[a-z])(?=.*[A-Z])(?=.*[0-9])(?=.*[!@#$%^&*])(?!.*\s)[a-zA-Z0-9!@#$%^&*]{8,30}$`
   * with JavaScript's `.` (anything but a line terminator) and `\s`.
   */
  predicate PasswordPattern(s: string) {
    && SeenBeforeLineEnd(s, IsLower)
    && SeenBeforeLineEnd(s, IsUpper)
    && SeenBeforeLineEnd(s, IsDigit)
    && SeenBeforeLineEnd(s, IsSpecial)
    && !SeenBeforeLineEnd(s, IsJsSpace)
    && 8 <= |s| <= 30
    && forall i :: 0 <= i < |s| ==> InClass(s[i])
  }

  /**
   * The password rule in words: 8 to 30 characters, each a letter, a digit
   * or one of `!@#$%^&*`, with at least one lowercase letter, one
   * uppercase letter, one digit and one special character, and no white
   * space.
   */
  predicate CharacterClassRule(s: string) {
    && 8 <= |s| <= 30
    && (forall i :: 0 <= i < |s| ==> InClass(s[i]))
    && (exists i :: 0 <= i < |s| && IsLower(s[i]))
    && (exists i :: 0 <= i < |s| && IsUpper(s[i]))
    && (exists i :: 0 <= i < |s| && IsDigit(s[i]))
    && (exists i :: 0 <= i < |s| && IsSpecial(s[i]))
    && (forall i :: 0 <= i < |s| ==> !IsJsSpace(s[i]))
  }

  /** A string made only of class characters holds no line terminator. */
  lemma ClassHasNoLineEnd(s: string, i: nat)
    requires forall k :: 0 <= k < |s| ==> InClass(s[k])
    requires i <= |s|
    ensures forall j :: 0 <= j < i ==> !IsLineTerminator(s[j]) && !IsJsSpace(s[j])
  {
  }

  /** The regular expression accepts exactly the strings the character-class rule describes. */
  lemma PatternIsCharacterClassRule(s: string)
    ensures PasswordPattern(s) <==> CharacterClassRule(s)
  {
    if CharacterClassRule(s) {
      ClassHasNoLineEnd(s, |s|);
      var a :| 0 <= a < |s| && IsLower(s[a]);
      var b :| 0 <= b < |s| && IsUpper(s[b]);
      var c :| 0 <= c < |s| && IsDigit(s[c]);
      var d :| 0 <= d < |s| && IsSpecial(s[d]);
      assert IsLower(s[a]) && forall j :: 0 <= j < a ==> !IsLineTerminator(s[j]);
      assert IsUpper(s[b]) && forall j :: 0 <= j < b ==> !IsLineTerminator(s[j]);
      assert IsDigit(s[c]) && forall j :: 0 <= j < c ==> !IsLineTerminator(s[j]);
      assert IsSpecial(s[d]) && forall j :: 0 <= j < d ==> !IsLineTerminator(s[j]);
    }
    if PasswordPattern(s) {
      ClassHasNoLineEnd(s, |s|);
    }
  }

  /** The texts `.messages()` gives the password key. */
  const PasswordMessages: Messages := map[
    "string.pattern.base" := PatternMessage,
    "string.pattern.alphanum" := "The password must contain at least one letter",
    "string.pattern.num" := "The password must contain at least one number",
    "string.pattern.special" := "The password must contain at least one special character",
    "string.pattern.noSpaces" := "The password must not contain spaces",
    "string.max" := MaxMessage]

  /** `password`: trimmed, then `min(8)`, `max(30)` and the pattern, in chain order. */
  const PasswordSpec := StrSpec(true, false, [MinLength(8), MaxLength(30), Pattern(PasswordPattern)], PasswordMessages)

  /** The three password rules hold together exactly when the character-class rule does. */
  lemma PasswordRulesHold(lib: Lib, t: string)
    ensures AllHold(lib, PasswordSpec.rules, t) <==> CharacterClassRule(t)
  {
    var rules := PasswordSpec.rules;
    PatternIsCharacterClassRule(t);
    assert RuleHolds(lib, rules[0], t) <==> |t| >= 8;
    assert RuleHolds(lib, rules[1], t) <==> |t| <= 30;
    assert RuleHolds(lib, rules[2], t) <==> PasswordPattern(t);
  }

  /** Which password rule reports first: `max` for a long value, the pattern for a value of legal length. */
  lemma PasswordFirstBroken(lib: Lib, t: string)
    ensures |t| > 30 ==> FirstBroken(lib, PasswordSpec.rules, t) == Some(1)
    ensures 8 <= |t| <= 30 && !CharacterClassRule(t) ==> FirstBroken(lib, PasswordSpec.rules, t) == Some(2)
  {
    var rules := PasswordSpec.rules;
    PatternIsCharacterClassRule(t);
    if |t| > 30 {
      assert RuleHolds(lib, rules[0], t) && !RuleHolds(lib, rules[1], t);
    }
    if 8 <= |t| <= 30 && !CharacterClassRule(t) {
      assert RuleHolds(lib, rules[0], t) && RuleHolds(lib, rules[1], t) && !RuleHolds(lib, rules[2], t);
    }
  }

  const MaxMessage := "The password must contain at most 30 characters"
  const PatternMessage :=
    "The password must contain at least one uppercase letter, one lowercase letter, one number, one special character, and no spaces"

  /** A password is accepted exactly when its trimmed value satisfies the character-class rule. */
  lemma PasswordAccepted(lib: Lib, raw: string)
    ensures StrValue(lib, "password", JStr(raw), PasswordSpec).Valid? <==> CharacterClassRule(Trim(raw))
  {
    PasswordRulesHold(lib, Trim(raw));
  }

  /** The custom texts the two reachable password failures look up. */
  lemma PasswordMessageLookup()
    ensures Message("string.max", PasswordMessages) == MaxMessage
    ensures Message("string.pattern.base", PasswordMessages) == PatternMessage
  {
    assert "string.max" in PasswordMessages && PasswordMessages["string.max"] == MaxMessage;
    assert "string.pattern.base" in PasswordMessages && PasswordMessages["string.pattern.base"] == PatternMessage;
  }

  /** A trimmed password longer than 30 characters gets the custom length message. */
  lemma PasswordTooLong(lib: Lib, raw: string)
    requires |Trim(raw)| > 30
    ensures StrValue(lib, "password", JStr(raw), PasswordSpec) == Invalid(Detail(["password"], "string.max", MaxMessage), [])
  {
    var t := Trim(raw);
    PasswordFirstBroken(lib, t);
    assert FirstBroken(lib, PasswordSpec.rules, t) == Some(1);
    assert RuleCode(PasswordSpec.rules[1]) == "string.max";
    PasswordMessageLookup();
    assert StrValue(lib, "password", JStr(raw), PasswordSpec) == Fail("password", "string.max", PasswordMessages);
  }

  /** When the pattern is the first rule broken, the custom pattern text is the answer. */
  lemma PatternReported(lib: Lib, raw: string)
    requires Trim(raw) != [] && FirstBroken(lib, PasswordSpec.rules, Trim(raw)) == Some(2)
    ensures StrValue(lib, "password", JStr(raw), PasswordSpec) ==
      Invalid(Detail(["password"], "string.pattern.base", PatternMessage), [])
  {
    assert RuleCode(PasswordSpec.rules[2]) == "string.pattern.base";
    PasswordMessageLookup();
  }

  /** A trimmed password of 8 to 30 characters that breaks the rule gets the custom pattern message. */
  lemma PasswordBreaksPattern(lib: Lib, raw: string)
    requires 8 <= |Trim(raw)| <= 30 && !CharacterClassRule(Trim(raw))
    ensures StrValue(lib, "password", JStr(raw), PasswordSpec) ==
      Invalid(Detail(["password"], "string.pattern.base", PatternMessage), [])
  {
    PasswordFirstBroken(lib, Trim(raw));
    PatternReported(lib, raw);
  }

  /** The required `password` key. */
  function ReqPassword(lib: Lib, f: map<string, Json>): (r: Validation<string>)
    ensures r.Valid? <==> "password" in f && f["password"].JStr? && CharacterClassRule(Trim(f["password"].s))
    ensures r.Valid? ==> r.value == Trim(f["password"].s)
    ensures r.Invalid? ==> r.first.path == ["password"]
  {
    if "password" in f && f["password"].JStr? then
      PasswordAccepted(lib, f["password"].s);
      ReqStr(lib, f, "password", PasswordSpec)
    else
      ReqStr(lib, f, "password", PasswordSpec)
  }

  datatype UserBody = UserBody(firstName: string, lastName: string, email: string, password: string)

  /** The schema, keys in declaration order: firstName, lastName, email, password. */
  function UserSchema(lib: Lib, body: Json): Validation<UserBody> {
    var f :- Fields(body);
    var firstName :- ReqBounded(lib, f, "firstName", 150);
    var lastName :- ReqBounded(lib, f, "lastName", 150);
    var email :- ReqEmail(lib, f, "email");
    var password :- ReqPassword(lib, f);
    Valid(UserBody(firstName, lastName, email, password))
  }

  /**
   * What the schema accepts: both names trimmed to 1 to 150 characters, a
   * trimmed e-mail address, and a password whose trimmed value satisfies
   * the character-class rule; the values handed on are the trimmed ones.
   */
  lemma UserSchemaAccepts(lib: Lib, body: Json)
    ensures UserSchema(lib, body).Valid? <==>
      && body.JObj?
      && BoundedField(body.fields, "firstName", 150)
      && BoundedField(body.fields, "lastName", 150)
      && EmailField(lib, body.fields, "email")
      && "password" in body.fields && body.fields["password"].JStr?
      && CharacterClassRule(Trim(body.fields["password"].s))
    ensures UserSchema(lib, body).Valid? ==>
      var u := UserSchema(lib, body).value;
      && u.firstName == Trim(body.fields["firstName"].s)
      && u.lastName == Trim(body.fields["lastName"].s)
      && u.email == Trim(body.fields["email"].s)
      && u.password == Trim(body.fields["password"].s)
      && CharacterClassRule(u.password)
  {
  }
}
