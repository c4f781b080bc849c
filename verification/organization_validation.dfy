/** Validation and sanitisation of the body of a create request. */
module Validation {
  import opened Wrappers
  import opened Text
  import opened JsonValue
  import opened Dto

  /** The violations the validator reports, in the order it checks them. */
  datatype ValidationError =
    | InvalidBody
    | NameRequired
    | EmailNotString
    | EmailFormat
    | LicenseNotString
    | ActiveNotBoolean

  /** The message the source pushes for each violation. */
  function Message(e: ValidationError): string {
    match e
    case InvalidBody => "Invalid request body"
    case NameRequired => "Name is required and must be a non-empty string"
    case EmailNotString => "Email must be a string"
    case EmailFormat => "Email must have a valid format"
    case LicenseNotString => "License must be a string"
    case ActiveNotBoolean => "Active must be a boolean"
  }

  function Messages(errors: seq<ValidationError>): (r: seq<string>)
    ensures |r| == |errors|
    ensures forall i | 0 <= i < |errors| :: r[i] == Message(errors[i])
  {
    seq(|errors|, i requires 0 <= i < |errors| => Message(errors[i]))
  }

  datatype ValidationResult = ValidationResult(isValid: bool, errors: seq<ValidationError>)

  // ---------------------------------------------------------------------
  // The e-mail pattern

  /** One `[^\s@]+` run of the pattern. */
  predicate IsSegment(t: string) {
    |t| > 0 && forall c | c in t :: !IsWhitespace(c) && c != '@'
  }

  /** `s` matches `^[^\s@]+@[^\s@]+\.[^\s@]+$`, split at the `@` (index `i`)
      and at the literal `.` (index `j`). */
  predicate MatchesEmailPatternAt(s: string, i: int, j: int) {
    0 <= i < j < |s| && s[i] == '@' && s[j] == '.'
    && IsSegment(s[..i]) && IsSegment(s[i + 1..j]) && IsSegment(s[j + 1..])
  }

  predicate MatchesEmailPattern(s: string) {
    exists i, j | 0 <= i < j < |s| :: MatchesEmailPatternAt(s, i, j)
  }

  /** The same shape said in words: no whitespace anywhere, a single `@` that
      is not the first character, and a `.` in the domain that is neither
      the domain's first nor its last character. */
  predicate IsWellFormedEmail(s: string) {
    (forall k | 0 <= k < |s| :: !IsWhitespace(s[k]))
    && exists i | 0 < i < |s| :: s[i] == '@' && OnlyAtSign(s, i) && HasInnerDot(s, i)
  }

  predicate OnlyAtSign(s: string, i: int) {
    forall k | 0 <= k < |s| && k != i :: s[k] != '@'
  }

  predicate HasInnerDot(s: string, i: int) {
    exists j | 0 <= i + 1 < j < |s| - 1 :: s[j] == '.'
  }

  lemma EmailPatternIsWellFormedEmail(s: string)
    ensures MatchesEmailPattern(s) <==> IsWellFormedEmail(s)
  {
    if MatchesEmailPattern(s) {
      var i, j :| 0 <= i < j < |s| && MatchesEmailPatternAt(s, i, j);
      forall k | 0 <= k < |s| && k != i
        ensures !IsWhitespace(s[k]) && (k != j ==> s[k] != '@')
      {
        if k < i {
          assert s[k] in s[..i];
        } else if i < k < j {
          assert s[k] == s[i + 1..j][k - i - 1];
        } else if j < k {
          assert s[k] == s[j + 1..][k - j - 1];
        }
      }
      assert s[..i][0] == s[0];
      assert s[i + 1..j][0] == s[i + 1];
      assert s[j + 1..][0] == s[j + 1];
      assert !IsWhitespace(s[i]);
      assert OnlyAtSign(s, i);
      assert HasInnerDot(s, i);
    }
    if IsWellFormedEmail(s) {
      var i :| 0 < i < |s| && s[i] == '@' && OnlyAtSign(s, i) && HasInnerDot(s, i);
      var j :| i + 1 < j < |s| - 1 && s[j] == '.';
      forall c | c in s[..i] ensures !IsWhitespace(c) && c != '@' {
        var k :| 0 <= k < i && s[..i][k] == c;
        assert s[k] == c;
      }
      forall c | c in s[i + 1..j] ensures !IsWhitespace(c) && c != '@' {
        var k :| 0 <= k < j - i - 1 && s[i + 1..j][k] == c;
        assert s[i + 1 + k] == c;
      }
      forall c | c in s[j + 1..] ensures !IsWhitespace(c) && c != '@' {
        var k :| 0 <= k < |s| - j - 1 && s[j + 1..][k] == c;
        assert s[j + 1 + k] == c;
      }
      assert MatchesEmailPatternAt(s, i, j);
    }
  }

  // ---------------------------------------------------------------------
  // Validation

  /** `!data || typeof data !== 'object'` is false: arrays and objects. */
  predicate IsRequestObject(data: Json) {
    data.Array? || data.Object?
  }

  function NameErrors(data: Json): seq<ValidationError> {
    match Field(data, "name")
    case Some(Str(s)) => if Trim(s) != "" then [] else [NameRequired]
    case _ => [NameRequired]
  }

  function EmailErrors(data: Json): seq<ValidationError> {
    match Field(data, "email")
    case None => []
    case Some(Str(s)) =>
      if Trim(s) != "" && !MatchesEmailPattern(Trim(s)) then [EmailFormat] else []
    case Some(_) => [EmailNotString]
  }

  function LicenseErrors(data: Json): seq<ValidationError> {
    match Field(data, "license")
    case None => []
    case Some(Str(_)) => []
    case Some(_) => [LicenseNotString]
  }

  function ActiveErrors(data: Json): seq<ValidationError> {
    match Field(data, "active")
    case None => []
    case Some(Bool(_)) => []
    case Some(_) => [ActiveNotBoolean]
  }

  /** The result `validateCreateOrganization` produces for `data`. */
  function Validate(data: Json): ValidationResult {
    if !IsRequestObject(data) then
      ValidationResult(false, [InvalidBody])
    else
      var errors := NameErrors(data) + EmailErrors(data) + LicenseErrors(data) + ActiveErrors(data);
      ValidationResult(|errors| == 0, errors)
  }

  /** Checks the body field by field, pushing one message per violated rule. */
  method ValidateCreateOrganization(data: Json) returns (result: ValidationResult)
    ensures result == Validate(data)
    ensures result.isValid <==> result.errors == []
    ensures !IsRequestObject(data) ==> result.errors == [InvalidBody]
  {
    var errors: seq<ValidationError> := [];
    if !IsRequestObject(data) {
      return ValidationResult(false, [InvalidBody]);
    }
    var name := Field(data, "name");
    if !(name.Some? && name.value.Str? && Trim(name.value.s) != "") {
      errors := errors + [NameRequired];
    }
    assert errors == NameErrors(data);
    var email := Field(data, "email");
    if email.Some? {
      if !email.value.Str? {
        errors := errors + [EmailNotString];
      } else if Trim(email.value.s) != "" {
        if !MatchesEmailPattern(Trim(email.value.s)) {
          errors := errors + [EmailFormat];
        }
      }
    }
    assert errors == NameErrors(data) + EmailErrors(data);
    var license := Field(data, "license");
    if license.Some? && !license.value.Str? {
      errors := errors + [LicenseNotString];
    }
    assert errors == NameErrors(data) + EmailErrors(data) + LicenseErrors(data);
    var active := Field(data, "active");
    if active.Some? && !active.value.Bool? {
      errors := errors + [ActiveNotBoolean];
    }
    result := ValidationResult(|errors| == 0, errors);
  }

  // ---------------------------------------------------------------------
  // What the rules mean

  /** `TrimSpec` for a string field. */
  lemma TrimField(data: Json, key: string)
    ensures StringField(data, key).Some? ==>
      var s := StringField(data, key).value;
      IsTrimmed(Trim(s)) && (Trim(s) == [] <==> AllWhitespace(s))
  {
    if StringField(data, key).Some? {
      TrimSpec(StringField(data, key).value);
    }
  }

  predicate NameAcceptable(data: Json) {
    StringField(data, "name").Some? && !AllWhitespace(StringField(data, "name").value)
  }

  predicate EmailAcceptable(data: Json) {
    match Field(data, "email")
    case None => true
    case Some(Str(s)) => AllWhitespace(s) || IsWellFormedEmail(Trim(s))
    case Some(_) => false
  }

  predicate LicenseAcceptable(data: Json) {
    Field(data, "license").None? || Field(data, "license").value.Str?
  }

  predicate ActiveAcceptable(data: Json) {
    Field(data, "active").None? || Field(data, "active").value.Bool?
  }

  /** `EmailPatternIsWellFormedEmail` for the trimmed e-mail field. */
  lemma EmailFieldPattern(data: Json)
    ensures StringField(data, "email").Some? ==>
      var t := Trim(StringField(data, "email").value);
      MatchesEmailPattern(t) <==> IsWellFormedEmail(t)
  {
    if StringField(data, "email").Some? {
      EmailPatternIsWellFormedEmail(Trim(StringField(data, "email").value));
    }
  }

  /** The name rule rejects exactly the bodies whose name is missing, not a
      string, or blank. */
  lemma NameRule(data: Json)
    ensures NameErrors(data) == if NameAcceptable(data) then [] else [NameRequired]
  {
    TrimField(data, "name");
  }

  /** The e-mail rule: a present non-string is a type error, a present
      non-blank string that is not well formed once trimmed is a format
      error, anything else passes. */
  lemma EmailRule(data: Json)
    ensures EmailErrors(data) ==
      if EmailAcceptable(data) then []
      else if StringField(data, "email").Some? then [EmailFormat]
      else [EmailNotString]
  {
    TrimField(data, "email");
    EmailFieldPattern(data);
  }

  /** A body validates exactly when it is an object or array whose name is a
      non-blank string, whose e-mail if present is a blank or well-formed
      string, whose license if present is a string and whose active flag if
      present is a boolean. */
  lemma {:induction false} ValidIffAllRulesHold(data: Json)
    ensures Validate(data).isValid <==>
      IsRequestObject(data) && NameAcceptable(data) && EmailAcceptable(data)
      && LicenseAcceptable(data) && ActiveAcceptable(data)
  {
    NameRule(data);
    EmailRule(data);
  }

  /** Each rule reports its own message whatever the other fields hold:
      validation does not stop at the first violation. */
  lemma {:induction false} EachViolationReported(data: Json)
    requires IsRequestObject(data)
    ensures var e := Validate(data).errors;
      && (NameRequired in e <==> !NameAcceptable(data))
      && (EmailNotString in e <==> Field(data, "email").Some? && !Field(data, "email").value.Str?)
      && (EmailFormat in e <==>
            StringField(data, "email").Some? && !AllWhitespace(StringField(data, "email").value)
            && !IsWellFormedEmail(Trim(StringField(data, "email").value)))
      && (LicenseNotString in e <==> !LicenseAcceptable(data))
      && (ActiveNotBoolean in e <==> !ActiveAcceptable(data))
      && InvalidBody !in e
  {
    NameRule(data);
    EmailRule(data);
  }

  /** Position of a message in the fixed checking order. */
  function Rank(e: ValidationError): nat {
    match e
    case InvalidBody => 0
    case NameRequired => 0
    case EmailNotString => 1
    case EmailFormat => 1
    case LicenseNotString => 2
    case ActiveNotBoolean => 3
  }

  /** Messages come in the order name, email, license, active, one per field
      at most, so there are never more than four. */
  lemma ErrorsFollowFieldOrder(data: Json)
    ensures var e := Validate(data).errors;
      |e| <= 4 && forall i, j | 0 <= i < j < |e| :: Rank(e[i]) < Rank(e[j])
  {
  }

  /** An array passes the type check of the body but has no name. */
  lemma ArrayBodyLacksOnlyName(items: seq<Json>)
    ensures Validate(Array(items)) == ValidationResult(false, [NameRequired])
  {
  }

  // ---------------------------------------------------------------------
  // Sanitisation

  /** `sanitizeCreateOrganization`, called only on a body that validated. */
  function SanitizeCreateOrganization(data: Json): (dto: CreateOrganizationDto)
    requires Validate(data).isValid
    ensures StringField(data, "name").Some? && dto.name == Trim(StringField(data, "name").value)
    ensures dto.name != "" && IsTrimmed(dto.name)
    ensures dto.email.None? <==>
      StringField(data, "email").None? || AllWhitespace(StringField(data, "email").value)
    ensures dto.email.Some? ==>
      dto.email.value == Trim(StringField(data, "email").value) && dto.email.value != ""
      && IsTrimmed(dto.email.value) && IsWellFormedEmail(dto.email.value)
    ensures dto.license.None? <==>
      StringField(data, "license").None? || AllWhitespace(StringField(data, "license").value)
    ensures dto.license.Some? ==>
      dto.license.value == Trim(StringField(data, "license").value) && dto.license.value != ""
      && IsTrimmed(dto.license.value)
    ensures dto.active == Some(match Field(data, "active") case Some(Bool(b)) => b case _ => true)
  {
    ValidIffAllRulesHold(data);
    TrimField(data, "name");
    TrimField(data, "email");
    TrimField(data, "license");
    EmailFieldPattern(data);
    CreateOrganizationDto(
      match Field(data, "name") case Some(Str(s)) => Trim(s) case _ => "",
      match Field(data, "email")
        case Some(Str(s)) => if Trim(s) == "" then None else Some(Trim(s))
        case _ => None,
      match Field(data, "license")
        case Some(Str(s)) => if Trim(s) == "" then None else Some(Trim(s))
        case _ => None,
      Some(match Field(data, "active") case Some(Bool(b)) => b case _ => true))
  }
}
