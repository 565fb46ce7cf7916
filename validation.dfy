/**
 * `validateField` and `validateForm` of src/store/formStore.ts. The regular
 * expression engine behind `validation.pattern` is not modelled: the caller
 * supplies `test(pattern, text)`, standing for `new RegExp(pattern).test(text)`.
 */
module Validation {
  import opened Wrappers
  import opened FormTypes
  import opened Strings
  import FormOps

  /** The rule a value breaks; each has its own message. */
  datatype Violation = Required | TooShort(min: int) | TooLong(max: int) | BadFormat

  function Message(v: Violation): (r: string)
    ensures r == "This field is required" <==> v.Required?
    ensures r == "Invalid format" <==> v.BadFormat?
    ensures v.TooShort? ==> StartsWith(r, MinPrefix)
    ensures v.TooLong? ==> StartsWith(r, MaxPrefix)
  {
    match v
    case Required => "This field is required"
    case TooShort(n) => MinPrefix + IntToString(n) + Suffix
    case TooLong(n) => MaxPrefix + IntToString(n) + Suffix
    case BadFormat => "Invalid format"
  }

  /** The prefix and suffix around the bound in the two length messages. */
  const MinPrefix := "Minimum length is "
  const MaxPrefix := "Maximum length is "
  const Suffix := " characters"

  /** Whether `s` is `prefix`, then a decimal numeral, then `Suffix`. */
  predicate Framed(s: string, prefix: string) {
    && |s| > |prefix| + |Suffix|
    && s[..|prefix|] == prefix
    && s[|s| - |Suffix|..] == Suffix
    && IsNumeral(s[|prefix|..|s| - |Suffix|])
  }

  /** Reads a message back into the violation it reports; the inverse of `Message`. */
  function ParseMessage(s: string): Option<Violation>
  {
    if s == "This field is required" then Some(Required)
    else if s == "Invalid format" then Some(BadFormat)
    else if Framed(s, MinPrefix) then Some(TooShort(ParseInt(s[|MinPrefix|..|s| - |Suffix|])))
    else if Framed(s, MaxPrefix) then Some(TooLong(ParseInt(s[|MaxPrefix|..|s| - |Suffix|])))
    else None
  }

  /** Every message reads back as the violation it was made from, so no two violations share a message. */
  lemma ParseMessageRoundTrip(v: Violation)
    ensures ParseMessage(Message(v)) == Some(v)
  {
    match v
    case Required =>
    case BadFormat =>
    case TooShort(n) => ParseTooShort(n);
    case TooLong(n) => ParseTooLong(n);
  }

  lemma ParseTooShort(n: int)
    ensures ParseMessage(Message(TooShort(n))) == Some(TooShort(n))
  {
    var s := Message(TooShort(n));
    LengthMessageReads(MinPrefix, n);
    assert s[0] == 'M';
    assert s != "This field is required" && s != "Invalid format";
  }

  lemma ParseTooLong(n: int)
    ensures ParseMessage(Message(TooLong(n))) == Some(TooLong(n))
  {
    var s := Message(TooLong(n));
    LengthMessageReads(MaxPrefix, n);
    assert s[0] == 'M' && s[1] == 'a';
    assert s != "This field is required" && s != "Invalid format";
    assert s[..|MinPrefix|] != MinPrefix by {
      assert s[..|MinPrefix|][1] == 'a' && MinPrefix[1] == 'i';
    }
  }

  lemma LengthMessageReads(prefix: string, n: int)
    ensures var s := prefix + IntToString(n) + Suffix;
      Framed(s, prefix) && ParseInt(s[|prefix|..|s| - |Suffix|]) == n
  {
    var s := prefix + IntToString(n) + Suffix;
    assert s[|prefix|..|s| - |Suffix|] == IntToString(n);
    assert s[..|prefix|] == prefix;
    assert s[|s| - |Suffix|..] == Suffix;
    IntToStringShape(n);
    IntToStringRoundTrip(n);
  }

  /** Distinct violations have distinct messages. */
  lemma MessageInjective(v: Violation, w: Violation)
    requires Message(v) == Message(w)
    ensures v == w
  {
    ParseMessageRoundTrip(v);
    ParseMessageRoundTrip(w);
  }

  /** `!value || value.toString().trim() === ''`. */
  predicate IsBlank(v: Value) {
    match v
    case Missing => true
    case Bool(b) => !b
    case Str(s) => s == "" || Trim(s) == ""
  }

  /** A value is blank exactly when it is falsy or a string made only of whitespace. */
  lemma IsBlankMeaning(v: Value)
    ensures IsBlank(v) <==> !Truthy(v) || (v.Str? && forall i :: 0 <= i < |v.s| ==> IsJsWhitespace(v.s[i]))
  {
    if v.Str? {
      TrimEmpty(v.s);
    }
  }

  /** `value?.toString() || ''`: the text the length and pattern rules look at. */
  function TextOf(v: Value): string
  {
    match v
    case Missing => ""
    case Bool(b) => if b then "true" else "false"
    case Str(s) => s
  }

  predicate IsTextual(t: FieldType) {
    t == Text || t == Textarea
  }

  /** A numeric rule is active when it is present and truthy, that is, non-zero. */
  predicate Active(bound: Option<int>) {
    bound.Some? && bound.value != 0
  }

  /** A pattern rule is active when it is a non-empty string. */
  predicate ActivePattern(pattern: Option<string>) {
    pattern.Some? && pattern.value != ""
  }

  /**
   * The rules of a field, each on its own and in no order: the reference that
   * the ordered checks of `Check` are compared with.
   */
  predicate MeetsRules(field: FormField, v: Value, test: (string, string) -> bool) {
    && !(field.required && IsBlank(v))
    && (field.validation.Some? && IsTextual(field.fieldType) ==>
          var rule, t := field.validation.value, TextOf(v);
          && (Active(rule.minLength) ==> |t| >= rule.minLength.value)
          && (Active(rule.maxLength) ==> |t| <= rule.maxLength.value)
          && (ActivePattern(rule.pattern) ==> test(rule.pattern.value, t)))
  }

  /**
   * The checks of `validateField` in their order; the first that fails wins.
   * No violation is reported exactly when the value meets every rule;
   * "required" wins over every other rule; non-text fields and fields without
   * a `validation` block can only fail "required"; and each other violation
   * carries the bound it broke and is reported only when the earlier checks pass.
   */
  function Check(field: FormField, v: Value, test: (string, string) -> bool): (r: Option<Violation>)
    ensures r.None? <==> MeetsRules(field, v, test)
    ensures r == Some(Required) <==> field.required && IsBlank(v)
    ensures !IsTextual(field.fieldType) || field.validation.None? ==> r.None? || r == Some(Required)
    ensures r.Some? && r.value.TooShort? ==>
      && !(field.required && IsBlank(v))
      && Active(field.validation.value.minLength) && r.value.min == field.validation.value.minLength.value
      && |TextOf(v)| < r.value.min
    ensures r.Some? && r.value.TooLong? ==>
      && !(field.required && IsBlank(v))
      && !(Active(field.validation.value.minLength) && |TextOf(v)| < field.validation.value.minLength.value)
      && Active(field.validation.value.maxLength) && r.value.max == field.validation.value.maxLength.value
      && |TextOf(v)| > r.value.max
    ensures r == Some(BadFormat) ==>
      && !(field.required && IsBlank(v))
      && (Active(field.validation.value.minLength) ==> |TextOf(v)| >= field.validation.value.minLength.value)
      && (Active(field.validation.value.maxLength) ==> |TextOf(v)| <= field.validation.value.maxLength.value)
      && ActivePattern(field.validation.value.pattern)
      && !test(field.validation.value.pattern.value, TextOf(v))
  {
    if field.required && IsBlank(v) then Some(Required)
    else if field.validation.Some? && IsTextual(field.fieldType) then
      var rule, t := field.validation.value, TextOf(v);
      if Active(rule.minLength) && |t| < rule.minLength.value then Some(TooShort(rule.minLength.value))
      else if Active(rule.maxLength) && |t| > rule.maxLength.value then Some(TooLong(rule.maxLength.value))
      else if ActivePattern(rule.pattern) && !test(rule.pattern.value, t) then Some(BadFormat)
      else None
    else None
  }

  /**
   * `validateField(fieldId, value)`: no message without a form or for an id no
   * field carries; otherwise the message of the first failing check of the
   * first field (in step order, then field order) carrying that id.
   */
  function ValidateField(form: Option<Form>, fieldId: string, v: Value, test: (string, string) -> bool): (r: Option<string>)
    ensures form.None? ==> r.None?
    ensures form.Some? && FormOps.FieldIndex(AllFields(form.value.steps), fieldId) < 0 ==> r.None?
    ensures form.Some? && FormOps.FieldIndex(AllFields(form.value.steps), fieldId) >= 0 ==>
      var field := AllFields(form.value.steps)[FormOps.FieldIndex(AllFields(form.value.steps), fieldId)];
      && (r.None? <==> MeetsRules(field, v, test))
      && (r.Some? ==> r.value == Message(Check(field, v, test).value))
  {
    match form
    case None => None
    case Some(f) =>
      match FormOps.FindField(AllFields(f.steps), fieldId)
      case None => None
      case Some(field) =>
        match Check(field, v, test)
        case None => None
        case Some(violation) => Some(Message(violation))
  }

  /** The message `validateForm` records for a field id: it validates the empty string. */
  function EmptyCheck(form: Form, fieldId: string, test: (string, string) -> bool): Option<string>
  {
    ValidateField(Some(form), fieldId, Str(""), test)
  }

  /** The error map after visiting `fields` in order, writing `errors[field.id] = error` for each failure. */
  function ErrorsOf(form: Form, fields: seq<FormField>, test: (string, string) -> bool): (r: map<string, string>)
    ensures forall id {:trigger r[id]} :: id in r ==> EmptyCheck(form, id, test) == Some(r[id])
  {
    if fields == [] then map[]
    else
      var f := fields[|fields| - 1];
      var before := ErrorsOf(form, fields[..|fields| - 1], test);
      match EmptyCheck(form, f.id, test)
      case Some(msg) => before[f.id := msg]
      case None => before
  }

  /** The error map holds exactly the ids of the visited fields that fail, each with its message. */
  lemma {:induction false} ErrorsOfMeaning(form: Form, fields: seq<FormField>, test: (string, string) -> bool, id: string)
    ensures id in ErrorsOf(form, fields, test) <==> id in IdsOf(fields) && EmptyCheck(form, id, test).Some?
    ensures id in ErrorsOf(form, fields, test) ==> ErrorsOf(form, fields, test)[id] == EmptyCheck(form, id, test).value
  {
    if fields != [] {
      var init := fields[..|fields| - 1];
      ErrorsOfMeaning(form, init, test, id);
      assert IdsOf(fields) == IdsOf(init) + [fields[|fields| - 1].id];
    }
  }

  lemma ErrorsOfStep(form: Form, fields: seq<FormField>, f: FormField, test: (string, string) -> bool)
    ensures ErrorsOf(form, fields + [f], test)
         == match EmptyCheck(form, f.id, test) { case Some(msg) => ErrorsOf(form, fields, test)[f.id := msg] case None => ErrorsOf(form, fields, test) }
    ensures AllPass(form, fields + [f], test) <==> AllPass(form, fields, test) && EmptyCheck(form, f.id, test).None?
  {
    assert (fields + [f])[..|fields|] == fields;
  }

  /** Every visited field passes. */
  predicate AllPass(form: Form, fields: seq<FormField>, test: (string, string) -> bool) {
    forall k :: 0 <= k < |fields| ==> EmptyCheck(form, fields[k].id, test).None?
  }

  /**
   * The loops of `validateForm`: visit every field of every step, validate
   * the empty string against it, record each failure under the field's id and
   * clear `isValid` on the first one. The form is valid exactly when every
   * field passes, and the error map is the one `ErrorsOf` describes.
   */
  method CollectErrors(form: Form, test: (string, string) -> bool) returns (isValid: bool, errors: map<string, string>)
    ensures isValid <==> AllPass(form, AllFields(form.steps), test)
    ensures errors == ErrorsOf(form, AllFields(form.steps), test)
  {
    errors := map[];
    isValid := true;
    ghost var visited: seq<FormField> := [];
    var i := 0;
    while i < |form.steps|
      invariant 0 <= i <= |form.steps|
      invariant visited == AllFields(form.steps[..i])
      invariant errors == ErrorsOf(form, visited, test)
      invariant isValid <==> AllPass(form, visited, test)
    {
      var step := form.steps[i];
      var j := 0;
      while j < |step.fields|
        invariant 0 <= j <= |step.fields|
        invariant visited == AllFields(form.steps[..i]) + step.fields[..j]
        invariant errors == ErrorsOf(form, visited, test)
        invariant isValid <==> AllPass(form, visited, test)
      {
        var field := step.fields[j];
        ErrorsOfStep(form, visited, field, test);
        var error := EmptyCheck(form, field.id, test);
        if error.Some? {
          errors := errors[field.id := error.value];
          isValid := false;
        }
        SliceStep(AllFields(form.steps[..i]), step.fields, j);
        visited := visited + [field];
        j := j + 1;
      }
      AllFieldsStep(form.steps, i);
      i := i + 1;
    }
    assert form.steps[..i] == form.steps;
  }

  lemma SliceStep(front: seq<FormField>, s: seq<FormField>, j: nat)
    requires j < |s|
    ensures front + s[..j + 1] == (front + s[..j]) + [s[j]]
  {
    assert s[..j + 1] == s[..j] + [s[j]];
  }

  lemma AllFieldsStep(steps: seq<FormStep>, i: nat)
    requires i < |steps|
    ensures AllFields(steps[..i + 1]) == AllFields(steps[..i]) + steps[i].fields[..|steps[i].fields|]
  {
    assert steps[..i + 1][..i] == steps[..i];
    assert steps[i].fields[..|steps[i].fields|] == steps[i].fields;
  }

  /** `validateForm`'s verdict: true exactly when no field fails, i.e. when the error map is empty. */
  lemma ValidIffNoErrors(form: Form, test: (string, string) -> bool)
    ensures AllPass(form, AllFields(form.steps), test) <==> ErrorsOf(form, AllFields(form.steps), test) == map[]
  {
    var fields := AllFields(form.steps);
    var errors := ErrorsOf(form, fields, test);
    if AllPass(form, fields, test) {
      forall id
        ensures id !in errors
      {
        ErrorsOfMeaning(form, fields, test, id);
        if id in IdsOf(fields) {
          var k :| 0 <= k < |fields| && IdsOf(fields)[k] == id;
          assert fields[k].id == id;
        }
      }
      assert errors == map[];
    } else {
      var k :| 0 <= k < |fields| && EmptyCheck(form, fields[k].id, test).Some?;
      ErrorsOfMeaning(form, fields, test, fields[k].id);
      assert IdsOf(fields)[k] == fields[k].id;
    }
  }
}
