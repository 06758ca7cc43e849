/** The form session: validation of the entered data against a template, the
    conditional-display decision, the field-type dispatch, the progress bar, and
    the save-draft and submit handlers that write to the response store. */
module FormViewer {
  import opened Wrappers
  import opened JsText
  import opened JsValue
  import opened FormTypes
  import opened FormResponses

  // ------------------------------------------------------------------
  // Validation rules

  /** JavaScript's `\s`: the whitespace and line-terminator code units. */
  predicate IsSpace(c: char) {
    c == '\t' || c == '\n' || c == '\U{000B}' || c == '\U{000C}' || c == '\r' || c == ' ' ||
    c == '\U{00A0}' || c == '\U{1680}' || ('\U{2000}' <= c <= '\U{200A}') ||
    c == '\U{2028}' || c == '\U{2029}' || c == '\U{202F}' || c == '\U{205F}' || c == '\U{3000}' || c == '\U{FEFF}'
  }

  predicate EmailChar(c: char) {
    !IsSpace(c) && c != '@'
  }

  /** What `/^[^\s@]+@[^\s@]+\.[^\s@]+$/` accepts: a non-empty local part, one "@",
      and a domain with a "." that has at least one character on each side; no
      whitespace and no second "@" anywhere. */
  predicate LooksLikeEmail(s: string) {
    exists at, dot :: 0 < at && at + 1 < dot && dot + 1 < |s| && s[at] == '@' && s[dot] == '.' &&
      forall k :: 0 <= k < |s| && k != at ==> EmailChar(s[k])
  }

  /** The source text `new RegExp(v)` compiles: an absent value compiles the empty
      pattern, which every string matches; anything else is converted to a string. */
  function PatternSource(v: Value): (p: string)
    ensures v.Undefined? ==> p == ""
    ensures !v.Undefined? ==> p == ToJsString(v)
  {
    if v.Undefined? then "" else ToJsString(v)
  }

  /** An accepted address has one "@", with text on both sides, no whitespace, and at
      least five characters. */
  lemma EmailShape(s: string)
    requires LooksLikeEmail(s)
    ensures |s| >= 5
    ensures forall k :: 0 <= k < |s| ==> !IsSpace(s[k])
    ensures exists at :: 0 < at < |s| - 1 && s[at] == '@' && '@' !in s[..at] && '@' !in s[at + 1..]
  {
    var at, dot :| 0 < at && at + 1 < dot && dot + 1 < |s| && s[at] == '@' && s[dot] == '.' &&
      forall k :: 0 <= k < |s| && k != at ==> EmailChar(s[k]);
    assert !IsSpace('@');
    forall i | 0 <= i < at ensures s[..at][i] != '@' {
      assert EmailChar(s[i]);
    }
    var tail := s[at + 1..];
    forall i | 0 <= i < |tail| ensures tail[i] != '@' {
      assert tail[i] == s[at + 1 + i] && EmailChar(s[at + 1 + i]);
    }
  }

  /** "a@b.c", the shortest shape the expression takes, is an address. */
  lemma ShortestEmailAccepted(s: string)
    requires s == "a@b.c"
    ensures LooksLikeEmail(s)
  {
    assert 0 < 1 && 1 + 1 < 3 && 3 + 1 < |s| && s[1] == '@' && s[3] == '.';
    forall k | 0 <= k < |s| && k != 1 ensures EmailChar(s[k]) {
      assert s[k] in "ab.c";
    }
  }

  /** Whether one validation rule adds an error for `value`. `regexTest(p, s)` stands for
      `new RegExp(p).test(s)`. */
  predicate RuleFails(rule: ValidationRule, value: Value, regexTest: (string, string) -> bool)
  {
    match rule.kind
    case MinLengthRule => value.Str? && NumLess(|value.s|, rule.value)
    case MaxLengthRule => value.Str? && NumGreater(|value.s|, rule.value)
    case MinRule => value.Num? && NumLess(value.n, rule.value)
    case MaxRule => value.Num? && NumGreater(value.n, rule.value)
    case PatternRule => value.Str? && !regexTest(PatternSource(rule.value), value.s)
    case EmailRule => value.Str? && !LooksLikeEmail(value.s)
    case _ => false
  }

  /** A pattern rule without a value compiles the empty pattern, which matches every
      string, so it never adds an error. */
  lemma AbsentPatternNeverFails(rule: ValidationRule, value: Value, regexTest: (string, string) -> bool)
    requires rule.kind == PatternRule && rule.value.Undefined?
    requires forall s :: regexTest("", s)
    ensures !RuleFails(rule, value, regexTest)
  {
  }

  /** The length and pattern rules only ever fire on strings, the bounds only on numbers,
      and `required`, `url` and `custom` rules never fire. */
  lemma RuleFailsOnlyOnItsType(rule: ValidationRule, value: Value, regexTest: (string, string) -> bool)
    requires RuleFails(rule, value, regexTest)
    ensures rule.kind in {MinLengthRule, MaxLengthRule, PatternRule, EmailRule} ==> value.Str?
    ensures rule.kind in {MinRule, MaxRule} ==> value.Num?
    ensures rule.kind !in {RequiredRule, UrlRule, CustomRule}
    ensures !IsBlank(value) || value == Str("")
  {
  }

  /** The error map after the rules `rules` of the field `name` have run in order, each
      failing rule overwriting the entry. */
  function RulesErrors(errs: map<string, string>, name: string, rules: seq<ValidationRule>, value: Value,
                       regexTest: (string, string) -> bool): map<string, string>
    decreases |rules|
  {
    if rules == [] then errs
    else
      var before := RulesErrors(errs, name, rules[..|rules| - 1], value, regexTest);
      var last := rules[|rules| - 1];
      if RuleFails(last, value, regexTest) then before[name := last.message] else before
  }

  /** The `required` message. */
  function RequiredMessage(f: Field): string {
    f.labelText + " is required"
  }

  /** One iteration of the outer `forEach` of `validateForm`. */
  function FieldErrors(errs: map<string, string>, f: Field, data: map<string, Value>,
                       regexTest: (string, string) -> bool): map<string, string>
  {
    if f.isHidden then errs
    else
      var value := Lookup(data, f.name);
      var afterRequired := if f.required && IsBlank(value) then errs[f.name := RequiredMessage(f)] else errs;
      if IsBlank(value) && !f.required then afterRequired
      else RulesErrors(afterRequired, f.name, f.validations, value, regexTest)
  }

  /** The error map `validateForm` builds for the fields in order. */
  function ValidationErrors(fields: seq<Field>, data: map<string, Value>,
                            regexTest: (string, string) -> bool): map<string, string>
    decreases |fields|
  {
    if fields == [] then map[]
    else FieldErrors(ValidationErrors(fields[..|fields| - 1], data, regexTest), fields[|fields| - 1], data, regexTest)
  }

  // ------------------------------------------------------------------
  // What the error map means

  /** Running rules only ever touches the entry of that field. */
  lemma {:induction false} RulesErrorsFrame(errs: map<string, string>, name: string, rules: seq<ValidationRule>,
                                            value: Value, regexTest: (string, string) -> bool)
    ensures RulesErrors(errs, name, rules, value, regexTest) - {name} == errs - {name}
    ensures name in errs ==> name in RulesErrors(errs, name, rules, value, regexTest)
    decreases |rules|
  {
    if rules != [] {
      RulesErrorsFrame(errs, name, rules[..|rules| - 1], value, regexTest);
    }
  }

  /** If no rule fails, the rules leave the map alone. */
  lemma {:induction false} RulesNoFailure(errs: map<string, string>, name: string, rules: seq<ValidationRule>,
                                          value: Value, regexTest: (string, string) -> bool)
    requires forall j :: 0 <= j < |rules| ==> !RuleFails(rules[j], value, regexTest)
    ensures RulesErrors(errs, name, rules, value, regexTest) == errs
    decreases |rules|
  {
    if rules != [] {
      RulesNoFailure(errs, name, rules[..|rules| - 1], value, regexTest);
    }
  }

  /** The last failing rule's message is the one kept. */
  lemma {:induction false} RulesLastFailureWins(errs: map<string, string>, name: string, rules: seq<ValidationRule>,
                                                value: Value, regexTest: (string, string) -> bool, i: nat)
    requires i < |rules| && RuleFails(rules[i], value, regexTest)
    requires forall j :: i < j < |rules| ==> !RuleFails(rules[j], value, regexTest)
    ensures RulesErrors(errs, name, rules, value, regexTest) == RulesErrors(errs, name, rules[..i], value, regexTest)[name := rules[i].message]
    ensures RulesErrors(errs, name, rules, value, regexTest)[name] == rules[i].message
    decreases |rules|
  {
    if i < |rules| - 1 {
      var front := rules[..|rules| - 1];
      assert front[..i] == rules[..i];
      RulesLastFailureWins(errs, name, front, value, regexTest, i);
    } else {
      assert rules[..|rules| - 1] == rules[..i];
    }
  }

  /** A hidden field is skipped entirely. */
  lemma HiddenFieldSkipped(errs: map<string, string>, f: Field, data: map<string, Value>,
                           regexTest: (string, string) -> bool)
    requires f.isHidden
    ensures FieldErrors(errs, f, data, regexTest) == errs
  {
  }

  /** A field only ever writes its own entry. */
  lemma FieldErrorsFrame(errs: map<string, string>, f: Field, data: map<string, Value>,
                         regexTest: (string, string) -> bool)
    ensures FieldErrors(errs, f, data, regexTest) - {f.name} == errs - {f.name}
    ensures f.name in errs ==> f.name in FieldErrors(errs, f, data, regexTest)
  {
    var value := Lookup(data, f.name);
    var afterRequired := if f.required && IsBlank(value) then errs[f.name := RequiredMessage(f)] else errs;
    RulesErrorsFrame(afterRequired, f.name, f.validations, value, regexTest);
    assert afterRequired - {f.name} == errs - {f.name};
  }

  /** A required field with an empty value whose rules all pass ends with the required message. */
  lemma RequiredFieldMessage(errs: map<string, string>, f: Field, data: map<string, Value>,
                             regexTest: (string, string) -> bool)
    requires !f.isHidden && f.required && IsBlank(Lookup(data, f.name))
    requires forall j :: 0 <= j < |f.validations| ==> !RuleFails(f.validations[j], Lookup(data, f.name), regexTest)
    ensures FieldErrors(errs, f, data, regexTest) == errs[f.name := RequiredMessage(f)]
  {
    RulesNoFailure(errs[f.name := RequiredMessage(f)], f.name, f.validations, Lookup(data, f.name), regexTest);
  }

  /** An optional field left empty gets no new entry: its rules are skipped. */
  lemma OptionalEmptyFieldSkipped(errs: map<string, string>, f: Field, data: map<string, Value>,
                                  regexTest: (string, string) -> bool)
    requires !f.required && IsBlank(Lookup(data, f.name))
    ensures FieldErrors(errs, f, data, regexTest) == errs
  {
  }

  /** When the rules run, the last failing one decides the entry, replacing the
      required message if there was one. */
  lemma FieldLastFailureWins(errs: map<string, string>, f: Field, data: map<string, Value>,
                             regexTest: (string, string) -> bool, i: nat)
    requires !f.isHidden && (f.required || !IsBlank(Lookup(data, f.name)))
    requires i < |f.validations| && RuleFails(f.validations[i], Lookup(data, f.name), regexTest)
    requires forall j :: i < j < |f.validations| ==> !RuleFails(f.validations[j], Lookup(data, f.name), regexTest)
    ensures f.name in FieldErrors(errs, f, data, regexTest)
    ensures FieldErrors(errs, f, data, regexTest)[f.name] == f.validations[i].message
  {
    var value := Lookup(data, f.name);
    var afterRequired := if f.required && IsBlank(value) then errs[f.name := RequiredMessage(f)] else errs;
    RulesLastFailureWins(afterRequired, f.name, f.validations, value, regexTest, i);
  }

  /** A required field left "" with a `minLength` rule ends with the minLength message,
      not the required one. */
  lemma MinLengthOverridesRequired(f: Field, regexTest: (string, string) -> bool)
    requires !f.isHidden && f.required && f.validations == [ValidationRule(MinLengthRule, Num(3), "Too short")]
    ensures ValidationErrors([f], map[f.name := Str("")], regexTest) == map[f.name := "Too short"]
  {
    var data := map[f.name := Str("")];
    assert [f][..0] == [];
    assert RuleFails(f.validations[0], Lookup(data, f.name), regexTest);
    RulesLastFailureWins(map[f.name := RequiredMessage(f)], f.name, f.validations, Str(""), regexTest, 0);
    assert f.validations[..0] == [];
  }

  /** Every entry of the error map belongs to a field that is not hidden. */
  lemma {:induction false} ErrorsComeFromVisibleFields(fields: seq<Field>, data: map<string, Value>,
                                                      regexTest: (string, string) -> bool, name: string)
    requires name in ValidationErrors(fields, data, regexTest)
    ensures exists i :: 0 <= i < |fields| && fields[i].name == name && !fields[i].isHidden
    decreases |fields|
  {
    var front := fields[..|fields| - 1];
    var last := fields[|fields| - 1];
    var before := ValidationErrors(front, data, regexTest);
    FieldErrorsFrame(before, last, data, regexTest);
    if name == last.name && !last.isHidden {
      assert fields[|fields| - 1].name == name;
    } else {
      if name != last.name {
        assert name in FieldErrors(before, last, data, regexTest) - {last.name};
      }
      assert name in before;
      ErrorsComeFromVisibleFields(front, data, regexTest, name);
      var i :| 0 <= i < |front| && front[i].name == name && !front[i].isHidden;
      assert fields[i] == front[i];
    }
  }

  /** So a hidden field never receives an entry (unless a visible field shares its name). */
  lemma HiddenFieldNoEntry(fields: seq<Field>, data: map<string, Value>, regexTest: (string, string) -> bool, name: string)
    requires forall i :: 0 <= i < |fields| && fields[i].name == name ==> fields[i].isHidden
    ensures name !in ValidationErrors(fields, data, regexTest)
  {
    if name in ValidationErrors(fields, data, regexTest) {
      ErrorsComeFromVisibleFields(fields, data, regexTest, name);
    }
  }

  function WithoutConditions(fields: seq<Field>): (r: seq<Field>)
    ensures |r| == |fields|
    ensures forall i :: 0 <= i < |fields| ==> r[i] == fields[i].(conditionalDisplay := None)
  {
    seq(|fields|, i requires 0 <= i < |fields| => fields[i].(conditionalDisplay := None))
  }

  /** Validation does not look at `conditionalDisplay`: a field the condition hides is
      still validated exactly as if it had no condition. */
  lemma {:induction false} ValidationIgnoresConditions(fields: seq<Field>, data: map<string, Value>,
                                                      regexTest: (string, string) -> bool)
    ensures ValidationErrors(WithoutConditions(fields), data, regexTest) == ValidationErrors(fields, data, regexTest)
    decreases |fields|
  {
    if fields != [] {
      var front := fields[..|fields| - 1];
      assert WithoutConditions(fields)[..|fields| - 1] == WithoutConditions(front);
      ValidationIgnoresConditions(front, data, regexTest);
    }
  }

  /** `validateForm`'s loops, building the error map field by field and rule by rule.
      The result is the map ValidationErrors describes; the form is valid iff it is empty. */
  method BuildErrors(fields: seq<Field>, data: map<string, Value>, regexTest: (string, string) -> bool)
    returns (newErrors: map<string, string>, isValid: bool)
    ensures newErrors == ValidationErrors(fields, data, regexTest)
    ensures isValid <==> newErrors == map[]
  {
    newErrors := map[];
    var i := 0;
    while i < |fields|
      invariant 0 <= i <= |fields|
      invariant newErrors == ValidationErrors(fields[..i], data, regexTest)
    {
      var field := fields[i];
      assert fields[..i + 1][..i] == fields[..i];
      if !field.isHidden {
        var value := Lookup(data, field.name);
        if field.required && IsBlank(value) {
          newErrors := newErrors[field.name := RequiredMessage(field)];
        }
        if !(IsBlank(value) && !field.required) {
          var j := 0;
          ghost var afterRequired := newErrors;
          while j < |field.validations|
            invariant 0 <= j <= |field.validations|
            invariant newErrors == RulesErrors(afterRequired, field.name, field.validations[..j], value, regexTest)
          {
            var validation := field.validations[j];
            assert field.validations[..j + 1][..j] == field.validations[..j];
            if RuleFails(validation, value, regexTest) {
              newErrors := newErrors[field.name := validation.message];
            }
            j := j + 1;
          }
          assert field.validations[..j] == field.validations;
        }
      }
      i := i + 1;
    }
    assert fields[..i] == fields;
    isValid := |newErrors| == 0;
  }

  // ------------------------------------------------------------------
  // Conditional display

  /** Whether a field's condition lets it be shown, given the value it depends on. */
  predicate ConditionHolds(operator: ConditionalOperator, dependentValue: Value, value: Value) {
    match operator
    case EqualsOp => StrictEquals(dependentValue, value)
    case NotEquals => !StrictEquals(dependentValue, value)
    case Contains =>
      if dependentValue.List? then ListIncludes(dependentValue.items, value)
      else Includes(ToJsString(dependentValue), ToJsString(value))
    case StartsWithOp => dependentValue.Str? && StartsWith(dependentValue.s, ToJsString(value))
    case EndsWithOp => dependentValue.Str? && EndsWith(dependentValue.s, ToJsString(value))
    case GreaterThan => dependentValue.Num? && NumGreater(dependentValue.n, value)
    case LessThan => dependentValue.Num? && NumLess(dependentValue.n, value)
    case NotContains => true
  }

  /** Whether `renderField` renders anything for the field. */
  predicate IsShown(f: Field, data: map<string, Value>) {
    !f.isHidden &&
    (f.conditionalDisplay.None? ||
     ConditionHolds(f.conditionalDisplay.value.operator, Lookup(data, f.conditionalDisplay.value.dependsOn),
                    f.conditionalDisplay.value.value))
  }

  /** `notEquals` is exactly the negation of `equals`; in particular an object value
      (compared by reference) never equals and always not-equals. */
  lemma NotEqualsNegatesEquals(dependentValue: Value, value: Value)
    ensures ConditionHolds(NotEquals, dependentValue, value) <==> !ConditionHolds(EqualsOp, dependentValue, value)
    ensures IsObject(value) ==> !ConditionHolds(EqualsOp, dependentValue, value)
  {
  }

  /** On a text value, a prefix or a suffix match implies a `contains` match. */
  lemma AffixImpliesContains(dependentValue: Value, value: Value)
    ensures ConditionHolds(StartsWithOp, dependentValue, value) ==> ConditionHolds(Contains, dependentValue, value)
    ensures ConditionHolds(EndsWithOp, dependentValue, value) ==> ConditionHolds(Contains, dependentValue, value)
  {
    if ConditionHolds(EndsWithOp, dependentValue, value) {
      var s := dependentValue.s;
      var t := ToJsString(value);
      IncludesAt(s, t, |s| - |t|);
    }
  }

  /** `contains` on an array is membership, otherwise a text search. */
  lemma ContainsMeaning(dependentValue: Value, value: Value)
    ensures dependentValue.List? ==>
              (ConditionHolds(Contains, dependentValue, value) <==>
               exists i :: 0 <= i < |dependentValue.items| && StrictEquals(dependentValue.items[i], value))
    ensures dependentValue.Str? && value.Str? ==>
              (ConditionHolds(Contains, dependentValue, value) <==> exists i: nat :: OccursAt(dependentValue.s, value.s, i))
  {
    if dependentValue.Str? && value.Str? {
      IncludesIffOccurs(dependentValue.s, value.s);
    }
  }

  /** The numeric comparisons need a number on the form side and never both hold;
      `notContains` always shows the field. */
  lemma ComparisonsExclusive(dependentValue: Value, value: Value)
    ensures !(ConditionHolds(GreaterThan, dependentValue, value) && ConditionHolds(LessThan, dependentValue, value))
    ensures ConditionHolds(GreaterThan, dependentValue, value) || ConditionHolds(LessThan, dependentValue, value) ==>
              dependentValue.Num?
    ensures ConditionHolds(NotContains, dependentValue, value)
  {
  }

  /** A field with a condition that currently hides it is still validated: left empty
      and required, it gets the required message. */
  lemma ConditionallyHiddenStillRequired(f: Field, data: map<string, Value>, regexTest: (string, string) -> bool)
    requires !f.isHidden && f.required && f.validations == [] && f.name !in data
    requires !IsShown(f, data)
    ensures ValidationErrors([f], data, regexTest) == map[f.name := RequiredMessage(f)]
  {
    assert [f][..0] == [];
  }

  // ------------------------------------------------------------------
  // Field-type dispatch

  datatype Widget =
    | TextWidget | TextAreaWidget | NumberWidget | DateTimeWidget | SelectWidget
    | CheckboxWidget | FileWidget | SignatureWidget | LocationWidget
    | HeadingBlock      // section and heading: the label and help text
    | Placeholder       // "This field type (...) will be implemented soon."

  /** The component `renderField` picks for a visible field. */
  function WidgetFor(t: FieldType): (w: Widget)
    ensures w == Placeholder <==> t.Unrecognized?
    ensures w == HeadingBlock <==> t == Section || t == Heading
    ensures w == TextWidget <==> t in {Text, Email, Phone}
    ensures w == SelectWidget <==> t in {Select, Radio}
    ensures w == CheckboxWidget <==> t in {Checkbox, Multiselect}
    ensures w == FileWidget <==> t in {File, Image}
    ensures w == TextAreaWidget <==> t == Textarea
    ensures w == NumberWidget <==> t == Number
    ensures w == DateTimeWidget <==> t in {Date, Time}
    ensures w == SignatureWidget <==> t == Signature
    ensures w == LocationWidget <==> t == Location
  {
    match t
    case Text => TextWidget
    case Email => TextWidget
    case Phone => TextWidget
    case Textarea => TextAreaWidget
    case Number => NumberWidget
    case Date => DateTimeWidget
    case Time => DateTimeWidget
    case Select => SelectWidget
    case Radio => SelectWidget
    case Checkbox => CheckboxWidget
    case Multiselect => CheckboxWidget
    case File => FileWidget
    case Image => FileWidget
    case Signature => SignatureWidget
    case Location => LocationWidget
    case Section => HeadingBlock
    case Heading => HeadingBlock
    case Unrecognized(_) => Placeholder
  }

  // ------------------------------------------------------------------
  // Progress bar

  predicate CountsForProgress(f: Field) {
    !f.isHidden && f.fieldType != Section && f.fieldType != Heading
  }

  function EligibleCount(fields: seq<Field>): (n: nat)
    ensures n <= |fields|
    ensures n == 0 <==> forall i :: 0 <= i < |fields| ==> !CountsForProgress(fields[i])
    decreases |fields|
  {
    if fields == [] then 0
    else EligibleCount(fields[..|fields| - 1]) + (if CountsForProgress(fields[|fields| - 1]) then 1 else 0)
  }

  /** The bar's CSS width: `Math.floor(answered / eligible * 100)` percent, where
      `answered` counts every key of `formData`. With no eligible field the division gives
      Infinity (or NaN when nothing is answered either). */
  datatype ProgressWidth = Percent(value: int) | InfinityPercent | NaNPercent

  function Progress(answered: nat, eligible: nat): (w: ProgressWidth)
    ensures eligible > 0 ==> w.Percent? && w.value * eligible <= answered * 100 < (w.value + 1) * eligible
    ensures eligible == 0 ==> (w == NaNPercent <==> answered == 0)
    ensures eligible == 0 && answered > 0 ==> w == InfinityPercent
  {
    if eligible > 0 then Percent(answered * 100 / eligible)
    else if answered > 0 then InfinityPercent
    else NaNPercent
  }

  /** Cancelling a positive factor from a strict inequality. */
  lemma CancelFactor(x: int, y: int, e: int)
    requires e > 0 && x * e < y * e
    ensures x < y
  {
  }

  /** While at most every eligible field has a value, the bar stays within 0..100 and is
      full exactly when all are answered; extra keys (a section's name, a hidden field)
      can push it past 100. */
  lemma ProgressBounds(answered: nat, eligible: nat)
    requires eligible > 0
    ensures answered <= eligible ==> 0 <= Progress(answered, eligible).value <= 100
    ensures answered <= eligible ==> (Progress(answered, eligible).value == 100 <==> answered == eligible)
    ensures answered >= eligible ==> Progress(answered, eligible).value >= 100
    ensures Progress(2, 1) == Percent(200)
  {
    var w := Progress(answered, eligible).value;
    var a, e := answered, eligible;
    assert w * e <= a * 100 < (w + 1) * e;
    CancelFactor(0, w + 1, e);
    if a <= e {
      assert w * e < 101 * e;
      CancelFactor(w, 101, e);
    }
    if a >= e {
      assert 99 * e < (w + 1) * e;
      CancelFactor(99, w + 1, e);
    }
    if a == e {
      assert 100 * e < (w + 1) * e;
      CancelFactor(100, w + 1, e);
    }
  }

  // ------------------------------------------------------------------
  // Device information

  /** The first browser name found in the user agent, looking for Chrome, then Firefox, then Safari. */
  function BrowserType(userAgent: string): (b: string)
    ensures b == "Unknown" <==> !Includes(userAgent, "Chrome") && !Includes(userAgent, "Firefox") && !Includes(userAgent, "Safari")
    ensures b == "Chrome" <==> Includes(userAgent, "Chrome")
    ensures b == "Firefox" <==> !Includes(userAgent, "Chrome") && Includes(userAgent, "Firefox")
    ensures b == "Safari" <==>
      !Includes(userAgent, "Chrome") && !Includes(userAgent, "Firefox") && Includes(userAgent, "Safari")
  {
    if Includes(userAgent, "Chrome") then "Chrome"
    else if Includes(userAgent, "Firefox") then "Firefox"
    else if Includes(userAgent, "Safari") then "Safari"
    else "Unknown"
  }

  /** `getDeviceInfo`, with `navigator.userAgent` and `navigator.platform` as inputs. */
  function DeviceInfoOf(userAgent: string, platform: string): (d: DeviceInfo)
    ensures d.deviceId == Some(userAgent) && d.osVersion == Some(userAgent) && d.deviceModel == Some(platform)
    ensures d.appVersion == Some("1.0.0") && d.browserType == Some(BrowserType(userAgent))
  {
    DeviceInfo(Some(userAgent), Some(platform), Some(userAgent), Some("1.0.0"), Some(BrowserType(userAgent)))
  }

  /** The patch `handleSaveDraft` applies to an existing response. */
  function DraftPatch(data: map<string, Value>, device: DeviceInfo): ResponsePatch {
    NoResponseChange.(data := Set(data), deviceInfo := Set(Some(device)))
  }

  /** The patch `handleSubmit` applies to an existing response. */
  function SubmitPatch(data: map<string, Value>, now: int, device: DeviceInfo, offline: bool, location: Option<LocationData>): ResponsePatch {
    NoResponseChange.(data := Set(data), status := Set(Submitted), submittedAt := Set(Some(now)),
                      deviceInfo := Set(Some(device)), offlineCreated := Set(offline), locationData := Set(location))
  }

  /** A draft update changes only the data, the device info and `updatedAt`. */
  lemma DraftPatchChangesOnlyData(r: FormResponse, data: map<string, Value>, device: DeviceInfo, now: int)
    ensures ApplyResponsePatch(r, DraftPatch(data, device), now) ==
              r.(data := data, deviceInfo := Some(device), updatedAt := now)
  {
  }

  /** A submit update marks the response submitted at `now`, and leaves its template,
      creation time and sync time alone. */
  lemma SubmitPatchMarksSubmitted(r: FormResponse, data: map<string, Value>, device: DeviceInfo, offline: bool,
                                  location: Option<LocationData>, now: int)
    ensures var u := ApplyResponsePatch(r, SubmitPatch(data, now, device, offline, location), now);
      && u.status == Submitted && u.submittedAt == Some(now) && u.updatedAt == now
      && u.data == data && u.offlineCreated == offline && u.locationData == location
      && u.id == r.id && u.formTemplateId == r.formTemplateId && u.createdAt == r.createdAt && u.syncedAt == r.syncedAt
  {
  }

  // ------------------------------------------------------------------
  // The session

  class FormSession {
    const template: FormTemplate
    const readOnly: bool
    var formData: map<string, Value>
    var formErrors: map<string, string>
    var responseId: Option<nat>
    var isOffline: bool

    /** The progress bar of the session: the keys of `formData` answered, out of the
        template's visible fields other than sections and headings. */
    function ProgressBar(): (w: ProgressWidth)
      reads this
      ensures var e := EligibleCount(template.fields);
        e > 0 ==> w.Percent? && w.value * e <= |formData| * 100 < (w.value + 1) * e
      ensures EligibleCount(template.fields) == 0 ==> (w == NaNPercent <==> formData == map[])
      ensures EligibleCount(template.fields) == 0 && formData != map[] ==> w == InfinityPercent
      ensures EligibleCount(template.fields) > 0 && |formData| <= EligibleCount(template.fields) ==>
        0 <= w.value <= 100
    {
      var e := EligibleCount(template.fields);
      if e > 0 then ProgressBounds(|formData|, e); Progress(|formData|, e)
      else Progress(|formData|, e)
    }

    /** The template shown is a stored one, so it has an id. */
    ghost predicate Valid()
      reads this
    {
      template.id.Some?
    }

    /** A session opened on a template, resuming `existingResponse` if one is given;
        `online` is `navigator.onLine` at that moment. */
    constructor (template: FormTemplate, existingResponse: Option<FormResponse>, readOnly: bool, online: bool)
      requires template.id.Some?
      ensures Valid()
      ensures this.template == template && this.readOnly == readOnly && isOffline == !online
      ensures formErrors == map[]
      ensures existingResponse.Some? ==> formData == existingResponse.value.data && responseId == existingResponse.value.id
      ensures existingResponse.None? ==> formData == map[] && responseId == None
    {
      this.template := template;
      this.readOnly := readOnly;
      isOffline := !online;
      formErrors := map[];
      if existingResponse.Some? {
        formData := existingResponse.value.data;
        responseId := existingResponse.value.id;
      } else {
        formData := map[];
        responseId := None;
      }
    }

    /** The `online` event. */
    method GoOnline()
      modifies this
      ensures isOffline == false
      ensures formData == old(formData) && formErrors == old(formErrors) && responseId == old(responseId)
    {
      isOffline := false;
    }

    /** The `offline` event. */
    method GoOffline()
      modifies this
      ensures isOffline == true
      ensures formData == old(formData) && formErrors == old(formErrors) && responseId == old(responseId)
    {
      isOffline := true;
    }

    /** `handleFieldChange`: stores the value and drops that field's error, but only when
        the message is truthy (an empty message stays). Nothing else changes. */
    method HandleFieldChange(name: string, value: Value)
      modifies this
      ensures formData == old(formData)[name := value]
      ensures name in old(formErrors) && old(formErrors)[name] != "" ==> formErrors == old(formErrors) - {name}
      ensures !(name in old(formErrors) && old(formErrors)[name] != "") ==> formErrors == old(formErrors)
      ensures responseId == old(responseId) && isOffline == old(isOffline)
    {
      formData := formData[name := value];
      if name in formErrors && formErrors[name] != "" {
        formErrors := formErrors - {name};
      }
    }

    /** `validateForm`: replaces the error map and reports whether it is empty. */
    method ValidateForm(regexTest: (string, string) -> bool) returns (isValid: bool)
      modifies this
      ensures formErrors == ValidationErrors(template.fields, old(formData), regexTest)
      ensures isValid <==> formErrors == map[]
      ensures formData == old(formData) && responseId == old(responseId) && isOffline == old(isOffline)
    {
      formErrors, isValid := BuildErrors(template.fields, formData, regexTest);
    }

    predicate HasResponseId()
      reads this
    {
      responseId.Some? && responseId.value != 0
    }

    /** `handleSaveDraft`. Read-only sessions do nothing. A session with a response id
        updates that row (data, device info, `updatedAt`); one without creates a draft
        for the template, remembers its id and reports it (the `onSaveDraft` callback). */
    method HandleSaveDraft(store: ResponseStore, now: int, userAgent: string, platform: string)
      returns (savedDraft: Option<nat>)
      requires Valid() && store.Valid()
      modifies this, store
      ensures store.Valid()
      ensures formData == old(formData) && formErrors == old(formErrors) && isOffline == old(isOffline)
      ensures readOnly ==> savedDraft == None && responseId == old(responseId) &&
                           store.rows == old(store.rows) && store.nextId == old(store.nextId)
      ensures !readOnly && old(HasResponseId()) ==>
                && savedDraft == None && responseId == old(responseId) && store.nextId == old(store.nextId)
                && (responseId.value in old(store.rows) ==>
                      store.rows == old(store.rows)[responseId.value :=
                        old(store.rows)[responseId.value].(data := formData, deviceInfo := Some(DeviceInfoOf(userAgent, platform)), updatedAt := now)])
                && (responseId.value !in old(store.rows) ==> store.rows == old(store.rows))
      ensures !readOnly && !old(HasResponseId()) ==>
                && savedDraft == Some(old(store.nextId)) && responseId == savedDraft
                && store.rows == old(store.rows)[old(store.nextId) :=
                     FormResponse(Some(old(store.nextId)), template.id.value, None, now, now, formData, Draft, isOffline,
                                  None, Some(DeviceInfoOf(userAgent, platform)), None)]
                && store.nextId == old(store.nextId) + 1
    {
      savedDraft := None;
      if readOnly {
        return;
      }
      var deviceInfo := DeviceInfoOf(userAgent, platform);
      if HasResponseId() {
        if responseId.value in store.rows {
          DraftPatchChangesOnlyData(store.rows[responseId.value], formData, deviceInfo, now);
        }
        var _ := store.UpdateFormResponse(responseId.value, DraftPatch(formData, deviceInfo), now);
      } else {
        var newResponseId := store.CreateFormResponse(
          FormResponse(None, template.id.value, None, now, now, formData, Draft, isOffline, None, Some(deviceInfo), None), now);
        responseId := Some(newResponseId);
        savedDraft := Some(newResponseId);
      }
    }

    /** `handleSubmit`. Read-only sessions do nothing. The form is validated first;
        when it is invalid and the template does not allow incomplete submissions,
        nothing is written. Otherwise the response (updated, or created when there is no
        response id) becomes `submitted` at `now`, with the device info, the offline flag
        and the location (read only when the template allows geolocation), and its id is
        reported (the `onSubmit` callback). */
    method HandleSubmit(store: ResponseStore, now: int, userAgent: string, platform: string,
                        position: Option<LocationData>, regexTest: (string, string) -> bool)
      returns (submitted: Option<nat>)
      requires Valid() && store.Valid()
      modifies this, store
      ensures store.Valid()
      ensures formData == old(formData) && isOffline == old(isOffline)
      ensures readOnly ==> submitted == None && formErrors == old(formErrors) && responseId == old(responseId) &&
                           store.rows == old(store.rows) && store.nextId == old(store.nextId)
      ensures !readOnly ==> formErrors == ValidationErrors(template.fields, formData, regexTest)
      ensures !readOnly && formErrors != map[] && !template.settings.allowIncomplete ==>
                submitted == None && responseId == old(responseId) &&
                store.rows == old(store.rows) && store.nextId == old(store.nextId)
      ensures !readOnly && (formErrors == map[] || template.settings.allowIncomplete) ==>
                var location := if template.settings.allowGeolocation then position else None;
                var device := DeviceInfoOf(userAgent, platform);
                && submitted.Some? && responseId == submitted
                && (old(HasResponseId()) ==>
                      && submitted == old(responseId) && store.nextId == old(store.nextId)
                      && (submitted.value in old(store.rows) ==>
                            store.rows == old(store.rows)[submitted.value :=
                              ApplyResponsePatch(old(store.rows)[submitted.value], SubmitPatch(formData, now, device, isOffline, location), now)])
                      && (submitted.value !in old(store.rows) ==> store.rows == old(store.rows)))
                && (!old(HasResponseId()) ==>
                      && submitted == Some(old(store.nextId)) && store.nextId == old(store.nextId) + 1
                      && store.rows == old(store.rows)[old(store.nextId) :=
                           FormResponse(Some(old(store.nextId)), template.id.value, Some(now), now, now, formData, Submitted,
                                        isOffline, None, Some(device), location)])
    {
      submitted := None;
      if readOnly {
        return;
      }
      var isValid := ValidateForm(regexTest);
      if !isValid && !template.settings.allowIncomplete {
        return;
      }
      var deviceInfo := DeviceInfoOf(userAgent, platform);
      var locationData := if template.settings.allowGeolocation then position else None;
      if HasResponseId() {
        var _ := store.UpdateFormResponse(responseId.value, SubmitPatch(formData, now, deviceInfo, isOffline, locationData), now);
        submitted := responseId;
      } else {
        var newId := store.CreateFormResponse(
          FormResponse(None, template.id.value, Some(now), now, now, formData, Submitted, isOffline, None, Some(deviceInfo), locationData), now);
        responseId := Some(newId);
        submitted := responseId;
      }
    }
  }
}
