/**
 * Leaf constraints (the files of the constraints package): a hint with `{value}` and `{i}`
 * placeholders, the template values that fill them, whether a failure is an
 * error or a warning, and the test itself. The test receives the value and
 * the context map of the run.
 *
 * Kotlin constraints are statically typed; the model's tests are total over
 * all values and answer false for a value of a shape the Kotlin type would
 * not admit.
 */
module Constraints {
  import opened Values

  datatype Constraint = Constraint(
    hint: string,
    templateValues: seq<string>,
    isError: bool,
    test: (Value, Props) -> bool)

  /** The constructor call of `addConstraint`: `isError` takes its default, true. */
  function NewConstraint(hint: string, templateValues: seq<string>, test: (Value, Props) -> bool): (c: Constraint)
    ensures c.isError
    ensures c.hint == hint && c.templateValues == templateValues && c.test == test
  {
    Constraint(hint, templateValues, true, test)
  }

  // ---------------------------------------------------------------------
  // Hint construction (ObjectValidation.constructHint)
  // ---------------------------------------------------------------------

  /** The placeholder for template value `i`. */
  function Placeholder(i: nat): string
  {
    "{" + NatToString(i) + "}"
  }

  /** Replaces `{i}`, `{i+1}`, ... in turn by the corresponding template values. */
  function FillTemplates(hint: string, values: seq<string>, i: nat): string
    requires i <= |values|
    decreases |values| - i
  {
    if i == |values| then hint
    else FillTemplates(Replace(hint, Placeholder(i), values[i]), values, i + 1)
  }

  /**
   * The message of a failed constraint: `{value}` is replaced by the
   * rendered value first, then every `{i}` by template value `i`.
   */
  function ConstructHint(c: Constraint, x: Value): string
  {
    FillTemplates(Replace(c.hint, "{value}", ToString(x)), c.templateValues, 0)
  }

  /** A hint without any `{` is the message as it stands. */
  lemma {:induction false} PlainHint(c: Constraint, x: Value)
    requires '{' !in c.hint
    ensures ConstructHint(c, x) == c.hint
  {
    ReplaceAbsent(c.hint, "{value}", ToString(x));
    PlainFill(c.hint, c.templateValues, 0);
  }

  lemma {:induction false} PlainFill(hint: string, values: seq<string>, i: nat)
    requires i <= |values| && '{' !in hint
    ensures FillTemplates(hint, values, i) == hint
    decreases |values| - i
  {
    if i < |values| {
      ReplaceAbsent(hint, Placeholder(i), values[i]);
      PlainFill(hint, values, i + 1);
    }
  }

  /** Every `{` in `s` opens a numbered placeholder: a digit follows it. */
  predicate BracesOpenNumbers(s: string)
  {
    forall k :: 0 <= k < |s| && s[k] == '{' ==> k + 1 < |s| && '0' <= s[k + 1] <= '9'
  }

  /** Where every brace opens a numbered placeholder, `{value}` occurs nowhere. */
  lemma {:induction false} ValueAbsent(s: string, rendered: string)
    requires BracesOpenNumbers(s)
    ensures Replace(s, "{value}", rendered) == s
    decreases |s|
  {
    if |s| >= 7 {
      if s[0] == '{' {
        assert s[..7][1] == s[1] != 'v';
      }
      assert s[..7] != "{value}";
      assert BracesOpenNumbers(s[1..]) by {
        forall k | 0 <= k < |s[1..]| && s[1..][k] == '{'
          ensures k + 1 < |s[1..]| && '0' <= s[1..][k + 1] <= '9'
        {
          assert s[k + 1] == '{';
        }
      }
      ValueAbsent(s[1..], rendered);
      assert [s[0]] + s[1..] == s;
    }
  }

  /**
   * A hint with one placeholder `{0}` between texts without braces renders
   * as the texts around template value 0.
   */
  lemma OnePlaceholderHint(prefix: string, suffix: string, t: string, x: Value, isError: bool, test: (Value, Props) -> bool)
    requires '{' !in prefix && '{' !in suffix
    ensures ConstructHint(Constraint(prefix + "{0}" + suffix, [t], isError, test), x) == prefix + t + suffix
  {
    var hint := prefix + "{0}" + suffix;
    OnePlaceholderBraces(prefix, suffix);
    ValueAbsent(hint, ToString(x));
    ReplaceOnlyPlaceholder(prefix, suffix, "{0}", t);
    FillOne(hint, t);
  }

  /** `message` is `prefix`, the placeholder `{0}`, then `suffix`, and has no other brace. */
  ghost predicate SplitsAtFirst(message: string, prefix: string, suffix: string)
  {
    message == prefix + "{0}" + suffix && '{' !in prefix && '{' !in suffix
  }

  /** A constraint whose hint splits around `{0}` renders its one template value in that place. */
  lemma OnePlaceholderOf(c: Constraint, prefix: string, suffix: string, x: Value)
    requires SplitsAtFirst(c.hint, prefix, suffix) && |c.templateValues| == 1
    ensures ConstructHint(c, x) == prefix + c.templateValues[0] + suffix
  {
    OnePlaceholderHint(prefix, suffix, c.templateValues[0], x, c.isError, c.test);
    assert c == Constraint(prefix + "{0}" + suffix, [c.templateValues[0]], c.isError, c.test);
  }

  lemma OnePlaceholderBraces(prefix: string, suffix: string)
    requires '{' !in prefix && '{' !in suffix
    ensures BracesOpenNumbers(prefix + "{0}" + suffix)
  {
    var hint := prefix + "{0}" + suffix;
    assert forall k :: 0 <= k < |prefix| ==> hint[k] == prefix[k];
    assert forall k :: |prefix| + 3 <= k < |hint| ==> hint[k] == suffix[k - |prefix| - 3];
    assert hint[|prefix| + 1] == '0';
  }

  /** A placeholder that occurs once, between texts without braces, is replaced exactly in its place. */
  lemma ReplaceOnlyPlaceholder(prefix: string, suffix: string, placeholder: string, t: string)
    requires |placeholder| > 0 && placeholder[0] == '{'
    requires '{' !in prefix && '{' !in suffix
    ensures Replace(prefix + placeholder + suffix, placeholder, t) == prefix + t + suffix
  {
    assert prefix + placeholder + suffix == prefix + (placeholder + suffix);
    ReplaceSkipsPrefix(prefix, placeholder + suffix, placeholder, t);
    ReplaceAtFront(suffix, placeholder, t);
    ReplaceAbsent(suffix, placeholder, t);
    assert prefix + (t + suffix) == prefix + t + suffix;
  }

  lemma FillOne(hint: string, t: string)
    ensures FillTemplates(hint, [t], 0) == Replace(hint, "{0}", t)
  {
    assert Placeholder(0) == "{0}";
  }

  lemma FillTwo(hint: string, t0: string, t1: string)
    ensures FillTemplates(hint, [t0, t1], 0) == Replace(Replace(hint, "{0}", t0), "{1}", t1)
  {
    assert Placeholder(0) == "{0}" && Placeholder(1) == "{1}";
    var once := Replace(hint, "{0}", t0);
    assert FillTemplates(hint, [t0, t1], 0) == FillTemplates(once, [t0, t1], 1);
    assert FillTemplates(once, [t0, t1], 1) == FillTemplates(Replace(once, "{1}", t1), [t0, t1], 2);
  }

  /**
   * A hint with `{0}` and then `{1}` renders with both template values in
   * place, as long as the first value brings in no brace of its own.
   */
  lemma TwoPlaceholderHint(prefix: string, middle: string, suffix: string, t0: string, t1: string, x: Value, isError: bool, test: (Value, Props) -> bool)
    requires '{' !in prefix && '{' !in middle && '{' !in suffix && '{' !in t0
    ensures ConstructHint(Constraint(prefix + "{0}" + middle + "{1}" + suffix, [t0, t1], isError, test), x)
         == prefix + t0 + middle + t1 + suffix
  {
    var hint := prefix + "{0}" + middle + "{1}" + suffix;
    TwoPlaceholderBraces(prefix, middle, suffix);
    ValueAbsent(hint, ToString(x));
    FirstOfTwo(prefix, middle, suffix, t0);
    ReplaceOnlyPlaceholder(prefix + t0 + middle, suffix, "{1}", t1);
    FillTwo(hint, t0, t1);
  }

  lemma TwoPlaceholderBraces(prefix: string, middle: string, suffix: string)
    requires '{' !in prefix && '{' !in middle && '{' !in suffix
    ensures BracesOpenNumbers(prefix + "{0}" + middle + "{1}" + suffix)
  {
    var hint := prefix + "{0}" + middle + "{1}" + suffix;
    var m := |prefix| + 3 + |middle|;
    assert forall k :: 0 <= k < |prefix| ==> hint[k] == prefix[k];
    assert forall k :: |prefix| + 3 <= k < m ==> hint[k] == middle[k - |prefix| - 3];
    assert forall k :: m + 3 <= k < |hint| ==> hint[k] == suffix[k - m - 3];
    assert hint[|prefix| + 1] == '0' && hint[m + 1] == '1';
  }

  /** A `{1}` placeholder is not an occurrence of `{0}`. */
  lemma OtherPlaceholderKept(suffix: string, t0: string)
    requires '{' !in suffix
    ensures Replace("{1}" + suffix, "{0}", t0) == "{1}" + suffix
  {
    var tail := "{1}" + suffix;
    assert tail[1] == '1';
    assert tail[..3] != "{0}";
    assert tail[1..] == "1}" + suffix;
    ReplaceAbsent("1}" + suffix, "{0}", t0);
    assert [tail[0]] + tail[1..] == tail;
  }

  /** One occurrence of `pattern`, between text it cannot start in, is the only one replaced. */
  lemma ReplaceOnce(prefix: string, middle: string, other: string, suffix: string, pattern: string, replacement: string)
    requires |pattern| > 0 && pattern[0] !in prefix && pattern[0] !in middle
    requires Replace(other + suffix, pattern, replacement) == other + suffix
    ensures Replace(prefix + pattern + middle + other + suffix, pattern, replacement)
         == prefix + replacement + middle + other + suffix
  {
    var rest := middle + (other + suffix);
    Regroup(prefix, pattern, middle, other, suffix);
    Regroup(prefix, replacement, middle, other, suffix);
    ReplaceSkipsPrefix(middle, other + suffix, pattern, replacement);
    ReplacePastPrefix(prefix, rest, pattern, replacement);
  }

  /** The first occurrence of `pattern`, after text it cannot start in, is replaced. */
  lemma ReplacePastPrefix(prefix: string, rest: string, pattern: string, replacement: string)
    requires |pattern| > 0 && pattern[0] !in prefix
    ensures Replace(prefix + (pattern + rest), pattern, replacement)
         == prefix + (replacement + Replace(rest, pattern, replacement))
  {
    ReplaceSkipsPrefix(prefix, pattern + rest, pattern, replacement);
    ReplaceAtFront(rest, pattern, replacement);
  }

  lemma Regroup(a: string, b: string, c: string, d: string, e: string)
    ensures a + b + c + d + e == a + (b + (c + (d + e)))
  {
  }

  /** Replacing `{0}` leaves a later `{1}` alone. */
  lemma FirstOfTwo(prefix: string, middle: string, suffix: string, t0: string)
    requires '{' !in prefix && '{' !in middle && '{' !in suffix
    ensures Replace(prefix + "{0}" + middle + "{1}" + suffix, "{0}", t0) == prefix + t0 + middle + "{1}" + suffix
  {
    OtherPlaceholderKept(suffix, t0);
    ReplaceOnce(prefix, middle, "{1}", suffix, "{0}", t0);
  }

  // ---------------------------------------------------------------------
  // Catalog (constraints/Constraints.kt)
  // ---------------------------------------------------------------------

  function IsNotNull(): Constraint
  {
    NewConstraint("may not be null", [], (x: Value, _: Props) => !x.Null?)
  }

  function IsNull(): Constraint
  {
    NewConstraint("must be null", [], (x: Value, _: Props) => x.Null?)
  }

  /** `isNotNull` and `isNull` pass on exactly the non-null and the null values. */
  lemma NullConstraints(x: Value, p: Props)
    ensures IsNotNull().test(x, p) <==> x != Null
    ensures IsNull().test(x, p) <==> x == Null
    ensures IsNotNull().isError && IsNull().isError
    ensures ConstructHint(IsNotNull(), x) == "may not be null"
    ensures ConstructHint(IsNull(), x) == "must be null"
  {
    assert '{' !in "may not be null" && '{' !in "must be null";
    PlainHint(IsNotNull(), x);
    PlainHint(IsNull(), x);
  }

  /** `joinToString("', '", "'", "'")` of the rendered values. */
  function QuotedList(values: seq<Value>): string
  {
    "'" + JoinRendered(values) + "'"
  }

  function JoinRendered(values: seq<Value>): string
  {
    if |values| == 0 then ""
    else if |values| == 1 then ToString(values[0])
    else ToString(values[0]) + "', '" + JoinRendered(values[1..])
  }

  function OneOf(allowed: seq<Value>): Constraint
  {
    NewConstraint("must be one of: {0}", [QuotedList(allowed)], (x: Value, _: Props) => x in allowed)
  }

  /** `oneOf` passes exactly on the allowed values and lists them all, quoted, in its message. */
  lemma OneOfConstraint(allowed: seq<Value>, x: Value, p: Props)
    ensures OneOf(allowed).test(x, p) <==> x in allowed
    ensures ConstructHint(OneOf(allowed), x) == "must be one of: " + QuotedList(allowed)
  {
    OneOfMessage();
    OnePlaceholderOf(OneOf(allowed), "must be one of: ", "", x);
    assert "must be one of: " + QuotedList(allowed) + "" == "must be one of: " + QuotedList(allowed);
  }

  lemma OneOfMessage()
    ensures SplitsAtFirst("must be one of: {0}", "must be one of: ", "")
  {
  }

  /** The template value of `oneOf("OK", "CANCEL")`: each value quoted, separated by a comma. */
  lemma QuotedListExample(allowed: seq<Value>)
    requires allowed == [Str("OK"), Str("CANCEL")]
    ensures QuotedList(allowed) == "'OK', 'CANCEL'"
  {
    var ok, cancel := "OK", "CANCEL";
    var rest := allowed[1..];
    assert rest == [Str(cancel)];
    assert JoinRendered(rest) == cancel;
    assert JoinRendered(allowed) == ok + "', '" + cancel;
  }

  /** The template value of `const`: the expected value in quotes, or `null`. */
  function ConstTemplate(expected: Value): string
  {
    if expected.Null? then "null" else "'" + ToString(expected) + "'"
  }

  function Const(expected: Value): Constraint
  {
    NewConstraint("must be {0}", [ConstTemplate(expected)], (x: Value, _: Props) => expected == x)
  }

  /**
   * `const` passes exactly on the expected value; its message quotes that
   * value, or says `null`.
   */
  lemma ConstConstraint(expected: Value, x: Value, p: Props)
    ensures Const(expected).test(x, p) <==> x == expected
    ensures ConstructHint(Const(expected), x)
         == "must be " + (if expected.Null? then "null" else "'" + ToString(expected) + "'")
  {
    ConstMessage();
    OnePlaceholderOf(Const(expected), "must be ", "", x);
    assert "must be " + ConstTemplate(expected) + "" == "must be " + ConstTemplate(expected);
  }

  lemma ConstMessage()
    ensures SplitsAtFirst("must be {0}", "must be ", "")
  {
  }

  const DefaultCustomMessage := "custom constraint failed"

  /** `custom`: the caller's test on the value and the context map. */
  function Custom(message: string, test: (Value, Props) -> bool): Constraint
  {
    NewConstraint(message, [], test)
  }

  /** `simpleCustom`: a custom test that ignores the context map. */
  function SimpleCustom(message: string, test: Value -> bool): Constraint
  {
    Custom(message, (x: Value, _: Props) => test(x))
  }

  /**
   * A custom constraint passes exactly when the caller's test does; with the
   * default message it reports "custom constraint failed".
   */
  lemma CustomConstraints(test: (Value, Props) -> bool, simpleTest: Value -> bool, x: Value, p: Props)
    ensures Custom(DefaultCustomMessage, test).test(x, p) == test(x, p)
    ensures SimpleCustom(DefaultCustomMessage, simpleTest).test(x, p) == simpleTest(x)
    ensures ConstructHint(Custom(DefaultCustomMessage, test), x) == "custom constraint failed"
    ensures ConstructHint(SimpleCustom(DefaultCustomMessage, simpleTest), x) == "custom constraint failed"
  {
    assert '{' !in "custom constraint failed";
    PlainHint(Custom(DefaultCustomMessage, test), x);
    PlainHint(SimpleCustom(DefaultCustomMessage, simpleTest), x);
  }

  lemma NoBraceInNumber(i: int)
    ensures '{' !in IntToString(i)
  {
    IntToStringSign(i);
    if i < 0 {
      assert IntToString(i) == "-" + NatToString(-i);
    }
  }

  /** `inRange` over integers: both ends are included. */
  function InRange(start: int, endInclusive: int): Constraint
  {
    NewConstraint(
      "must be at least '" + "{0}" + "' and not greater than '" + "{1}" + "'",
      [IntToString(start), IntToString(endInclusive)],
      (x: Value, _: Props) => x.Int? && start <= x.i <= endInclusive)
  }

  /** `inRange` passes exactly inside the closed range and names both ends in its message. */
  lemma InRangeConstraint(start: int, endInclusive: int, x: Value, p: Props)
    ensures InRange(start, endInclusive).test(x, p) <==> x.Int? && start <= x.i && x.i <= endInclusive
    ensures ConstructHint(InRange(start, endInclusive), x)
         == "must be at least '" + IntToString(start) + "' and not greater than '" + IntToString(endInclusive) + "'"
  {
    NoBraceInNumber(start);
    InRangeHint(start, endInclusive, x);
  }

  lemma InRangeHint(start: int, endInclusive: int, x: Value)
    requires '{' !in IntToString(start)
    ensures ConstructHint(InRange(start, endInclusive), x)
         == "must be at least '" + IntToString(start) + "' and not greater than '" + IntToString(endInclusive) + "'"
  {
    var a, b := IntToString(start), IntToString(endInclusive);
    var front, middle, back := "must be at least '", "' and not greater than '", "'";
    var c := InRange(start, endInclusive);
    assert c.hint == front + "{0}" + middle + "{1}" + back;
    TwoPlaceholderHint(front, middle, back, a, b, x, true, c.test);
  }

  // ---------------------------------------------------------------------
  // Strings (constraints/StringConstraints.kt)
  // ---------------------------------------------------------------------

  /** `minLength`: a negative bound fails the `require` check. */
  function MinLength(length: int): (r: Outcome<Constraint>)
  {
    if length >= 0 then
      Ok(NewConstraint("must have at least {0} characters", [IntToString(length)],
                       (x: Value, _: Props) => x.Str? && Utf16Length(x.s) >= length))
    else Throw(IllegalArgument("minLength requires the length to be >= 0"))
  }

  /** `maxLength`: a negative bound fails the `require` check. */
  function MaxLength(length: int): (r: Outcome<Constraint>)
  {
    if length >= 0 then
      Ok(NewConstraint("must have at most {0} characters", [IntToString(length)],
                       (x: Value, _: Props) => x.Str? && Utf16Length(x.s) <= length))
    else Throw(IllegalArgument("maxLength requires the length to be >= 0"))
  }

  /**
   * `minLength(n)` is refused for a negative `n`; otherwise it passes exactly
   * on strings of at least `n` UTF-16 code units, and says so with `n` in
   * place.
   */
  lemma MinLengthConstraint(length: int, x: Value, p: Props)
    ensures MinLength(length).Throw? <==> length < 0
    ensures length < 0 ==> MinLength(length).exception == IllegalArgument("minLength requires the length to be >= 0")
    ensures length >= 0 ==>
      && (MinLength(length).value.test(x, p) <==> x.Str? && Utf16Length(x.s) >= length)
      && ConstructHint(MinLength(length).value, x) == "must have at least " + IntToString(length) + " characters"
  {
    if length >= 0 {
      MinLengthMessage();
      OnePlaceholderOf(MinLength(length).value, "must have at least ", " characters", x);
    }
  }

  lemma MinLengthMessage()
    ensures SplitsAtFirst("must have at least {0} characters", "must have at least ", " characters")
  {
  }

  /**
   * `maxLength(n)` is refused for a negative `n`; otherwise it passes exactly
   * on strings of at most `n` UTF-16 code units, and says so with `n` in
   * place.
   */
  lemma MaxLengthConstraint(length: int, x: Value, p: Props)
    ensures MaxLength(length).Throw? <==> length < 0
    ensures length < 0 ==> MaxLength(length).exception == IllegalArgument("maxLength requires the length to be >= 0")
    ensures length >= 0 ==>
      && (MaxLength(length).value.test(x, p) <==> x.Str? && Utf16Length(x.s) <= length)
      && ConstructHint(MaxLength(length).value, x) == "must have at most " + IntToString(length) + " characters"
  {
    if length >= 0 {
      MaxLengthMessage();
      OnePlaceholderOf(MaxLength(length).value, "must have at most ", " characters", x);
    }
  }

  lemma MaxLengthMessage()
    ensures SplitsAtFirst("must have at most {0} characters", "must have at most ", " characters")
  {
  }

  /**
   * `pattern`: whether a string matches a regular expression is left to the
   * caller's `matches`; only the message and template value are modelled.
   */
  function Pattern(pattern: string, matches: string -> bool): Constraint
  {
    NewConstraint("must match the expected pattern", [pattern], (x: Value, _: Props) => x.Str? && matches(x.s))
  }

  /** The pattern text is a template value but the message does not show it. */
  lemma PatternConstraint(pattern: string, matches: string -> bool, x: Value, p: Props)
    ensures Pattern(pattern, matches).test(x, p) <==> x.Str? && matches(x.s)
    ensures ConstructHint(Pattern(pattern, matches), x) == "must match the expected pattern"
  {
    assert '{' !in "must match the expected pattern";
    PlainHint(Pattern(pattern, matches), x);
  }

  // ---------------------------------------------------------------------
  // Booleans (constraints/BooleanConstraints.kt)
  // ---------------------------------------------------------------------

  function IsTrue(): Constraint
  {
    NewConstraint("must be true", [], (x: Value, _: Props) => x == Bool(true))
  }

  /** `isFalse` as written: it reuses the message of `isTrue`. */
  function IsFalseAsWritten(): Constraint
  {
    NewConstraint("must be true", [], (x: Value, _: Props) => x == Bool(false))
  }

  /** `isFalse` with the message its documentation calls for. */
  function IsFalse(): Constraint
  {
    NewConstraint("must be false", [], (x: Value, _: Props) => x == Bool(false))
  }

  /** The message of a boolean constraint that passes on `b` alone. */
  function BoolMessage(b: bool): string
  {
    if b then "must be true" else "must be false"
  }

  /**
   * The message of a boolean constraint names the one value that passes it,
   * whatever the failing value and the context map.
   */
  ghost predicate NamesPassingValue(c: Constraint, b: bool)
  {
    && (forall x: Value, p: Props :: c.test(x, p) <==> x == Bool(b))
    && (forall x: Value :: ConstructHint(c, x) == BoolMessage(b))
  }

  /** `isTrue` reports "must be true" and passes on true alone. */
  lemma IsTrueConstraint()
    ensures NamesPassingValue(IsTrue(), true)
  {
    var c := IsTrue();
    assert '{' !in "must be true";
    forall x: Value ensures ConstructHint(c, x) == BoolMessage(true) {
      PlainHint(c, x);
    }
  }

  /** As written, `isFalse` rejects `true` with the message "must be true". */
  lemma IsFalseAsWrittenMisreports(x: Value, p: Props)
    requires x == Bool(true)
    ensures !IsFalseAsWritten().test(x, p)
    ensures ConstructHint(IsFalseAsWritten(), x) == "must be true"
    ensures !NamesPassingValue(IsFalseAsWritten(), false)
  {
    var c := IsFalseAsWritten();
    assert '{' !in "must be true";
    PlainHint(c, x);
    assert |ConstructHint(c, x)| != |BoolMessage(false)|;
  }

  /** The corrected `isFalse` reports "must be false" and passes on false alone. */
  lemma IsFalseConstraint()
    ensures NamesPassingValue(IsFalse(), false)
  {
    var c := IsFalse();
    assert '{' !in "must be false";
    forall x: Value ensures ConstructHint(c, x) == BoolMessage(false) {
      PlainHint(c, x);
    }
  }

  // ---------------------------------------------------------------------
  // Collections (constraints/CollectionConstraints.kt)
  // ---------------------------------------------------------------------

  /** `count()` of an iterable, an array or a map; none for any other value. */
  function Count(x: Value): Option<nat>
  {
    match x
    case List(items) => Some(|items|)
    case Array(items) => Some(|items|)
    case Map(entries) => Some(|entries|)
    case _ => None
  }

  /** "item", or "items" for any number but one. */
  function ItemWord(n: int): string
  {
    "item" + (if n != 1 then "s" else "")
  }

  function MinItems(minSize: int): Constraint
  {
    NewConstraint("must have at least {0} " + ItemWord(minSize), [IntToString(minSize)],
                  (x: Value, _: Props) => Count(x).Some? && Count(x).value >= minSize)
  }

  function MaxItems(maxSize: int): Constraint
  {
    NewConstraint("must have at most {0} " + ItemWord(maxSize), [IntToString(maxSize)],
                  (x: Value, _: Props) => Count(x).Some? && Count(x).value <= maxSize)
  }

  /**
   * `minItems(n)` passes exactly on collections with at least `n` elements
   * or entries; the message says "item" for `n` = 1 and "items" otherwise.
   */
  lemma MinItemsConstraint(minSize: int, x: Value, p: Props)
    ensures MinItems(minSize).test(x, p) <==> Count(x).Some? && Count(x).value >= minSize
    ensures ConstructHint(MinItems(minSize), x)
         == "must have at least " + IntToString(minSize) + (if minSize == 1 then " item" else " items")
  {
    var suffix := " " + ItemWord(minSize);
    ItemsMessages(minSize);
    OnePlaceholderOf(MinItems(minSize), "must have at least ", suffix, x);
  }

  /**
   * `maxItems(n)` passes exactly on collections with at most `n` elements
   * or entries, with the same choice of "item" or "items".
   */
  lemma MaxItemsConstraint(maxSize: int, x: Value, p: Props)
    ensures MaxItems(maxSize).test(x, p) <==> Count(x).Some? && Count(x).value <= maxSize
    ensures ConstructHint(MaxItems(maxSize), x)
         == "must have at most " + IntToString(maxSize) + (if maxSize == 1 then " item" else " items")
  {
    var suffix := " " + ItemWord(maxSize);
    ItemsMessages(maxSize);
    OnePlaceholderOf(MaxItems(maxSize), "must have at most ", suffix, x);
  }

  /** The two item-count messages split around their placeholder; the word after it is "item" or "items". */
  lemma ItemsMessages(n: int)
    ensures SplitsAtFirst("must have at least {0} " + ItemWord(n), "must have at least ", " " + ItemWord(n))
    ensures SplitsAtFirst("must have at most {0} " + ItemWord(n), "must have at most ", " " + ItemWord(n))
    ensures " " + ItemWord(n) == (if n == 1 then " item" else " items")
  {
    var w := ItemWord(n);
    assert "must have at least {0} " == "must have at least " + "{0}" + " ";
    assert "must have at most {0} " == "must have at most " + "{0}" + " ";
    assert '{' !in w;
  }

  /** `distinct()`: the elements in order of first occurrence. */
  function Distinct(s: seq<Value>): (d: seq<Value>)
    ensures |d| <= |s|
    ensures forall v :: v in d <==> v in s
  {
    if |s| == 0 then []
    else
      var rest := Distinct(s[..|s| - 1]);
      if s[|s| - 1] in rest then rest else rest + [s[|s| - 1]]
  }

  predicate NoDuplicates(s: seq<Value>)
  {
    forall i, j :: 0 <= i < j < |s| ==> s[i] != s[j]
  }

  /** Counting the distinct elements gives the count exactly when no element repeats. */
  lemma {:induction false} DistinctCount(s: seq<Value>)
    ensures |Distinct(s)| == |s| <==> NoDuplicates(s)
  {
    if |s| > 0 {
      var init, last := s[..|s| - 1], s[|s| - 1];
      DistinctCount(init);
      if last in Distinct(init) {
        assert last in init;
        var k :| 0 <= k < |init| && init[k] == last;
        assert s[k] == s[|s| - 1];
      } else {
        assert last !in init;
        if NoDuplicates(init) {
          forall i, j | 0 <= i < j < |s| ensures s[i] != s[j] {
            if j == |s| - 1 {
              assert s[i] == init[i];
            } else {
              assert s[i] == init[i] && s[j] == init[j];
            }
          }
        } else {
          var i, j :| 0 <= i < j < |init| && init[i] == init[j];
          assert s[i] == s[j];
        }
      }
    }
  }

  /** The elements of an iterable or an array; none for any other value. */
  function Elements(x: Value): Option<seq<Value>>
  {
    match x
    case List(items) => Some(items)
    case Array(items) => Some(items)
    case _ => None
  }

  /** The values of a map, in entry order. */
  function MapValues(entries: seq<(Value, Value)>): (vs: seq<Value>)
    ensures |vs| == |entries|
    ensures forall k :: 0 <= k < |entries| ==> vs[k] == entries[k].1
  {
    if |entries| == 0 then [] else [entries[0].1] + MapValues(entries[1..])
  }

  function UniqueItems(unique: bool): Constraint
  {
    NewConstraint("all items must be unique", [],
                  (x: Value, _: Props) => Elements(x).Some? &&
                    (!unique || |Distinct(Elements(x).value)| == |Elements(x).value|))
  }

  function UniqueValues(unique: bool): Constraint
  {
    NewConstraint("all values must be unique", [],
                  (x: Value, _: Props) => x.Map? &&
                    (!unique || |Distinct(MapValues(x.entries))| == |MapValues(x.entries)|))
  }

  /**
   * `uniqueItems(true)` passes exactly on iterables and arrays in which no
   * element repeats; `uniqueItems(false)` passes on every one of them.
   */
  lemma UniqueItemsConstraint(unique: bool, x: Value, p: Props)
    requires Elements(x).Some?
    ensures UniqueItems(unique).test(x, p) <==> !unique || NoDuplicates(Elements(x).value)
    ensures ConstructHint(UniqueItems(unique), x) == "all items must be unique"
  {
    assert UniqueItems(unique).test(x, p) <==> !unique || NoDuplicates(Elements(x).value) by {
      DistinctCount(Elements(x).value);
    }
    assert ConstructHint(UniqueItems(unique), x) == "all items must be unique" by {
      assert '{' !in "all items must be unique";
      PlainHint(UniqueItems(unique), x);
    }
  }

  /** `uniqueValues(true)` passes exactly on maps in which no value repeats. */
  lemma UniqueValuesConstraint(unique: bool, x: Value, p: Props)
    requires x.Map?
    ensures UniqueValues(unique).test(x, p) <==>
      !unique || forall i, j :: 0 <= i < j < |x.entries| ==> x.entries[i].1 != x.entries[j].1
    ensures ConstructHint(UniqueValues(unique), x) == "all values must be unique"
  {
    UniqueValuesTest(unique, x, p);
    assert '{' !in "all values must be unique";
    PlainHint(UniqueValues(unique), x);
  }

  lemma UniqueValuesTest(unique: bool, x: Value, p: Props)
    requires x.Map?
    ensures UniqueValues(unique).test(x, p) <==>
      !unique || forall i, j :: 0 <= i < j < |x.entries| ==> x.entries[i].1 != x.entries[j].1
  {
    var vs := MapValues(x.entries);
    DistinctCount(vs);
    assert NoDuplicates(vs) <==> forall i, j :: 0 <= i < j < |x.entries| ==> x.entries[i].1 != x.entries[j].1;
  }
}
