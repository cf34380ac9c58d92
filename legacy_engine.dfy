/**
 * The older, purely functional engine of internal/Validation.kt: every
 * validation returns a `LegacyResult`, navigators re-key the errors of the
 * value they descend into, and `ValidationNode` folds its constraints and
 * sub-validations with `combineWith`.
 *
 * Constraint tests of this engine take the value only; the model reuses the
 * engine's `Constraint` and calls its test with an empty context map. The
 * descriptors are the engine's descriptors, a conditional one guarded by a
 * validation of this engine.
 */
module LegacyEngine {
  import opened Values
  import opened PathDescriptors
  import opened Constraints
  import opened LegacyResults

  datatype LegacyValidation =
    | NonNullProperty(property: PathDescriptor<LegacyValidation>, validation: LegacyValidation)
    | OptionalProperty(property: PathDescriptor<LegacyValidation>, validation: LegacyValidation)
    | RequiredProperty(property: PathDescriptor<LegacyValidation>, validation: LegacyValidation)
    | IterableOf(validation: LegacyValidation)
    | ArrayOf(validation: LegacyValidation)
    | MapOf(validation: LegacyValidation)
    | Node(constraints: seq<Constraint>, subValidations: seq<LegacyValidation>, combineWithOr: bool, shortCircuit: bool)
  {
    predicate IsProperty()
    {
      NonNullProperty? || OptionalProperty? || RequiredProperty?
    }
  }

  /** The one-argument test of a constraint. */
  predicate Passes(c: Constraint, x: Value)
  {
    c.test(x, map[])
  }

  /** The key transform `"<p>$it"`. */
  function PrefixWith(p: string): string -> string
  {
    s => p + s
  }

  function IndexPrefix(i: int): string
  {
    "[" + IntToString(i) + "]"
  }

  /** A result that ends a short-circuit fold: valid in OR mode, invalid in AND mode. */
  predicate Decisive(r: LegacyResult, or: bool)
  {
    if or then r.Valid? else r.Invalid?
  }

  // ---------------------------------------------------------------------
  // Evaluation
  // ---------------------------------------------------------------------

  /** `validate`: the result of `v` on `x`, or the exception it throws. */
  function Eval(v: LegacyValidation, x: Value): (r: Outcome<LegacyResult>)
    ensures r.Ok? ==> WellKeyed(r.value)
    decreases v, 3
  {
    match v
    case IterableOf(_) => if x.List? then EachFrom(v, x, x.items, 0, Valid(x)) else Throw(ClassCast)
    case ArrayOf(_) => if x.Array? then EachFrom(v, x, x.items, 0, Valid(x)) else Throw(ClassCast)
    case MapOf(_) => if x.Map? then EntriesFrom(v, x, x.entries, 0, Valid(x)) else Throw(ClassCast)
    case Node(_, _, _, _) => EvalNode(v, x)
    case _ => EvalProperty(v, x)
  }

  /** The guard of a conditional descriptor: the step is taken only when it yields `Valid`. */
  function Guard(d: PathDescriptor<LegacyValidation>, x: Value): Outcome<bool>
    decreases d, 4
  {
    if d.Conditional? then
      match Eval(d.condition, x)
      case Throw(e) => Throw(e)
      case Ok(r) => Ok(r.Valid?)
    else Ok(true)
  }

  /**
   * The three property navigators: a failed guard is valid; an absent value
   * is valid for an optional property and "is required" for a required one;
   * otherwise the inner result with ".name" in front of its keys.
   */
  function EvalProperty(v: LegacyValidation, x: Value): (r: Outcome<LegacyResult>)
    requires v.IsProperty()
    ensures r.Ok? ==> WellKeyed(r.value)
    decreases v, 2
  {
    match Guard(v.property, x)
    case Throw(e) => Throw(e)
    case Ok(false) => Ok(Valid(x))
    case Ok(true) =>
      match v.property.Get(x)
      case Throw(e) => Throw(e)
      case Ok(y) =>
        if y.Null? && v.OptionalProperty? then Ok(Valid(x))
        else if y.Null? && v.RequiredProperty? then Ok(Invalid([("." + v.property.Name(), ["is required"])]))
        else
          match Eval(v.validation, y)
          case Throw(e) => Throw(e)
          case Ok(inner) => Ok(Reattach(MapError(inner, PrefixWith("." + v.property.Name())), x))
  }

  /** `foldIndexed` of the iterable and array navigators: element `i` re-keyed with "[i]", AND-combined. */
  function EachFrom(v: LegacyValidation, x: Value, items: seq<Value>, i: nat, acc: LegacyResult): (r: Outcome<LegacyResult>)
    requires v.IterableOf? || v.ArrayOf?
    requires i <= |items|
    ensures WellKeyed(acc) && r.Ok? ==> WellKeyed(r.value)
    decreases v, 1, |items| - i
  {
    if i == |items| then Ok(acc)
    else
      match Eval(v.validation, items[i])
      case Throw(e) => Throw(e)
      case Ok(element) =>
        EachFrom(v, x, items, i + 1, Combine(acc, Reattach(MapError(element, PrefixWith(IndexPrefix(i))), x), false))
  }

  /**
   * `fold` of the map navigator over its entries, each re-keyed as written:
   * "." + key in front, a leading ".value" dropped, through `mapKeys`.
   */
  function EntriesFrom(v: LegacyValidation, x: Value, entries: seq<(Value, Value)>, i: nat, acc: LegacyResult): (r: Outcome<LegacyResult>)
    requires v.MapOf?
    requires i <= |entries|
    ensures WellKeyed(acc) && r.Ok? ==> WellKeyed(r.value)
    decreases v, 1, |entries| - i
  {
    if i == |entries| then Ok(acc)
    else
      match Eval(v.validation, Entry(entries[i].0, entries[i].1))
      case Throw(e) => Throw(e)
      case Ok(entry) =>
        EntriesFrom(v, x, entries, i + 1, Combine(acc, Reattach(EntryErrorsAsWritten(entry, entries[i].0), x), false))
  }

  /**
   * `ValidationNode.validate`: the constraints (`NoResult` when there are
   * none), then the sub-validations, each part returned on its own when it
   * decides a short-circuit node, otherwise the two combined.
   */
  function EvalNode(v: LegacyValidation, x: Value): (r: Outcome<LegacyResult>)
    requires v.Node?
    ensures r.Ok? ==> WellKeyed(r.value)
    decreases v, 2
  {
    var local :=
      if |v.constraints| == 0 then NoResult(x)
      else if v.combineWithOr then LocalOr(v.constraints, x, v.shortCircuit)
      else LocalAnd(v.constraints, x, v.shortCircuit);
    if v.shortCircuit && Decisive(local, v.combineWithOr) then Ok(local)
    else
      match SubsFrom(v, x, 0, NoResult(x))
      case Throw(e) => Throw(e)
      case Ok(sub) =>
        if v.shortCircuit && Decisive(sub, v.combineWithOr) then Ok(sub)
        else Ok(Combine(local, sub, v.combineWithOr))
  }

  /** `validateSubAnd`/`validateSubOr`: the fold from `NoResult`, stopping at a decisive result under short-circuit. */
  function SubsFrom(v: LegacyValidation, x: Value, i: nat, acc: LegacyResult): (r: Outcome<LegacyResult>)
    requires v.Node? && i <= |v.subValidations|
    ensures WellKeyed(acc) && r.Ok? ==> WellKeyed(r.value)
    decreases v, 1, |v.subValidations| - i
  {
    if i == |v.subValidations| then Ok(acc)
    else
      match Eval(v.subValidations[i], x)
      case Throw(e) => Throw(e)
      case Ok(sub) =>
        var combined := Combine(acc, sub, v.combineWithOr);
        if v.shortCircuit && Decisive(combined, v.combineWithOr) then Ok(combined)
        else SubsFrom(v, x, i + 1, combined)
  }

  /** `validateLocalAnd`: the hints of the failing constraints under "", or only the first one under short-circuit. */
  function LocalAnd(cs: seq<Constraint>, x: Value, short: bool): (r: LegacyResult)
    ensures WellKeyed(r)
  {
    LocalAndFrom(cs, x, short, 0, [])
  }

  function LocalAndFrom(cs: seq<Constraint>, x: Value, short: bool, i: nat, failing: seq<string>): (r: LegacyResult)
    requires i <= |cs|
    ensures WellKeyed(r)
    decreases |cs| - i
  {
    if i == |cs| then (if |failing| == 0 then Valid(x) else Invalid([("", failing)]))
    else if !Passes(cs[i], x) && short then Invalid([("", [ConstructHint(cs[i], x)])])
    else LocalAndFrom(cs, x, short, i + 1, failing + (if Passes(cs[i], x) then [] else [ConstructHint(cs[i], x)]))
  }

  /** `validateLocalOr`: valid when a constraint passes (the first under short-circuit), otherwise every hint under "". */
  function LocalOr(cs: seq<Constraint>, x: Value, short: bool): (r: LegacyResult)
    ensures WellKeyed(r)
  {
    LocalOrFrom(cs, x, short, 0, false)
  }

  function LocalOrFrom(cs: seq<Constraint>, x: Value, short: bool, i: nat, anyPassed: bool): (r: LegacyResult)
    requires i <= |cs|
    ensures WellKeyed(r)
    decreases |cs| - i
  {
    if i == |cs| then
      (if anyPassed || |cs| == 0 then Valid(x) else Invalid([("", Hints(cs, x))]))
    else if Passes(cs[i], x) && short then Valid(x)
    else LocalOrFrom(cs, x, short, i + 1, anyPassed || Passes(cs[i], x))
  }

  function Hints(cs: seq<Constraint>, x: Value): (r: seq<string>)
    ensures |r| == |cs| && forall k :: 0 <= k < |cs| ==> r[k] == ConstructHint(cs[k], x)
  {
    seq(|cs|, k requires 0 <= k < |cs| => ConstructHint(cs[k], x))
  }

  // ---------------------------------------------------------------------
  // Reference definitions
  // ---------------------------------------------------------------------

  /** The hints of the constraints from position `i` on that fail, in order. */
  function FailingFrom(cs: seq<Constraint>, x: Value, i: nat): (f: seq<string>)
    requires i <= |cs|
    ensures |f| <= |cs| - i
    ensures f == [] <==> forall k :: i <= k < |cs| ==> Passes(cs[k], x)
    decreases |cs| - i
  {
    if i == |cs| then []
    else (if Passes(cs[i], x) then [] else [ConstructHint(cs[i], x)]) + FailingFrom(cs, x, i + 1)
  }

  predicate SubsOk(v: LegacyValidation, x: Value)
    requires v.Node?
  {
    forall j :: 0 <= j < |v.subValidations| ==> Eval(v.subValidations[j], x).Ok?
  }

  // ---------------------------------------------------------------------
  // Laws
  // ---------------------------------------------------------------------

  lemma {:induction false} LocalAndFromLaw(cs: seq<Constraint>, x: Value, short: bool, i: nat, failing: seq<string>)
    requires i <= |cs| && (short ==> failing == [])
    ensures var f := failing + FailingFrom(cs, x, i);
      LocalAndFrom(cs, x, short, i, failing) == if f == [] then Valid(x) else Invalid([("", if short then [f[0]] else f)])
    decreases |cs| - i
  {
    if i == |cs| {
      assert failing + [] == failing;
    } else {
      var h := ConstructHint(cs[i], x);
      if Passes(cs[i], x) {
        LocalAndFromLaw(cs, x, short, i + 1, failing + []);
        assert failing + [] == failing;
        assert FailingFrom(cs, x, i) == [] + FailingFrom(cs, x, i + 1) == FailingFrom(cs, x, i + 1);
      } else if !short {
        LocalAndFromLaw(cs, x, short, i + 1, failing + [h]);
        assert (failing + [h]) + FailingFrom(cs, x, i + 1) == failing + ([h] + FailingFrom(cs, x, i + 1));
      } else {
        assert failing + FailingFrom(cs, x, i) == [h] + FailingFrom(cs, x, i + 1);
      }
    }
  }

  /**
   * `validateLocalAnd` collects the hint of every failing constraint under
   * the key "", in order, and is valid when none fails; under short-circuit
   * only the first failing hint is kept.
   */
  lemma LocalAndLaw(cs: seq<Constraint>, x: Value, short: bool)
    ensures var f := FailingFrom(cs, x, 0);
      LocalAnd(cs, x, short) == if f == [] then Valid(x) else Invalid([("", if short then [f[0]] else f)])
  {
    LocalAndFromLaw(cs, x, short, 0, []);
    assert [] + FailingFrom(cs, x, 0) == FailingFrom(cs, x, 0);
  }

  lemma {:induction false} LocalOrFromLaw(cs: seq<Constraint>, x: Value, short: bool, i: nat, anyPassed: bool)
    requires i <= |cs|
    ensures LocalOrFrom(cs, x, short, i, anyPassed) ==
      if anyPassed || |cs| == 0 || exists k :: i <= k < |cs| && Passes(cs[k], x) then Valid(x)
      else Invalid([("", Hints(cs, x))])
    decreases |cs| - i
  {
    if i < |cs| && !(Passes(cs[i], x) && short) {
      LocalOrFromLaw(cs, x, short, i + 1, anyPassed || Passes(cs[i], x));
      if exists k :: i <= k < |cs| && Passes(cs[k], x) {
        var k :| i <= k < |cs| && Passes(cs[k], x);
        if k > i {
          assert i + 1 <= k < |cs| && Passes(cs[k], x);
        }
      }
    }
  }

  /**
   * `validateLocalOr` is valid when some constraint passes (or there is
   * none); otherwise it lists every hint under the key "".
   */
  lemma LocalOrLaw(cs: seq<Constraint>, x: Value, short: bool)
    ensures LocalOr(cs, x, short) ==
      if |cs| == 0 || exists k :: 0 <= k < |cs| && Passes(cs[k], x) then Valid(x)
      else Invalid([("", Hints(cs, x))])
  {
    LocalOrFromLaw(cs, x, short, 0, false);
  }

  lemma SubsFromStep(v: LegacyValidation, x: Value, i: nat, acc: LegacyResult)
    requires v.Node? && i < |v.subValidations| && Eval(v.subValidations[i], x).Ok?
    ensures var sub := Eval(v.subValidations[i], x).value;
      var combined := Combine(acc, sub, v.combineWithOr);
      && (Decisive(combined, v.combineWithOr) <==> Decisive(acc, v.combineWithOr) || Decisive(sub, v.combineWithOr))
      && (v.shortCircuit && Decisive(combined, v.combineWithOr) ==> SubsFrom(v, x, i, acc) == Ok(combined))
      && (!(v.shortCircuit && Decisive(combined, v.combineWithOr)) ==> SubsFrom(v, x, i, acc) == SubsFrom(v, x, i + 1, combined))
  {
  }

  /**
   * The sub-validation fold of a node whose sub-validations all return:
   * it is decisive (valid for OR, invalid for AND) exactly when the start or
   * some sub-validation from `i` on is, and `NoResult` exactly when they
   * all are.
   */
  lemma {:induction false} SubsFromLaw(v: LegacyValidation, x: Value, i: nat, acc: LegacyResult)
    requires v.Node? && i <= |v.subValidations| && SubsOk(v, x)
    ensures SubsFrom(v, x, i, acc).Ok?
    ensures var r, or, subs := SubsFrom(v, x, i, acc).value, v.combineWithOr, v.subValidations;
      && (Decisive(r, or) <==> Decisive(acc, or) || exists j :: i <= j < |subs| && Decisive(Eval(subs[j], x).value, or))
      && (r.NoResult? <==> acc.NoResult? && forall j :: i <= j < |subs| ==> Eval(subs[j], x).value.NoResult?)
    decreases |v.subValidations| - i
  {
    var subs, or := v.subValidations, v.combineWithOr;
    if i < |subs| {
      assert Eval(subs[i], x).Ok?;
      var sub := Eval(subs[i], x).value;
      var combined := Combine(acc, sub, or);
      SubsFromStep(v, x, i, acc);
      if !(v.shortCircuit && Decisive(combined, or)) {
        SubsFromLaw(v, x, i + 1, combined);
        SubsFromTail(v, x, i, acc);
      }
    }
  }

  lemma SubsFromTail(v: LegacyValidation, x: Value, i: nat, acc: LegacyResult)
    requires v.Node? && i < |v.subValidations| && SubsOk(v, x)
    ensures var subs, or := v.subValidations, v.combineWithOr;
      var combined := Combine(acc, Eval(subs[i], x).value, or);
      && ((Decisive(combined, or) || exists j :: i + 1 <= j < |subs| && Decisive(Eval(subs[j], x).value, or))
          <==> (Decisive(acc, or) || exists j :: i <= j < |subs| && Decisive(Eval(subs[j], x).value, or)))
      && ((combined.NoResult? && forall j :: i + 1 <= j < |subs| ==> Eval(subs[j], x).value.NoResult?)
          <==> (acc.NoResult? && forall j :: i <= j < |subs| ==> Eval(subs[j], x).value.NoResult?))
  {
    assert Eval(v.subValidations[i], x).Ok?;
  }

  /**
   * An AND node whose sub-validations return is invalid exactly when a
   * constraint fails or a sub-validation is invalid, and `NoResult` exactly
   * when it has no constraints and every sub-validation is `NoResult`.
   */
  lemma AndNodeLaw(v: LegacyValidation, x: Value)
    requires v.Node? && !v.combineWithOr && SubsOk(v, x)
    ensures Eval(v, x).Ok?
    ensures var r, subs := Eval(v, x).value, v.subValidations;
      && (r.Invalid? <==> FailingFrom(v.constraints, x, 0) != [] || exists j :: 0 <= j < |subs| && Eval(subs[j], x).value.Invalid?)
      && (r.NoResult? <==> |v.constraints| == 0 && forall j :: 0 <= j < |subs| ==> Eval(subs[j], x).value.NoResult?)
  {
    SubsFromLaw(v, x, 0, NoResult(x));
    LocalAndLaw(v.constraints, x, v.shortCircuit);
  }

  /**
   * An OR node whose sub-validations return is valid exactly when a
   * constraint passes or a sub-validation is valid, and `NoResult` exactly
   * when it has no constraints and every sub-validation is `NoResult`.
   */
  lemma OrNodeLaw(v: LegacyValidation, x: Value)
    requires v.Node? && v.combineWithOr && SubsOk(v, x)
    ensures Eval(v, x).Ok?
    ensures var r, cs, subs := Eval(v, x).value, v.constraints, v.subValidations;
      && (r.Valid? <==> (exists k :: 0 <= k < |cs| && Passes(cs[k], x)) || exists j :: 0 <= j < |subs| && Eval(subs[j], x).value.Valid?)
      && (r.NoResult? <==> |cs| == 0 && forall j :: 0 <= j < |subs| ==> Eval(subs[j], x).value.NoResult?)
  {
    SubsFromLaw(v, x, 0, NoResult(x));
    LocalOrLaw(v.constraints, x, v.shortCircuit);
  }

  /** A conditional step whose guard is not `Valid` is valid without extracting anything. */
  lemma GuardFailureIsValid(v: LegacyValidation, x: Value)
    requires v.IsProperty() && v.property.Conditional?
    requires Eval(v.property.condition, x).Ok? && !Eval(v.property.condition, x).value.Valid?
    ensures Eval(v, x) == Ok(Valid(x))
  {
    assert Guard(v.property, x) == Ok(false);
  }

  /**
   * The property navigators once the guard lets them through: an absent
   * value is valid for an optional property and the single error
   * {".name": ["is required"]} for a required one; a present value gives the
   * inner result with ".name" in front of every key and the same messages.
   */
  lemma PropertyLaw(v: LegacyValidation, x: Value)
    requires v.IsProperty() && Guard(v.property, x) == Ok(true) && v.property.Get(x).Ok?
    ensures var y, name := v.property.Get(x).value, v.property.Name();
      && (y.Null? && v.OptionalProperty? ==> Eval(v, x) == Ok(Valid(x)))
      && (y.Null? && v.RequiredProperty? ==> Eval(v, x) == Ok(Invalid([("." + name, ["is required"])])))
      && (!(y.Null? && !v.NonNullProperty?) && Eval(v.validation, y).Ok? ==>
            var inner := Eval(v.validation, y).value;
            && Eval(v, x).Ok?
            && Eval(v, x).value.Valid? == inner.Valid?
            && Eval(v, x).value.NoResult? == inner.NoResult?
            && (inner.Invalid? ==> Eval(v, x).value == Invalid(Prefixed(inner.errors, "." + name))))
  {
    var y, name := v.property.Get(x).value, v.property.Name();
    if !(y.Null? && !v.NonNullProperty?) && Eval(v.validation, y).Ok? {
      var inner := Eval(v.validation, y).value;
      if inner.Invalid? {
        MapErrorPrefixes(inner, "." + name, PrefixWith("." + name));
      }
    }
  }

  // ---------------------------------------------------------------------
  // The iterable and array navigators
  // ---------------------------------------------------------------------

  predicate ItemsOk(w: LegacyValidation, items: seq<Value>, i: nat)
    requires i <= |items|
  {
    forall j :: i <= j < |items| ==> Eval(w, items[j]).Ok?
  }

  /** The messages of the elements from position `i` on. */
  function ItemMessages(w: LegacyValidation, items: seq<Value>, i: nat): nat
    requires i <= |items| && ItemsOk(w, items, i)
    decreases |items| - i
  {
    if i == |items| then 0 else Messages(Eval(w, items[i]).value) + ItemMessages(w, items, i + 1)
  }

  lemma EachStep(v: LegacyValidation, x: Value, items: seq<Value>, i: nat, acc: LegacyResult)
    requires (v.IterableOf? || v.ArrayOf?) && i < |items| && Eval(v.validation, items[i]).Ok?
    ensures var element := Eval(v.validation, items[i]).value;
      var step := Reattach(MapError(element, PrefixWith(IndexPrefix(i))), x);
      && EachFrom(v, x, items, i, acc) == EachFrom(v, x, items, i + 1, Combine(acc, step, false))
      && step.Invalid? == element.Invalid? && !step.NoResult? == !element.NoResult?
      && Messages(Combine(acc, step, false)) == Messages(acc) + Messages(element)
  {
    var element := Eval(v.validation, items[i]).value;
    var step := Reattach(MapError(element, PrefixWith(IndexPrefix(i))), x);
    if element.Invalid? {
      MapErrorPrefixes(element, IndexPrefix(i), PrefixWith(IndexPrefix(i)));
    }
    CombineAndCount(acc, step);
  }

  lemma {:induction false} EachFromLaw(v: LegacyValidation, x: Value, items: seq<Value>, i: nat, acc: LegacyResult)
    requires (v.IterableOf? || v.ArrayOf?) && i <= |items| && ItemsOk(v.validation, items, i)
    ensures EachFrom(v, x, items, i, acc).Ok?
    ensures var r := EachFrom(v, x, items, i, acc).value;
      && (r.Invalid? <==> acc.Invalid? || exists j :: i <= j < |items| && Eval(v.validation, items[j]).value.Invalid?)
      && Messages(r) == Messages(acc) + ItemMessages(v.validation, items, i)
    decreases |items| - i
  {
    if i < |items| {
      assert Eval(v.validation, items[i]).Ok?;
      var element := Eval(v.validation, items[i]).value;
      var step := Reattach(MapError(element, PrefixWith(IndexPrefix(i))), x);
      EachStep(v, x, items, i, acc);
      EachFromLaw(v, x, items, i + 1, Combine(acc, step, false));
      EachTail(v.validation, items, i, acc.Invalid?);
    }
  }

  lemma EachTail(w: LegacyValidation, items: seq<Value>, i: nat, start: bool)
    requires i < |items| && ItemsOk(w, items, i)
    ensures (start || Eval(w, items[i]).value.Invalid? || exists j :: i + 1 <= j < |items| && Eval(w, items[j]).value.Invalid?)
      <==> (start || exists j :: i <= j < |items| && Eval(w, items[j]).value.Invalid?)
  {
    assert Eval(w, items[i]).Ok?;
  }

  /**
   * The iterable and array navigators check every element, with no early
   * stop: when all elements return, the result is invalid exactly when some
   * element is, and it carries exactly the elements' messages.
   */
  lemma EachLaw(v: LegacyValidation, x: Value)
    requires (v.IterableOf? && x.List?) || (v.ArrayOf? && x.Array?)
    requires ItemsOk(v.validation, x.items, 0)
    ensures Eval(v, x).Ok?
    ensures var r := Eval(v, x).value;
      && (r.Invalid? <==> exists j :: 0 <= j < |x.items| && Eval(v.validation, x.items[j]).value.Invalid?)
      && (!r.Invalid? ==> r == Valid(x))
      && Messages(r) == ItemMessages(v.validation, x.items, 0)
  {
    EachFromLaw(v, x, x.items, 0, Valid(x));
    EachNeverEmpty(v, x, x.items, 0, Valid(x));
  }

  lemma {:induction false} EachNeverEmpty(v: LegacyValidation, x: Value, items: seq<Value>, i: nat, acc: LegacyResult)
    requires (v.IterableOf? || v.ArrayOf?) && i <= |items| && (acc == Valid(x) || acc.Invalid?)
    ensures EachFrom(v, x, items, i, acc).Ok? ==> EachFrom(v, x, items, i, acc).value == Valid(x) || EachFrom(v, x, items, i, acc).value.Invalid?
    decreases |items| - i
  {
    if i < |items| && Eval(v.validation, items[i]).Ok? {
      var element := Eval(v.validation, items[i]).value;
      var step := Reattach(MapError(element, PrefixWith(IndexPrefix(i))), x);
      EachNeverEmpty(v, x, items, i + 1, Combine(acc, step, false));
    }
  }

  // ---------------------------------------------------------------------
  // The map navigator
  // ---------------------------------------------------------------------

  predicate EntriesOk(w: LegacyValidation, entries: seq<(Value, Value)>, i: nat)
    requires i <= |entries|
  {
    forall j :: i <= j < |entries| ==> Eval(w, Entry(entries[j].0, entries[j].1)).Ok?
  }

  function EntryMessages(w: LegacyValidation, entries: seq<(Value, Value)>, i: nat): nat
    requires i <= |entries| && EntriesOk(w, entries, i)
    decreases |entries| - i
  {
    if i == |entries| then 0
    else Messages(Eval(w, Entry(entries[i].0, entries[i].1)).value) + EntryMessages(w, entries, i + 1)
  }

  lemma {:induction false} EntriesFromLaw(v: LegacyValidation, x: Value, entries: seq<(Value, Value)>, i: nat, acc: LegacyResult)
    requires v.MapOf? && i <= |entries| && EntriesOk(v.validation, entries, i)
    ensures EntriesFrom(v, x, entries, i, acc).Ok?
    ensures var r := EntriesFrom(v, x, entries, i, acc).value;
      && (r.Invalid? <==> acc.Invalid? || exists j :: i <= j < |entries| && Eval(v.validation, Entry(entries[j].0, entries[j].1)).value.Invalid?)
      && Messages(r) <= Messages(acc) + EntryMessages(v.validation, entries, i)
    decreases |entries| - i
  {
    if i < |entries| {
      assert Eval(v.validation, Entry(entries[i].0, entries[i].1)).Ok?;
      var entry := Eval(v.validation, Entry(entries[i].0, entries[i].1)).value;
      var step := Reattach(EntryErrorsAsWritten(entry, entries[i].0), x);
      EntryErrorsAsWrittenCount(entry, entries[i].0);
      CombineAndCount(acc, step);
      EntriesFromLaw(v, x, entries, i + 1, Combine(acc, step, false));
    }
  }

  /**
   * The map navigator as written checks every entry: when all entries
   * return, the result is invalid exactly when some entry is, and it carries
   * at most the entries' messages (an entry that failed both itself and in
   * its value keeps only the value's list).
   */
  lemma MapLaw(v: LegacyValidation, x: Value)
    requires v.MapOf? && x.Map? && EntriesOk(v.validation, x.entries, 0)
    ensures Eval(v, x).Ok?
    ensures var r := Eval(v, x).value;
      && (r.Invalid? <==> exists j :: 0 <= j < |x.entries| && Eval(v.validation, Entry(x.entries[j].0, x.entries[j].1)).value.Invalid?)
      && Messages(r) <= EntryMessages(v.validation, x.entries, 0)
  {
    EntriesFromLaw(v, x, x.entries, 0, Valid(x));
  }

  // ---------------------------------------------------------------------
  // The map navigator with the corrected re-keying
  // ---------------------------------------------------------------------

  /** The entry fold with the re-keying evidently intended: lists that meet under one key are concatenated. */
  function EntriesFromCorrected(v: LegacyValidation, x: Value, entries: seq<(Value, Value)>, i: nat, acc: LegacyResult): (r: Outcome<LegacyResult>)
    requires v.MapOf?
    requires i <= |entries|
    ensures WellKeyed(acc) && r.Ok? ==> WellKeyed(r.value)
    decreases |entries| - i
  {
    if i == |entries| then Ok(acc)
    else
      match Eval(v.validation, Entry(entries[i].0, entries[i].1))
      case Throw(e) => Throw(e)
      case Ok(entry) =>
        EntriesFromCorrected(v, x, entries, i + 1, Combine(acc, Reattach(EntryErrors(entry, entries[i].0), x), false))
  }

  /** The map navigator with the corrected re-keying. */
  function EvalMapCorrected(v: LegacyValidation, x: Value): (r: Outcome<LegacyResult>)
    requires v.MapOf?
    ensures r.Ok? ==> WellKeyed(r.value)
  {
    if x.Map? then EntriesFromCorrected(v, x, x.entries, 0, Valid(x)) else Throw(ClassCast)
  }

  lemma {:induction false} EntriesFromCorrectedLaw(v: LegacyValidation, x: Value, entries: seq<(Value, Value)>, i: nat, acc: LegacyResult)
    requires v.MapOf? && i <= |entries| && EntriesOk(v.validation, entries, i)
    ensures EntriesFromCorrected(v, x, entries, i, acc).Ok?
    ensures var r := EntriesFromCorrected(v, x, entries, i, acc).value;
      && (r.Invalid? <==> acc.Invalid? || exists j :: i <= j < |entries| && Eval(v.validation, Entry(entries[j].0, entries[j].1)).value.Invalid?)
      && Messages(r) == Messages(acc) + EntryMessages(v.validation, entries, i)
    decreases |entries| - i
  {
    if i < |entries| {
      assert Eval(v.validation, Entry(entries[i].0, entries[i].1)).Ok?;
      var entry := Eval(v.validation, Entry(entries[i].0, entries[i].1)).value;
      var step := Reattach(EntryErrors(entry, entries[i].0), x);
      EntryErrorsKeepMessages(entry, entries[i].0);
      CombineAndCount(acc, step);
      EntriesFromCorrectedLaw(v, x, entries, i + 1, Combine(acc, step, false));
    }
  }

  /**
   * The corrected map navigator checks every entry: when all entries
   * return, the result is invalid exactly when some entry is, and it carries
   * exactly the entries' messages. It agrees with the navigator as written
   * on whether the map is valid.
   */
  lemma MapLawCorrected(v: LegacyValidation, x: Value)
    requires v.MapOf? && x.Map? && EntriesOk(v.validation, x.entries, 0)
    ensures EvalMapCorrected(v, x).Ok? && Eval(v, x).Ok?
    ensures var r := EvalMapCorrected(v, x).value;
      && (r.Invalid? <==> exists j :: 0 <= j < |x.entries| && Eval(v.validation, Entry(x.entries[j].0, x.entries[j].1)).value.Invalid?)
      && r.Invalid? == Eval(v, x).value.Invalid?
      && Messages(r) == EntryMessages(v.validation, x.entries, 0)
  {
    EntriesFromCorrectedLaw(v, x, x.entries, 0, Valid(x));
    MapLaw(v, x);
  }
}
