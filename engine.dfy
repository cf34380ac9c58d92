/**
 * The stack-based evaluator: one `validate(aValue, aContext)` per validation
 * class of internal/Validations.kt and NonRepeatingValidation.kt, and the
 * entry points `validate(value, map)` and `invoke` of Validation.kt. Each
 * method is proved to do to the context what `Eval` says.
 */
module Engine {
  import opened Values
  import opened PathDescriptors
  import opened ValidationResults
  import opened Constraints
  import opened Validations
  import opened ValidationContexts

  /**
   * A call ended as `run` prescribes, starting from the stack `oldStack`, the
   * root `oldRoot` and the current node `oldCurrent`: an exception is
   * rethrown; a pass returns true and leaves the stack and root as they
   * were; a failure attaches the failure node to the old current node (which
   * may throw) and returns false. In both non-throwing cases the property map
   * is the one the run leaves.
   */
  ghost predicate Follows(run: Run, r: Outcome<bool>, ctx: ValidationContext, oldStack: seq<Node>, oldRoot: Node, oldCurrent: Node)
    reads ctx, ctx.properties
    requires oldCurrent.IsCompound()
  {
    match run
    case Threw(e) => r == Throw(e)
    case Ran(p, None) => r == Ok(true) && ctx.properties.entries == p && ctx.stack == oldStack && ctx.root == oldRoot
    case Ran(p, Some(f)) =>
      match Attach(oldCurrent, f)
      case Throw(e) => r == Throw(e)
      case Ok(n) => r == Ok(false) && ctx.properties.entries == p && ctx.CurrentReplaced(oldStack, oldRoot, n)
  }

  /**
   * The common tail of every navigator and of `ObjectValidation.validate`:
   * the group on top of `base` is discarded when the node passed, and
   * attached to the node below it when it failed.
   */
  method Close(ctx: ValidationContext, passed: bool, ghost base: seq<Node>) returns (r: Outcome<bool>)
    requires ctx.Valid() && |ctx.stack| > 0 && ctx.stack[..|ctx.stack| - 1] == base
    modifies ctx
    ensures ctx.Valid()
    ensures |base| == 0 || base[|base| - 1].IsCompound()
    ensures Follows(Ran(ctx.properties.entries, if passed then None else Some(old(ctx.Current()))), r, ctx,
      base, old(ctx.root), if |base| == 0 then old(ctx.root) else base[|base| - 1])
  {
    assert |base| > 0 ==> base[|base| - 1] == ctx.stack[|base| - 1];
    if passed {
      var _ := ctx.Pop();
      return Ok(true);
    }
    var c := ctx.PopAndAddToParent();
    if c.Abrupt? {
      return Throw(c.exception);
    }
    r := Ok(false);
  }

  /** `validate(aValue, aContext)` of any validation. */
  method Validate(v: Validation, x: Value, ctx: ValidationContext) returns (r: Outcome<bool>)
    requires ctx.Valid()
    modifies ctx, ctx.properties
    ensures ctx.Valid()
    ensures Follows(Eval(v, x, old(ctx.properties.entries)), r, ctx, old(ctx.stack), old(ctx.root), old(ctx.Current()))
    decreases v, 4
  {
    match v
    case ObjectValidation(_, _, _, _) => r := ValidateObject(v, x, ctx);
    case NonRepeatingValidation => r := ValidateNonRepeating(x, ctx);
    case IterableValidation(_, _) => r := ValidateEach(v, x, ctx);
    case ArrayValidation(_, _) => r := ValidateEach(v, x, ctx);
    case MapValidation(_, _) => r := ValidateEach(v, x, ctx);
    case UndefinedProperty(_, _) => r := ValidateProperty(v, x, ctx);
    case OptionalProperty(_, _) => r := ValidateProperty(v, x, ctx);
    case RequiredProperty(_, _) => r := ValidateProperty(v, x, ctx);
  }

  /**
   * The guard of a conditional descriptor, run on `copyForCondition`: a new
   * context for `x` sharing the property map. True when there is no guard.
   */
  method CheckGuard(d: PathDescriptor<Validation>, x: Value, ctx: ValidationContext) returns (r: Outcome<bool>)
    requires ctx.Valid()
    modifies ctx.properties
    ensures var guard := Guard(d, x, old(ctx.properties.entries));
      && (guard.Threw? ==> r == Throw(guard.exception))
      && (guard.Ran? ==> r == Ok(guard.failure.None?) && ctx.properties.entries == guard.props)
    decreases d, 5
  {
    if !d.Conditional? {
      return Ok(true);
    }
    var copy := new ValidationContext(x, ctx.properties);
    r := Validate(d.condition, x, copy);
  }

  /** `Undefined`, `Optional` and `RequiredPropertyValidation.validate`. */
  method ValidateProperty(v: Validation, x: Value, ctx: ValidationContext) returns (r: Outcome<bool>)
    requires v.IsProperty() && ctx.Valid()
    modifies ctx, ctx.properties
    ensures ctx.Valid()
    ensures Follows(EvalProperty(v, x, old(ctx.properties.entries)), r, ctx, old(ctx.stack), old(ctx.root), old(ctx.Current()))
    decreases v, 2
  {
    var guard := CheckGuard(v.path, x, ctx);
    if guard.Throw? {
      return guard;
    }
    if !guard.value {
      return Ok(true);
    }
    var got := Extract(v.path, x);
    if got.Throw? {
      return Throw(got.exception);
    }
    r := ValidateDescend(v, got.value, ctx);
  }

  /** The navigator once its descriptor has produced `y`. */
  method ValidateDescend(v: Validation, y: Value, ctx: ValidationContext) returns (r: Outcome<bool>)
    requires v.IsProperty() && ctx.Valid()
    modifies ctx, ctx.properties
    ensures ctx.Valid()
    ensures Follows(Descend(v, y, old(ctx.properties.entries)), r, ctx, old(ctx.stack), old(ctx.root), old(ctx.Current()))
    decreases v, 1
  {
    if v.OptionalProperty? && y.Null? {
      return Ok(true);
    }
    if v.RequiredProperty? && y.Null? {
      r := ReportRequired(v, y, ctx);
      return;
    }
    r := DescendInto(v, y, ctx);
  }

  /**
   * A required property whose value is null: the navigator's `PathResult`
   * receives an `AndResult` holding the "is required" error and is attached
   * to the current node.
   */
  method ReportRequired(v: Validation, y: Value, ctx: ValidationContext) returns (r: Outcome<bool>)
    requires v.RequiredProperty? && y.Null? && ctx.Valid()
    modifies ctx
    ensures ctx.Valid()
    ensures Follows(Descend(v, y, ctx.properties.entries), r, ctx, old(ctx.stack), old(ctx.root), old(ctx.Current()))
  {
    var required := Error("is required", Null);
    ctx.Push(PathResult(v.path, y, []));
    ctx.Push(AndResult(y, []));
    var _ := ctx.AddInvalidResult(required);
    assert LogicalAddError(AndResult(y, []), required) == AndResult(y, [required]);
    assert ctx.stack == old(ctx.stack) + [PathResult(v.path, y, []), AndResult(y, [required])];
    var _ := ctx.PopAndAddToParent();
    r := Close(ctx, false, old(ctx.stack));
  }

  /** A present value: the inner validation runs inside the navigator's `PathResult`. */
  method DescendInto(v: Validation, y: Value, ctx: ValidationContext) returns (r: Outcome<bool>)
    requires v.IsProperty() && !(y.Null? && (v.OptionalProperty? || v.RequiredProperty?)) && ctx.Valid()
    modifies ctx, ctx.properties
    ensures ctx.Valid()
    ensures Follows(Descend(v, y, old(ctx.properties.entries)), r, ctx, old(ctx.stack), old(ctx.root), old(ctx.Current()))
    decreases v, 0
  {
    ctx.Push(PathResult(v.path, y, []));
    var inner := Validate(v.validation, y, ctx);
    if inner.Throw? {
      return inner;
    }
    r := Close(ctx, inner.value, old(ctx.stack));
  }

  /** One element of an each-navigator, on a context whose current node is the navigator's `AndResult`. */
  method ValidateVisit(v: Validation, visit: Visit, ok: bool, ctx: ValidationContext) returns (r: Outcome<bool>)
    requires v.IsEach() && ctx.Valid() && |ctx.stack| > 0 && ctx.Current().AndResult?
    modifies ctx, ctx.properties
    ensures ctx.Valid()
    ensures match VisitStep(v, visit, old(ctx.properties.entries), ok, old(ctx.Current()))
      case GroupThrew(e) => r == Throw(e)
      case GroupState(p, ok', group) =>
        r == Ok(ok') && ctx.properties.entries == p && ctx.CurrentReplaced(old(ctx.stack), old(ctx.root), group)
    decreases v, 1
  {
    assert ctx.stack == ctx.stack[..|ctx.stack| - 1] + [ctx.Current()];
    if !visit.considered {
      return Ok(ok);
    }
    r := VisitElement(v, visit, ok, ctx);
  }

  /** An element the allow-list admits: validated inside a `PathResult` for it, which is attached when it fails. */
  method VisitElement(v: Validation, visit: Visit, ok: bool, ctx: ValidationContext) returns (r: Outcome<bool>)
    requires v.IsEach() && visit.considered && ctx.Valid() && |ctx.stack| > 0 && ctx.Current().AndResult?
    modifies ctx, ctx.properties
    ensures ctx.Valid()
    ensures match VisitStep(v, visit, old(ctx.properties.entries), ok, old(ctx.Current()))
      case GroupThrew(e) => r == Throw(e)
      case GroupState(p, ok', group) =>
        r == Ok(ok') && ctx.properties.entries == p && ctx.CurrentReplaced(old(ctx.stack), old(ctx.root), group)
    decreases v, 0
  {
    ctx.Push(PathResult(visit.path, visit.element, []));
    var inner := Validate(v.validation, visit.element, ctx);
    if inner.Throw? {
      return inner;
    }
    if inner.value {
      var _ := ctx.Pop();
      return Ok(ok);
    }
    var _ := ctx.PopAndAddToParent();
    r := Ok(false);
  }

  /** `IterableValidation`, `ArrayValidation` and `MapValidation.validate`: a fold over the elements without early stop. */
  method ValidateEach(v: Validation, x: Value, ctx: ValidationContext) returns (r: Outcome<bool>)
    requires v.IsEach() && ctx.Valid()
    modifies ctx, ctx.properties
    ensures ctx.Valid()
    ensures Follows(EvalEach(v, x, old(ctx.properties.entries)), r, ctx, old(ctx.stack), old(ctx.root), old(ctx.Current()))
    decreases v, 3
  {
    var visits := Visits(v, x);
    if visits.Throw? {
      return Throw(visits.exception);
    }
    ctx.Push(AndResult(x, []));
    var all := VisitAll(v, visits.value, ctx);
    if all.Throw? {
      return all;
    }
    r := Close(ctx, all.value, old(ctx.stack));
  }

  /** The loop of an each-navigator over `visits`, on the navigator's `AndResult` on top of the stack. */
  method VisitAll(v: Validation, visits: seq<Visit>, ctx: ValidationContext) returns (r: Outcome<bool>)
    requires v.IsEach() && ctx.Valid() && |ctx.stack| > 0 && ctx.Current().AndResult?
    modifies ctx, ctx.properties
    ensures ctx.Valid()
    ensures match EachFrom(v, visits, 0, old(ctx.properties.entries), true, old(ctx.Current()))
      case GroupThrew(e) => r == Throw(e)
      case GroupState(p, ok, group) =>
        r == Ok(ok) && ctx.properties.entries == p && ctx.CurrentReplaced(old(ctx.stack), old(ctx.root), group)
    decreases v, 2
  {
    var ok := true;
    var i := 0;
    while i < |visits|
      invariant 0 <= i <= |visits|
      invariant ctx.Valid() && ctx.root == old(ctx.root)
      invariant |ctx.stack| > 0 && ctx.stack[..|ctx.stack| - 1] == old(ctx.stack)[..|old(ctx.stack)| - 1]
      invariant ctx.Current().AndResult?
      invariant EachFrom(v, visits, 0, old(ctx.properties.entries), true, old(ctx.Current()))
        == EachFrom(v, visits, i, ctx.properties.entries, ok, ctx.Current())
    {
      r := ValidateVisit(v, visits[i], ok, ctx);
      if r.Throw? {
        return;
      }
      ok := r.value;
      i := i + 1;
    }
    assert ctx.stack == old(ctx.stack)[..|old(ctx.stack)| - 1] + [ctx.Current()];
    r := Ok(ok);
  }

  /** One constraint of `ObjectValidation`: a failure adds its leaf to the current group. */
  method CheckConstraint(c: Constraint, x: Value, or: bool, short: bool, acc: Option<bool>, ctx: ValidationContext)
    returns (early: bool, next: Option<bool>)
    requires ctx.Valid() && |ctx.stack| > 0 && ctx.Current().IsLogical()
    modifies ctx
    ensures ctx.Valid()
    ensures var step := ConstraintStep(c, x, ctx.properties.entries, or, short, acc, old(ctx.Current()));
      early == step.early && next == step.acc && ctx.CurrentReplaced(old(ctx.stack), old(ctx.root), step.group)
  {
    assert ctx.stack == ctx.stack[..|ctx.stack| - 1] + [ctx.Current()];
    var pass := c.test(x, ctx.properties.entries);
    if !pass {
      var _ := ctx.AddInvalidResult(Leaf(c, x));
    }
    if pass == or && short {
      return true, Some(or);
    }
    return false, Step(or, acc, pass);
  }

  /** One sub-validation of `ObjectValidation`: its failure is added to the current group. */
  method CheckSub(v: Validation, i: nat, x: Value, acc: Option<bool>, ctx: ValidationContext)
    returns (early: Outcome<bool>, next: Option<bool>)
    requires v.ObjectValidation? && i < |v.subValidations|
    requires ctx.Valid() && |ctx.stack| > 0 && ctx.Current().IsLogical()
    modifies ctx, ctx.properties
    ensures ctx.Valid()
    ensures match SubStep(v, i, x, old(ctx.properties.entries), acc, old(ctx.Current()))
      case FoldThrew(e) => early == Throw(e)
      case Fold(p, acc', group, stop) =>
        early == Ok(stop) && next == acc' && ctx.properties.entries == p
        && ctx.CurrentReplaced(old(ctx.stack), old(ctx.root), group)
    decreases v, 0
  {
    assert ctx.stack == ctx.stack[..|ctx.stack| - 1] + [ctx.Current()];
    var pass := Validate(v.subValidations[i], x, ctx);
    if pass.Throw? {
      return pass, acc;
    }
    if pass.value == v.combineWithOr && v.shortCircuit {
      return Ok(true), Some(pass.value);
    }
    return Ok(false), Step(v.combineWithOr, acc, pass.value);
  }

  /** The constraint fold of `validateAndIntern` / `validateOrIntern`, on the group on top of the stack. */
  method FoldConstraints(v: Validation, x: Value, ctx: ValidationContext) returns (early: bool, acc: Option<bool>)
    requires v.ObjectValidation? && ctx.Valid() && |ctx.stack| > 0 && ctx.Current().IsLogical()
    modifies ctx
    ensures ctx.Valid()
    ensures var fold := ConstraintsFrom(v.constraints, 0, x, ctx.properties.entries, v.combineWithOr, v.shortCircuit, None, old(ctx.Current()));
      early == fold.early && acc == fold.acc && ctx.CurrentReplaced(old(ctx.stack), old(ctx.root), fold.group)
  {
    var or, short := v.combineWithOr, v.shortCircuit;
    ghost var props := ctx.properties.entries;
    acc := None;
    var i := 0;
    while i < |v.constraints|
      invariant 0 <= i <= |v.constraints|
      invariant ctx.Valid() && ctx.root == old(ctx.root)
      invariant |ctx.stack| > 0 && ctx.stack[..|ctx.stack| - 1] == old(ctx.stack)[..|old(ctx.stack)| - 1]
      invariant ctx.Current().IsLogical()
      invariant ConstraintsFrom(v.constraints, 0, x, props, or, short, None, old(ctx.Current()))
        == ConstraintsFrom(v.constraints, i, x, props, or, short, acc, ctx.Current())
    {
      early, acc := CheckConstraint(v.constraints[i], x, or, short, acc, ctx);
      if early {
        return;
      }
      i := i + 1;
    }
    early := false;
  }

  /** The sub-validation fold of `validateAndIntern` / `validateOrIntern`, on the group on top of the stack. */
  method FoldSubs(v: Validation, x: Value, ctx: ValidationContext) returns (early: Outcome<bool>, acc: Option<bool>)
    requires v.ObjectValidation? && ctx.Valid() && |ctx.stack| > 0 && ctx.Current().IsLogical()
    modifies ctx, ctx.properties
    ensures ctx.Valid()
    ensures match SubsFrom(v, 0, x, old(ctx.properties.entries), None, old(ctx.Current()))
      case FoldThrew(e) => early == Throw(e)
      case Fold(p, acc', group, stop) =>
        early == Ok(stop) && acc == acc' && ctx.properties.entries == p
        && ctx.CurrentReplaced(old(ctx.stack), old(ctx.root), group)
    decreases v, 1
  {
    acc := None;
    var i := 0;
    while i < |v.subValidations|
      invariant 0 <= i <= |v.subValidations|
      invariant ctx.Valid() && ctx.root == old(ctx.root)
      invariant |ctx.stack| > 0 && ctx.stack[..|ctx.stack| - 1] == old(ctx.stack)[..|old(ctx.stack)| - 1]
      invariant ctx.Current().IsLogical()
      invariant SubsFrom(v, 0, x, old(ctx.properties.entries), None, old(ctx.Current()))
        == SubsFrom(v, i, x, ctx.properties.entries, acc, ctx.Current())
    {
      early, acc := CheckSub(v, i, x, acc, ctx);
      if early.Throw? || early.value {
        return;
      }
      i := i + 1;
    }
    early := Ok(false);
  }

  /** `validateIntern`: the constraint fold, then the sub-validation fold, on the freshly pushed group. */
  method ValidateIntern(v: Validation, x: Value, ctx: ValidationContext) returns (r: Outcome<bool>)
    requires v.ObjectValidation? && ctx.Valid() && |ctx.stack| > 0 && ctx.Current() == EmptyGroup(x, v.combineWithOr)
    modifies ctx, ctx.properties
    ensures ctx.Valid()
    ensures match Intern(v, x, old(ctx.properties.entries))
      case GroupThrew(e) => r == Throw(e)
      case GroupState(p, ok, group) =>
        r == Ok(ok) && ctx.properties.entries == p && ctx.CurrentReplaced(old(ctx.stack), old(ctx.root), group)
    decreases v, 2
  {
    var or := v.combineWithOr;
    var early, constraintResult := FoldConstraints(v, x, ctx);
    if early {
      return Ok(or);
    }
    var stopped, subResult := FoldSubs(v, x, ctx);
    if stopped.Throw? {
      return Throw(stopped.exception);
    }
    r := Ok(if stopped.value then or else Combine(or, constraintResult, subResult));
  }

  /** `ObjectValidation.validate`: push an AND or OR group, run `validateIntern`, then discard or attach the group. */
  method ValidateObject(v: Validation, x: Value, ctx: ValidationContext) returns (r: Outcome<bool>)
    requires v.ObjectValidation? && ctx.Valid()
    modifies ctx, ctx.properties
    ensures ctx.Valid()
    ensures Follows(EvalObject(v, x, old(ctx.properties.entries)), r, ctx, old(ctx.stack), old(ctx.root), old(ctx.Current()))
    decreases v, 3
  {
    ctx.Push(EmptyGroup(x, v.combineWithOr));
    var passed := ValidateIntern(v, x, ctx);
    if passed.Throw? {
      return passed;
    }
    r := Close(ctx, passed.value, old(ctx.stack));
  }

  /** `NonRepeatingValidation.validate`: the visited set in the property map guards against cycles. */
  method ValidateNonRepeating(x: Value, ctx: ValidationContext) returns (r: Outcome<bool>)
    requires ctx.Valid()
    modifies ctx, ctx.properties
    ensures ctx.Valid()
    ensures Follows(EvalNonRepeating(x, old(ctx.properties.entries)), r, ctx, old(ctx.stack), old(ctx.root), old(ctx.Current()))
  {
    var stored := if NonRepeatingKey in ctx.properties.entries then ctx.properties.entries[NonRepeatingKey] else PValue(Null);
    if stored.PValue? && stored.v.Null? {
      stored := PVisited({});
      ctx.properties.entries := ctx.properties.entries[NonRepeatingKey := stored];
    }
    if !stored.PVisited? {
      return Throw(IllegalState(""));
    }
    if x !in stored.visited {
      ctx.properties.entries := ctx.properties.entries[NonRepeatingKey := PVisited(stored.visited + {x})];
      return Ok(true);
    }
    var repeated := Error("Can not validate the same object twice.", x);
    ctx.Push(AndResult(x, []));
    var _ := ctx.AddInvalidResult(repeated);
    assert LogicalAddError(AndResult(x, []), repeated) == AndResult(x, [repeated]);
    assert ctx.stack == old(ctx.stack) + [AndResult(x, [repeated])];
    r := Close(ctx, false, old(ctx.stack));
  }

  /**
   * `validate(value, contextMap)`: a run on a new context holding a copy of
   * the caller's map; `Valid(value)` when the validation passed, otherwise
   * the root of the failure tree.
   */
  method ValidateWith(v: Validation, value: Value, contextMap: Props) returns (r: Outcome<ValidationResult<Validation>>)
    ensures var run := Eval(v, value, contextMap);
      && (run.Threw? ==> r == Throw(run.exception))
      && (run.Passed() ==> r == Ok(Valid(value)))
      && (run.Ran? && run.failure.Some? ==> r == Ok(NotValid(PathResult(This, value, [run.failure.value]))))
  {
    var properties := new PropertyMap(contextMap);
    var ctx := new ValidationContext(value, properties);
    var passed := Validate(v, value, ctx);
    if passed.Throw? {
      return Throw(passed.exception);
    }
    var root := ctx.Finish();
    match root
    case Throw(e) => r := Throw(e);
    case Ok(node) => r := if passed.value then Ok(Valid(value)) else Ok(NotValid(node));
  }

  /** `invoke(aValue)`: `validate` with an empty map. */
  method Invoke(v: Validation, value: Value) returns (r: Outcome<ValidationResult<Validation>>)
    ensures var run := Eval(v, value, map[]);
      && (run.Threw? ==> r == Throw(run.exception))
      && (run.Passed() ==> r == Ok(Valid(value)))
      && (run.Ran? && run.failure.Some? ==> r == Ok(NotValid(PathResult(This, value, [run.failure.value]))))
  {
    r := ValidateWith(v, value, map[]);
  }
}
