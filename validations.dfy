/**
 * The validation tree (internal/Validations.kt and the cycle guard of the
 * kModel module) and its meaning.
 *
 * Every Kotlin `validate(aValue, aContext)` works on the context's stack:
 * it pushes a group, fills it, and then either discards it (returning true)
 * or attaches it to the node that was current when it started (returning
 * false). The groups a validation pushes are always fresh, so everything it
 * does apart from the final attachment does not depend on the caller's
 * stack. `Eval` states that meaning as a value: the property map after the
 * run, and the one failure node that is attached to the caller's current
 * node, or none when the validation passed. The stack-based methods of
 * engine.dfy are proved to follow it.
 */
module Validations {
  import opened Values
  import opened PathDescriptors
  import opened ValidationResults
  import opened Constraints

  /**
   * The validation classes of internal/Validations.kt, plus the cycle guard
   * of NonRepeatingValidation.kt. A conditional path descriptor carries its
   * guard, itself a validation.
   */
  datatype Validation =
    | UndefinedProperty(path: PathDescriptor<Validation>, validation: Validation)
    | OptionalProperty(path: PathDescriptor<Validation>, validation: Validation)
    | RequiredProperty(path: PathDescriptor<Validation>, validation: Validation)
    | IterableValidation(validation: Validation, indexList: seq<int>)
    | ArrayValidation(validation: Validation, indexList: seq<int>)
    | MapValidation(validation: Validation, keyList: seq<Value>)
    | ObjectValidation(constraints: seq<Constraint>, subValidations: seq<Validation>, combineWithOr: bool, shortCircuit: bool)
    | NonRepeatingValidation
  {
    predicate IsProperty()
    {
      UndefinedProperty? || OptionalProperty? || RequiredProperty?
    }

    predicate IsEach()
    {
      IterableValidation? || ArrayValidation? || MapValidation?
    }
  }

  type Node = Invalid<Validation>

  /**
   * The effect of one `validate` call: it throws, or it leaves the property
   * map `props` and attaches `failure` (if any) to the caller's current node.
   */
  datatype Run = Threw(exception: Exception) | Ran(props: Props, failure: Option<Node>)
  {
    /** The call returned true. */
    predicate Passed()
    {
      Ran? && failure.None?
    }
  }

  /** The key under which the cycle guard keeps its visited set. */
  const NonRepeatingKey := "nonRepeatingList"

  /** The leaf a failed constraint adds: an error, or a warning when `isError` is false. */
  function Leaf(c: Constraint, x: Value): (r: Node)
    ensures r.IsLeaf() && r.value == x && r.message == ConstructHint(c, x)
    ensures r.Error? <==> c.isError
  {
    if c.isError then Error(ConstructHint(c, x), x) else Warning(ConstructHint(c, x), x)
  }

  /** The empty group an `ObjectValidation` pushes. */
  function EmptyGroup(x: Value, or: bool): (g: Node)
    ensures g.IsLogical() && g.value == x && g.errors == [] && (g.OrResult? <==> or)
  {
    if or then OrResult(x, []) else AndResult(x, [])
  }

  // ---------------------------------------------------------------------
  // The meaning of a validation
  // ---------------------------------------------------------------------

  function Eval(v: Validation, x: Value, props: Props): (r: Run)
    ensures r.Ran? && r.failure.Some? ==> r.failure.value.IsCompound()
    decreases v, 4
  {
    match v
    case ObjectValidation(_, _, _, _) => EvalObject(v, x, props)
    case NonRepeatingValidation => EvalNonRepeating(x, props)
    case IterableValidation(_, _) => EvalEach(v, x, props)
    case ArrayValidation(_, _) => EvalEach(v, x, props)
    case MapValidation(_, _) => EvalEach(v, x, props)
    case UndefinedProperty(_, _) => EvalProperty(v, x, props)
    case OptionalProperty(_, _) => EvalProperty(v, x, props)
    case RequiredProperty(_, _) => EvalProperty(v, x, props)
  }

  /**
   * The guard of a conditional descriptor. It runs on a fresh context that
   * shares the property map, so only its effect on the map survives.
   */
  function Guard(d: PathDescriptor<Validation>, x: Value, props: Props): (r: Run)
    ensures r.Ran? && r.failure.Some? ==> r.failure.value.IsCompound()
    decreases d, 5
  {
    if d.Conditional? then Eval(d.condition, x, props) else Ran(props, None)
  }

  /**
   * `Undefined`, `Optional` and `RequiredPropertyValidation`: a failed guard
   * passes without extracting; otherwise the extracted value is validated.
   */
  function EvalProperty(v: Validation, x: Value, props: Props): (r: Run)
    requires v.IsProperty()
    ensures r.Ran? && r.failure.Some? ==> r.failure.value.PathResult? && r.failure.value.path == v.path
    decreases v, 2
  {
    var guard := Guard(v.path, x, props);
    if guard.Threw? then guard
    else if guard.failure.Some? then Ran(guard.props, None)
    else match v.path.Get(x)
      case Throw(e) => Threw(e)
      case Ok(y) => Descend(v, y, guard.props)
  }

  /**
   * The navigator once its descriptor has produced `y`: an optional
   * property passes on null, a required one fails with "is required", and
   * otherwise a failure of the inner validation is wrapped in a
   * `PathResult` for the descriptor.
   */
  function Descend(v: Validation, y: Value, props: Props): (r: Run)
    requires v.IsProperty()
    ensures r.Ran? && r.failure.Some? ==> r.failure.value.PathResult? && r.failure.value.path == v.path
    decreases v, 1
  {
    if v.OptionalProperty? && y.Null? then Ran(props, None)
    else if v.RequiredProperty? && y.Null? then
      Ran(props, Some(PathResult(v.path, y, [AndResult(y, [Error("is required", Null)])])))
    else
      var inner := Eval(v.validation, y, props);
      if inner.Threw? then inner
      else if inner.failure.None? then inner
      else Ran(inner.props, Some(PathResult(v.path, y, [inner.failure.value])))
  }

  // ---------------------------------------------------------------------
  // Each-navigators
  // ---------------------------------------------------------------------

  /** One element an each-navigator walks over: its descriptor, the element, and whether the allow-list admits it. */
  datatype Visit = Visit(path: PathDescriptor<Validation>, element: Value, considered: bool)

  /** The elements of a list or array with their index descriptors, in order. */
  function IndexVisits(items: seq<Value>, indexList: seq<int>, isArray: bool): (r: seq<Visit>)
  {
    seq(|items|, i requires 0 <= i < |items| =>
      Visit(if isArray then ArrayIndex(i) else IterableIndex(i), items[i], |indexList| == 0 || i in indexList))
  }

  /** The entries of a map with their key descriptors, in iteration order. */
  function KeyVisits(entries: seq<(Value, Value)>, keyList: seq<Value>): (r: seq<Visit>)
  {
    seq(|entries|, i requires 0 <= i < |entries| =>
      Visit(MapKey(entries[i].0), Entry(entries[i].0, entries[i].1), |keyList| == 0 || entries[i].0 in keyList))
  }

  /** A value of the wrong shape: the cast fails, on null with a null pointer. */
  function ShapeError<T>(x: Value): Outcome<T>
  {
    if x.Null? then Throw(NullPointer) else Throw(ClassCast)
  }

  function Visits(v: Validation, x: Value): Outcome<seq<Visit>>
    requires v.IsEach()
  {
    match v
    case IterableValidation(_, indexList) => if x.List? then Ok(IndexVisits(x.items, indexList, false)) else ShapeError(x)
    case ArrayValidation(_, indexList) => if x.Array? then Ok(IndexVisits(x.items, indexList, true)) else ShapeError(x)
    case MapValidation(_, keyList) => if x.Map? then Ok(KeyVisits(x.entries, keyList)) else ShapeError(x)
  }

  /**
   * A pushed group once its elements are evaluated: the property map, the
   * result the node returns, and the filled group.
   */
  datatype GroupState = GroupThrew(exception: Exception) | GroupState(props: Props, ok: bool, group: Node)

  /**
   * One element of the fold: skipped when the allow-list excludes it,
   * otherwise validated under its descriptor; a failure is wrapped in a
   * `PathResult` for the element and clears the running result.
   */
  function VisitStep(v: Validation, visit: Visit, props: Props, ok: bool, group: Node): (r: GroupState)
    requires v.IsEach() && group.AndResult?
    ensures r.GroupState? ==> r.group.AndResult? && r.group.value == group.value
    decreases v, 0
  {
    if !visit.considered then GroupState(props, ok, group)
    else
      var inner := Eval(v.validation, visit.element, props);
      if inner.Threw? then GroupThrew(inner.exception)
      else if inner.failure.None? then GroupState(inner.props, ok, group)
      else GroupState(inner.props, false, LogicalAddError(group, PathResult(visit.path, visit.element, [inner.failure.value])))
  }

  function EachFrom(v: Validation, visits: seq<Visit>, i: nat, props: Props, ok: bool, group: Node): (r: GroupState)
    requires v.IsEach() && i <= |visits| && group.AndResult?
    ensures r.GroupState? ==> r.group.AndResult? && r.group.value == group.value
    decreases v, 1, |visits| - i
  {
    if i == |visits| then GroupState(props, ok, group)
    else match VisitStep(v, visits[i], props, ok, group)
      case GroupThrew(e) => GroupThrew(e)
      case GroupState(p, ok', group') => EachFrom(v, visits, i + 1, p, ok', group')
  }

  /** `IterableValidation`, `ArrayValidation` and `MapValidation`. */
  function EvalEach(v: Validation, x: Value, props: Props): (r: Run)
    requires v.IsEach()
    ensures r.Ran? && r.failure.Some? ==> r.failure.value.AndResult? && r.failure.value.value == x
    decreases v, 2
  {
    match Visits(v, x)
    case Throw(e) => Threw(e)
    case Ok(visits) =>
      match EachFrom(v, visits, 0, props, true, AndResult(x, []))
      case GroupThrew(e) => Threw(e)
      case GroupState(p, ok, group) => Ran(p, if ok then None else Some(group))
  }

  // ---------------------------------------------------------------------
  // ObjectValidation
  // ---------------------------------------------------------------------

  /**
   * The state of a constraint or sub-validation fold: the running result
   * (`None` before the first element), the group, and whether the fold
   * returned early under short-circuit.
   */
  datatype Fold = FoldThrew(exception: Exception) | Fold(props: Props, acc: Option<bool>, group: Node, early: bool)

  /**
   * One step of either fold. A result equal to `or` (a failure in AND
   * mode, a success in OR mode) decides the node: it returns at once under
   * short-circuit, and otherwise fixes the running result; any other result
   * keeps the running result, or starts it.
   */
  function Step(or: bool, acc: Option<bool>, pass: bool): Option<bool>
  {
    if pass == or then Some(or) else if acc.Some? then acc else Some(!or)
  }

  /** One constraint: a failure adds its leaf to the group. */
  function ConstraintStep(c: Constraint, x: Value, props: Props, or: bool, short: bool, acc: Option<bool>, group: Node): (r: Fold)
    requires group.IsLogical()
    ensures r.Fold? && r.props == props && r.group.IsLogical() && r.group.value == group.value
    ensures r.group.AndResult? == group.AndResult?
  {
    var pass := c.test(x, props);
    var group' := if pass then group else LogicalAddError(group, Leaf(c, x));
    if pass == or && short then Fold(props, Some(or), group', true)
    else Fold(props, Step(or, acc, pass), group', false)
  }

  function ConstraintsFrom(cs: seq<Constraint>, i: nat, x: Value, props: Props, or: bool, short: bool, acc: Option<bool>, group: Node): (r: Fold)
    requires i <= |cs| && group.IsLogical()
    ensures r.Fold? && r.props == props && r.group.IsLogical() && r.group.value == group.value
    ensures r.group.AndResult? == group.AndResult?
    decreases |cs| - i
  {
    if i == |cs| then Fold(props, acc, group, false)
    else
      var step := ConstraintStep(cs[i], x, props, or, short, acc, group);
      if step.early then step
      else ConstraintsFrom(cs, i + 1, x, props, or, short, step.acc, step.group)
  }

  /** One sub-validation: its failure node is added to the group. */
  function SubStep(v: Validation, i: nat, x: Value, props: Props, acc: Option<bool>, group: Node): (r: Fold)
    requires v.ObjectValidation? && i < |v.subValidations| && group.IsLogical()
    ensures r.Fold? ==> r.group.IsLogical() && r.group.value == group.value
    ensures r.Fold? ==> r.group.AndResult? == group.AndResult?
    decreases v, 0
  {
    var sub := Eval(v.subValidations[i], x, props);
    if sub.Threw? then FoldThrew(sub.exception)
    else
      var pass := sub.failure.None?;
      var group' := if pass then group else LogicalAddError(group, sub.failure.value);
      if pass == v.combineWithOr && v.shortCircuit then Fold(sub.props, Some(pass), group', true)
      else Fold(sub.props, Step(v.combineWithOr, acc, pass), group', false)
  }

  function SubsFrom(v: Validation, i: nat, x: Value, props: Props, acc: Option<bool>, group: Node): (r: Fold)
    requires v.ObjectValidation? && i <= |v.subValidations| && group.IsLogical()
    ensures r.Fold? ==> r.group.IsLogical() && r.group.value == group.value
    ensures r.Fold? ==> r.group.AndResult? == group.AndResult?
    decreases v, 1, |v.subValidations| - i
  {
    if i == |v.subValidations| then Fold(props, acc, group, false)
    else
      var step := SubStep(v, i, x, props, acc, group);
      if step.FoldThrew? || step.early then step
      else SubsFrom(v, i + 1, x, step.props, step.acc, step.group)
  }

  /** The final result of `validateAndIntern` / `validateOrIntern` from the two folds. */
  function Combine(or: bool, c: Option<bool>, s: Option<bool>): bool
  {
    if c.Some? && s.Some? then (if or then c.value || s.value else c.value && s.value)
    else if c.Some? then c.value
    else if s.Some? then s.value
    else true
  }

  /** `validateIntern`: both folds on the pushed group, and the value the node returns. */
  function Intern(v: Validation, x: Value, props: Props): (r: GroupState)
    requires v.ObjectValidation?
    ensures r.GroupState? ==> r.group.IsLogical() && r.group.value == x
    ensures r.GroupState? ==> (r.group.OrResult? <==> v.combineWithOr)
    decreases v, 2
  {
    var or := v.combineWithOr;
    var c := ConstraintsFrom(v.constraints, 0, x, props, or, v.shortCircuit, None, EmptyGroup(x, or));
    if c.early then GroupState(props, or, c.group)
    else
      var s := SubsFrom(v, 0, x, props, None, c.group);
      if s.FoldThrew? then GroupThrew(s.exception)
      else GroupState(s.props, if s.early then or else Combine(or, c.acc, s.acc), s.group)
  }

  /** `ObjectValidation`: the group is discarded when the node passes and is the failure otherwise. */
  function EvalObject(v: Validation, x: Value, props: Props): (r: Run)
    requires v.ObjectValidation?
    ensures r.Ran? && r.failure.Some? ==> r.failure.value.IsLogical() && r.failure.value.value == x
    ensures r.Ran? && r.failure.Some? ==> (r.failure.value.OrResult? <==> v.combineWithOr)
    decreases v, 3
  {
    match Intern(v, x, props)
    case GroupThrew(e) => Threw(e)
    case GroupState(p, ok, group) => Ran(p, if ok then None else Some(group))
  }

  // ---------------------------------------------------------------------
  // The cycle guard (NonRepeatingValidation.kt)
  // ---------------------------------------------------------------------

  /**
   * The visited set under `NonRepeatingKey`: an absent or null entry is
   * replaced by a new empty set (`getOrPut`); any other value is not a set
   * and makes the guard throw.
   */
  function VisitedSet(props: Props): Outcome<set<Value>>
  {
    if NonRepeatingKey !in props then Ok({})
    else match props[NonRepeatingKey]
      case PVisited(visited) => Ok(visited)
      case PValue(stored) => if stored.Null? then Ok({}) else Throw(IllegalState(""))
  }

  function EvalNonRepeating(x: Value, props: Props): (r: Run)
  {
    match VisitedSet(props)
    case Throw(e) => Threw(e)
    case Ok(visited) =>
      if x !in visited then Ran(props[NonRepeatingKey := PVisited(visited + {x})], None)
      else Ran(props, Some(AndResult(x, [Error("Can not validate the same object twice.", x)])))
  }
}
