/**
 * What the validation tree promises, stated about `Eval`: the failures it
 * reports are well-formed result trees, property navigators skip on a
 * failed guard and treat null as their kind says, each-navigators and
 * object validations fail exactly when their elements do, and the cycle
 * guard records what it has seen.
 */
module ValidationLaws {
  import opened Values
  import opened PathDescriptors
  import opened ValidationResults
  import opened Constraints
  import opened Validations

  // ---------------------------------------------------------------------
  // Reported failures are well-formed
  // ---------------------------------------------------------------------

  /** A group being filled: logical, and well-formed once it has a child. */
  ghost predicate GroupOk(g: Node)
  {
    g.IsLogical() && (|g.errors| == 0 || WellFormed(g))
    && forall k :: 0 <= k < |g.errors| ==> WellFormed(g.errors[k])
  }

  /** Every failure a validation attaches is a well-formed tree, and so holds at least one leaf. */
  lemma {:induction false} EvalWellFormed(v: Validation, x: Value, props: Props)
    ensures var r := Eval(v, x, props); r.Ran? && r.failure.Some? ==> WellFormed(r.failure.value)
    decreases v, 4
  {
    match v
    case ObjectValidation(_, _, _, _) => EvalObjectWellFormed(v, x, props);
    case NonRepeatingValidation =>
    case IterableValidation(_, _) => EvalEachWellFormed(v, x, props);
    case ArrayValidation(_, _) => EvalEachWellFormed(v, x, props);
    case MapValidation(_, _) => EvalEachWellFormed(v, x, props);
    case UndefinedProperty(_, _) => EvalPropertyWellFormed(v, x, props);
    case OptionalProperty(_, _) => EvalPropertyWellFormed(v, x, props);
    case RequiredProperty(_, _) => EvalPropertyWellFormed(v, x, props);
  }

  lemma {:induction false} EvalPropertyWellFormed(v: Validation, x: Value, props: Props)
    requires v.IsProperty()
    ensures var r := EvalProperty(v, x, props); r.Ran? && r.failure.Some? ==> WellFormed(r.failure.value)
    decreases v, 3
  {
    var guard := Guard(v.path, x, props);
    if guard.Ran? && guard.failure.None? && v.path.Get(x).Ok? {
      DescendWellFormed(v, v.path.Get(x).value, guard.props);
    }
  }

  lemma {:induction false} DescendWellFormed(v: Validation, y: Value, props: Props)
    requires v.IsProperty()
    ensures var r := Descend(v, y, props); r.Ran? && r.failure.Some? ==> WellFormed(r.failure.value)
    decreases v, 2
  {
    if !y.Null? || v.UndefinedProperty? {
      EvalWellFormed(v.validation, y, props);
    }
  }

  lemma {:induction false} EvalEachWellFormed(v: Validation, x: Value, props: Props)
    requires v.IsEach()
    ensures var r := EvalEach(v, x, props); r.Ran? && r.failure.Some? ==> WellFormed(r.failure.value)
    decreases v, 3
  {
    if Visits(v, x).Ok? {
      EachFromWellFormed(v, Visits(v, x).value, 0, props, true, AndResult(x, []));
    }
  }

  lemma {:induction false} EachFromWellFormed(v: Validation, visits: seq<Visit>, i: nat, props: Props, ok: bool, group: Node)
    requires v.IsEach() && i <= |visits| && group.AndResult?
    requires GroupOk(group) && (!ok ==> |group.errors| > 0)
    ensures var r := EachFrom(v, visits, i, props, ok, group);
      r.GroupState? ==> GroupOk(r.group) && (!r.ok ==> |r.group.errors| > 0)
    decreases v, 1, |visits| - i
  {
    if i < |visits| {
      VisitStepWellFormed(v, visits[i], props, ok, group);
      var step := VisitStep(v, visits[i], props, ok, group);
      if step.GroupState? {
        EachFromWellFormed(v, visits, i + 1, step.props, step.ok, step.group);
      }
    }
  }

  lemma {:induction false} VisitStepWellFormed(v: Validation, visit: Visit, props: Props, ok: bool, group: Node)
    requires v.IsEach() && group.AndResult?
    requires GroupOk(group) && (!ok ==> |group.errors| > 0)
    ensures var r := VisitStep(v, visit, props, ok, group);
      r.GroupState? ==> GroupOk(r.group) && (!r.ok ==> |r.group.errors| > 0)
    decreases v, 0
  {
    if visit.considered {
      EvalWellFormed(v.validation, visit.element, props);
      var inner := Eval(v.validation, visit.element, props);
      if inner.Ran? && inner.failure.Some? {
        var child := PathResult(visit.path, visit.element, [inner.failure.value]);
        LogicalAddErrorWellFormed(group, child);
        LogicalAddErrorChildren(group, child);
      }
    }
  }

  lemma {:induction false} EvalObjectWellFormed(v: Validation, x: Value, props: Props)
    requires v.ObjectValidation?
    ensures var r := EvalObject(v, x, props); r.Ran? && r.failure.Some? ==> WellFormed(r.failure.value)
    decreases v, 3
  {
    InternWellFormed(v, x, props);
  }

  lemma {:induction false} InternWellFormed(v: Validation, x: Value, props: Props)
    requires v.ObjectValidation?
    ensures var r := Intern(v, x, props); r.GroupState? ==> GroupOk(r.group) && (!r.ok ==> |r.group.errors| > 0)
    decreases v, 2
  {
    var or := v.combineWithOr;
    var g := EmptyGroup(x, or);
    ConstraintsFromWellFormed(v.constraints, 0, x, props, or, v.shortCircuit, None, g);
    var c := ConstraintsFrom(v.constraints, 0, x, props, or, v.shortCircuit, None, g);
    if !c.early {
      SubsFromWellFormed(v, 0, x, props, None, c.group);
    }
  }

  lemma {:induction false} ConstraintsFromWellFormed(cs: seq<Constraint>, i: nat, x: Value, props: Props, or: bool, short: bool, acc: Option<bool>, group: Node)
    requires i <= |cs| && GroupOk(group) && (acc == Some(false) ==> |group.errors| > 0)
    ensures var r := ConstraintsFrom(cs, i, x, props, or, short, acc, group);
      GroupOk(r.group) && |r.group.errors| >= |group.errors| && (r.acc == Some(false) ==> |r.group.errors| > 0)
      && (r.early ==> r.acc == Some(or))
    decreases |cs| - i
  {
    if i < |cs| {
      ConstraintStepWellFormed(cs[i], x, props, or, short, acc, group);
      var step := ConstraintStep(cs[i], x, props, or, short, acc, group);
      if !step.early {
        ConstraintsFromContinues(cs, i, x, props, or, short, acc, group);
        ConstraintsFromWellFormed(cs, i + 1, x, props, or, short, step.acc, step.group);
      }
    }
  }

  /** One constraint of the fold keeps the group well formed and never drops an error. */
  lemma ConstraintStepWellFormed(c: Constraint, x: Value, props: Props, or: bool, short: bool, acc: Option<bool>, group: Node)
    requires GroupOk(group) && (acc == Some(false) ==> |group.errors| > 0)
    ensures var r := ConstraintStep(c, x, props, or, short, acc, group);
      GroupOk(r.group) && |r.group.errors| >= |group.errors| && (r.acc == Some(false) ==> |r.group.errors| > 0)
      && (r.early ==> r.acc == Some(or))
  {
    if !c.test(x, props) {
      LogicalAddErrorWellFormed(group, Leaf(c, x));
      LogicalAddErrorChildren(group, Leaf(c, x));
    }
  }

  lemma {:induction false} SubsFromWellFormed(v: Validation, i: nat, x: Value, props: Props, acc: Option<bool>, group: Node)
    requires v.ObjectValidation? && i <= |v.subValidations|
    requires GroupOk(group) && (acc == Some(false) ==> |group.errors| > 0)
    ensures var r := SubsFrom(v, i, x, props, acc, group);
      r.Fold? ==> (GroupOk(r.group) && |r.group.errors| >= |group.errors| && (r.acc == Some(false) ==> |r.group.errors| > 0)
        && (r.early ==> r.acc == Some(v.combineWithOr)))
    decreases v, 1, |v.subValidations| - i
  {
    if i < |v.subValidations| {
      SubStepWellFormed(v, i, x, props, acc, group);
      var step := SubStep(v, i, x, props, acc, group);
      if step.Fold? && !step.early {
        SubsFromWellFormed(v, i + 1, x, step.props, step.acc, step.group);
      }
    }
  }

  lemma {:induction false} SubStepWellFormed(v: Validation, i: nat, x: Value, props: Props, acc: Option<bool>, group: Node)
    requires v.ObjectValidation? && i < |v.subValidations|
    requires GroupOk(group) && (acc == Some(false) ==> |group.errors| > 0)
    ensures var r := SubStep(v, i, x, props, acc, group);
      r.Fold? ==> (GroupOk(r.group) && |r.group.errors| >= |group.errors| && (r.acc == Some(false) ==> |r.group.errors| > 0)
        && (r.early ==> r.acc == Some(v.combineWithOr)))
    decreases v, 0
  {
    EvalWellFormed(v.subValidations[i], x, props);
    var sub := Eval(v.subValidations[i], x, props);
    if sub.Ran? && sub.failure.Some? {
      LogicalAddErrorWellFormed(group, sub.failure.value);
      LogicalAddErrorChildren(group, sub.failure.value);
    }
  }

  // ---------------------------------------------------------------------
  // Validations that leave the property map alone
  // ---------------------------------------------------------------------

  /** The run does not throw and leaves the property map as it found it. */
  ghost predicate Quiet(v: Validation, x: Value, props: Props)
  {
    Eval(v, x, props).Ran? && Eval(v, x, props).props == props
  }

  /** No cycle guard anywhere in the tree, guards of conditional descriptors included. */
  predicate NoCycleGuard(v: Validation)
  {
    match v
    case NonRepeatingValidation => false
    case ObjectValidation(_, subs, _, _) => forall k :: 0 <= k < |subs| ==> NoCycleGuard(subs[k])
    case IterableValidation(inner, _) => NoCycleGuard(inner)
    case ArrayValidation(inner, _) => NoCycleGuard(inner)
    case MapValidation(inner, _) => NoCycleGuard(inner)
    case UndefinedProperty(path, inner) => GuardFree(path) && NoCycleGuard(inner)
    case OptionalProperty(path, inner) => GuardFree(path) && NoCycleGuard(inner)
    case RequiredProperty(path, inner) => GuardFree(path) && NoCycleGuard(inner)
  }

  predicate GuardFree(d: PathDescriptor<Validation>)
  {
    d.Conditional? ==> NoCycleGuard(d.condition)
  }

  /**
   * Only the cycle guard writes to the property map: a tree without one
   * leaves the map unchanged whenever it does not throw.
   */
  lemma {:induction false} NoCycleGuardKeepsProps(v: Validation, x: Value, props: Props)
    requires NoCycleGuard(v)
    ensures Eval(v, x, props).Ran? ==> Eval(v, x, props).props == props
    decreases v, 4
  {
    match v
    case ObjectValidation(_, _, _, _) =>
      var c := ConstraintsFrom(v.constraints, 0, x, props, v.combineWithOr, v.shortCircuit, None, EmptyGroup(x, v.combineWithOr));
      SubsFromKeepsProps(v, 0, x, props, None, c.group);
      assert Eval(v, x, props) == EvalObject(v, x, props);
      assert Intern(v, x, props).GroupState? ==> Intern(v, x, props).props == props;
    case IterableValidation(_, _) => EachKeepsProps(v, x, props);
    case ArrayValidation(_, _) => EachKeepsProps(v, x, props);
    case MapValidation(_, _) => EachKeepsProps(v, x, props);
    case UndefinedProperty(_, _) => PropertyKeepsProps(v, x, props);
    case OptionalProperty(_, _) => PropertyKeepsProps(v, x, props);
    case RequiredProperty(_, _) => PropertyKeepsProps(v, x, props);
  }

  lemma {:induction false} PropertyKeepsProps(v: Validation, x: Value, props: Props)
    requires v.IsProperty() && NoCycleGuard(v)
    ensures EvalProperty(v, x, props).Ran? ==> EvalProperty(v, x, props).props == props
    decreases v, 3
  {
    if v.path.Conditional? {
      NoCycleGuardKeepsProps(v.path.condition, x, props);
    }
    var guard := Guard(v.path, x, props);
    if guard.Ran? && guard.failure.None? && v.path.Get(x).Ok? {
      NoCycleGuardKeepsProps(v.validation, v.path.Get(x).value, guard.props);
    }
  }

  lemma {:induction false} EachKeepsProps(v: Validation, x: Value, props: Props)
    requires v.IsEach() && NoCycleGuard(v)
    ensures EvalEach(v, x, props).Ran? ==> EvalEach(v, x, props).props == props
    decreases v, 3
  {
    if Visits(v, x).Ok? {
      EachFromKeepsProps(v, Visits(v, x).value, 0, props, true, AndResult(x, []));
    }
  }

  lemma {:induction false} EachFromKeepsProps(v: Validation, visits: seq<Visit>, i: nat, props: Props, ok: bool, group: Node)
    requires v.IsEach() && NoCycleGuard(v) && i <= |visits| && group.AndResult?
    ensures EachFrom(v, visits, i, props, ok, group).GroupState? ==> EachFrom(v, visits, i, props, ok, group).props == props
    decreases v, 1, |visits| - i
  {
    if i < |visits| {
      NoCycleGuardKeepsProps(v.validation, visits[i].element, props);
      var step := VisitStep(v, visits[i], props, ok, group);
      if step.GroupState? {
        EachFromKeepsProps(v, visits, i + 1, step.props, step.ok, step.group);
      }
    }
  }

  lemma {:induction false} SubsFromKeepsProps(v: Validation, i: nat, x: Value, props: Props, acc: Option<bool>, group: Node)
    requires v.ObjectValidation? && NoCycleGuard(v) && i <= |v.subValidations| && group.IsLogical()
    ensures SubsFrom(v, i, x, props, acc, group).Fold? ==> SubsFrom(v, i, x, props, acc, group).props == props
    decreases v, 1, |v.subValidations| - i
  {
    if i < |v.subValidations| {
      NoCycleGuardKeepsProps(v.subValidations[i], x, props);
      var step := SubStep(v, i, x, props, acc, group);
      if step.Fold? && !step.early {
        SubsFromKeepsProps(v, i + 1, x, step.props, step.acc, step.group);
      }
    }
  }

  // ---------------------------------------------------------------------
  // Each-navigators
  // ---------------------------------------------------------------------

  /** What one element adds to an each-navigator's report: a `PathResult` for it when it is admitted and fails. */
  function VisitFailure(inner: Validation, visit: Visit, props: Props): seq<Node>
  {
    var r := Eval(inner, visit.element, props);
    if visit.considered && r.Ran? && r.failure.Some?
    then [PathResult(visit.path, visit.element, [r.failure.value])] else []
  }

  /**
   * Reference definition of what an each-navigator reports: one
   * `PathResult` per considered element whose validation fails, in order.
   */
  function FailedVisits(inner: Validation, visits: seq<Visit>, props: Props): seq<Node>
  {
    if |visits| == 0 then []
    else VisitFailure(inner, visits[0], props) + FailedVisits(inner, visits[1..], props)
  }

  /** Every element the allow-list admits passes. */
  function VisitsPass(inner: Validation, visits: seq<Visit>, props: Props): bool
  {
    |visits| == 0
    || ((visits[0].considered ==> Eval(inner, visits[0].element, props).Passed()) && VisitsPass(inner, visits[1..], props))
  }

  lemma {:induction false} VisitsPassIff(inner: Validation, visits: seq<Visit>, props: Props)
    ensures VisitsPass(inner, visits, props)
      <==> forall j :: 0 <= j < |visits| && visits[j].considered ==> Eval(inner, visits[j].element, props).Passed()
    decreases |visits|
  {
    if |visits| > 0 {
      VisitsPassIff(inner, visits[1..], props);
      assert forall j :: 1 <= j < |visits| ==> visits[j] == visits[1..][j - 1];
    }
  }

  /** One element of an each-navigator whose validation leaves the map alone. */
  lemma VisitStepQuiet(v: Validation, visit: Visit, props: Props, ok: bool, group: Node)
    requires v.IsEach() && group.AndResult?
    requires visit.considered ==> Quiet(v.validation, visit.element, props)
    ensures VisitStep(v, visit, props, ok, group) ==
      GroupState(props, ok && (visit.considered ==> Eval(v.validation, visit.element, props).Passed()),
        AndResult(group.value, group.errors + VisitFailure(v.validation, visit, props)))
  {
    var r := Eval(v.validation, visit.element, props);
    if visit.considered && r.failure.Some? {
      LogicalAddErrorChildren(group, PathResult(visit.path, visit.element, [r.failure.value]));
    } else {
      assert group.errors + [] == group.errors;
    }
  }

  lemma {:induction false} EachFromQuiet(v: Validation, visits: seq<Visit>, i: nat, props: Props, ok: bool, group: Node)
    requires v.IsEach() && i <= |visits| && group.AndResult?
    requires forall j :: i <= j < |visits| && visits[j].considered ==> Quiet(v.validation, visits[j].element, props)
    ensures EachFrom(v, visits, i, props, ok, group) ==
      GroupState(props, ok && VisitsPass(v.validation, visits[i..], props),
        AndResult(group.value, group.errors + FailedVisits(v.validation, visits[i..], props)))
    decreases |visits| - i
  {
    if i == |visits| {
      assert group.errors + FailedVisits(v.validation, visits[i..], props) == group.errors;
    } else {
      VisitStepQuiet(v, visits[i], props, ok, group);
      var step := VisitStep(v, visits[i], props, ok, group);
      EachFromQuiet(v, visits, i + 1, props, step.ok, step.group);
      assert visits[i..][0] == visits[i] && visits[i..][1..] == visits[i + 1..];
      assert step.group.errors + FailedVisits(v.validation, visits[i + 1..], props)
        == group.errors + FailedVisits(v.validation, visits[i..], props);
    }
  }

  /**
   * An each-navigator whose element validations leave the map alone passes
   * exactly when every element the allow-list admits passes, and otherwise
   * reports one path result per failing element, indexed by its position
   * or key.
   */
  lemma EachLaw(v: Validation, x: Value, props: Props)
    requires v.IsEach() && Visits(v, x).Ok?
    requires var visits := Visits(v, x).value;
      forall j :: 0 <= j < |visits| && visits[j].considered ==> Quiet(v.validation, visits[j].element, props)
    ensures var visits, r := Visits(v, x).value, Eval(v, x, props);
      && r.Ran? && r.props == props
      && (r.Passed() <==> forall j :: 0 <= j < |visits| && visits[j].considered ==> Eval(v.validation, visits[j].element, props).Passed())
      && (!r.Passed() ==> r.failure == Some(AndResult(x, FailedVisits(v.validation, visits, props))))
  {
    var visits := Visits(v, x).value;
    EachFromQuiet(v, visits, 0, props, true, AndResult(x, []));
    assert visits[0..] == visits;
    VisitsPassIff(v.validation, visits, props);
    assert [] + FailedVisits(v.validation, visits, props) == FailedVisits(v.validation, visits, props);
  }

  // ---------------------------------------------------------------------
  // Object validations
  // ---------------------------------------------------------------------

  /** Reference definition: the leaves of the failing constraints, in order. */
  function FailedLeaves(cs: seq<Constraint>, x: Value, props: Props): (r: seq<Node>)
    ensures forall k :: 0 <= k < |r| ==> r[k].IsLeaf()
  {
    if |cs| == 0 then []
    else (if cs[0].test(x, props) then [] else [Leaf(cs[0], x)]) + FailedLeaves(cs[1..], x, props)
  }

  /** Reference definition: the failure nodes of the failing sub-validations, in order. */
  function SubFailures(subs: seq<Validation>, x: Value, props: Props): seq<Node>
  {
    if |subs| == 0 then []
    else
      var r := Eval(subs[0], x, props);
      (if r.Ran? && r.failure.Some? then [r.failure.value] else []) + SubFailures(subs[1..], x, props)
  }

  /** Each node added to the group in turn, splicing results of the group's own sign. */
  function AddAll(group: Node, es: seq<Node>): (r: Node)
    requires group.IsLogical()
    ensures r.IsLogical() && r.value == group.value && r.CombinationSign() == group.CombinationSign()
    decreases |es|
  {
    if |es| == 0 then group
    else LogicalAddErrorChildren(group, es[0]); AddAll(LogicalAddError(group, es[0]), es[1..])
  }

  lemma {:induction false} AddAllFlatErrors(group: Node, es: seq<Node>)
    requires group.IsLogical()
    ensures FlatErrors(AddAll(group, es)) == FlatErrors(group) + FlatErrorsOf(es)
    decreases |es|
  {
    if |es| == 0 {
      assert FlatErrors(group) + FlatErrorsOf(es) == FlatErrors(group);
    } else {
      LogicalAddErrorFlatErrors(group, es[0]);
      LogicalAddErrorChildren(group, es[0]);
      AddAllFlatErrors(LogicalAddError(group, es[0]), es[1..]);
    }
  }

  lemma {:induction false} LeavesFlatErrors(leaves: seq<Node>)
    requires forall k :: 0 <= k < |leaves| ==> leaves[k].IsLeaf()
    ensures FlatErrorsOf(leaves) == leaves
    decreases |leaves|
  {
    if |leaves| > 0 {
      LeavesFlatErrors(leaves[1..]);
      assert leaves == [leaves[0]] + leaves[1..];
    }
  }

  /**
   * The running result after a fold: fixed to `or` once some element was
   * decisive, unchanged when there was no element, and otherwise `!or`
   * unless already set.
   */
  function AccAfter(or: bool, acc: Option<bool>, decided: bool, empty: bool): Option<bool>
  {
    if decided then Some(or) else if empty || acc.Some? then acc else Some(!or)
  }

  /** Some constraint from `i` on is decisive: its result equals `or`. */
  function Decided(cs: seq<Constraint>, i: nat, x: Value, props: Props, or: bool): bool
    requires i <= |cs|
    decreases |cs| - i
  {
    i < |cs| && (cs[i].test(x, props) == or || Decided(cs, i + 1, x, props, or))
  }

  lemma {:induction false} DecidedIff(cs: seq<Constraint>, i: nat, x: Value, props: Props, or: bool)
    requires i <= |cs|
    ensures Decided(cs, i, x, props, or) <==> exists k :: i <= k < |cs| && cs[k].test(x, props) == or
    decreases |cs| - i
  {
    if i < |cs| {
      DecidedIff(cs, i + 1, x, props, or);
    }
  }

  /** Without a decisive constraint that short-circuits, the fold runs to the end and collects every failing leaf. */
  lemma ConstraintsFromAll(cs: seq<Constraint>, i: nat, x: Value, props: Props, or: bool, short: bool, acc: Option<bool>, group: Node)
    requires i <= |cs| && group.IsLogical()
    requires short ==> !Decided(cs, i, x, props, or)
    ensures var r := ConstraintsFrom(cs, i, x, props, or, short, acc, group);
      && r.props == props && !r.early
      && r.acc == AccAfter(or, acc, Decided(cs, i, x, props, or), i == |cs|)
      && r.group == GroupOf(group.value, group.OrResult?, group.errors + FailedLeaves(cs[i..], x, props))
  {
    ConstraintsFromAcc(cs, i, x, props, or, short, acc, group);
    ConstraintsFromGroup(cs, i, x, props, or, short, acc, group);
  }

  lemma {:induction false} ConstraintsFromAcc(cs: seq<Constraint>, i: nat, x: Value, props: Props, or: bool, short: bool, acc: Option<bool>, group: Node)
    requires i <= |cs| && group.IsLogical()
    requires short ==> !Decided(cs, i, x, props, or)
    ensures var r := ConstraintsFrom(cs, i, x, props, or, short, acc, group);
      r.props == props && !r.early && r.acc == AccAfter(or, acc, Decided(cs, i, x, props, or), i == |cs|)
    decreases |cs| - i
  {
    if i < |cs| {
      var step := ConstraintStep(cs[i], x, props, or, short, acc, group);
      assert !step.early && step.acc == Step(or, acc, cs[i].test(x, props)) by {
        ConstraintStepAppends(cs[i], x, props, or, short, acc, group);
      }
      ConstraintsFromAcc(cs, i + 1, x, props, or, short, step.acc, step.group);
    }
  }

  lemma {:induction false} ConstraintsFromGroup(cs: seq<Constraint>, i: nat, x: Value, props: Props, or: bool, short: bool, acc: Option<bool>, group: Node)
    requires i <= |cs| && group.IsLogical()
    requires short ==> !Decided(cs, i, x, props, or)
    ensures ConstraintsFrom(cs, i, x, props, or, short, acc, group).group
      == GroupOf(group.value, group.OrResult?, group.errors + FailedLeaves(cs[i..], x, props))
    decreases |cs| - i
  {
    if i == |cs| {
      assert group.errors + FailedLeaves(cs[i..], x, props) == group.errors;
    } else {
      var step := ConstraintStep(cs[i], x, props, or, short, acc, group);
      assert !step.early && (short ==> !Decided(cs, i + 1, x, props, or));
      ConstraintsFromGroup(cs, i + 1, x, props, or, short, step.acc, step.group);
      ConstraintsFromGroupStep(cs, i, x, props, or, short, acc, group);
    }
  }

  /** The inductive step of `ConstraintsFromGroup`: the report from `i + 1` on, after the step at `i`. */
  lemma ConstraintsFromGroupStep(cs: seq<Constraint>, i: nat, x: Value, props: Props, or: bool, short: bool, acc: Option<bool>, group: Node)
    requires i < |cs| && group.IsLogical()
    requires short ==> !Decided(cs, i, x, props, or)
    requires var step := ConstraintStep(cs[i], x, props, or, short, acc, group);
      ConstraintsFrom(cs, i + 1, x, props, or, short, step.acc, step.group).group
        == GroupOf(step.group.value, step.group.OrResult?, step.group.errors + FailedLeaves(cs[i + 1..], x, props))
    ensures ConstraintsFrom(cs, i, x, props, or, short, acc, group).group
      == GroupOf(group.value, group.OrResult?, group.errors + FailedLeaves(cs[i..], x, props))
  {
    var step := ConstraintStep(cs[i], x, props, or, short, acc, group);
    assert short ==> cs[i].test(x, props) != or by {
      assert Decided(cs, i, x, props, or) == (cs[i].test(x, props) == or || Decided(cs, i + 1, x, props, or));
    }
    ConstraintsFromContinues(cs, i, x, props, or, short, acc, group);
    ConstraintStepErrors(cs, i, x, props, or, short, acc, group);
  }

  /** The errors after the step at `i`, followed by the failing leaves after `i`, are the errors before it and the failing leaves from `i`. */
  lemma ConstraintStepErrors(cs: seq<Constraint>, i: nat, x: Value, props: Props, or: bool, short: bool, acc: Option<bool>, group: Node)
    requires i < |cs| && group.IsLogical()
    ensures var step := ConstraintStep(cs[i], x, props, or, short, acc, group);
      step.group.errors + FailedLeaves(cs[i + 1..], x, props) == group.errors + FailedLeaves(cs[i..], x, props)
  {
    var step := ConstraintStep(cs[i], x, props, or, short, acc, group);
    var head := if cs[i].test(x, props) then [] else [Leaf(cs[i], x)];
    assert step.group.errors == group.errors + head by {
      ConstraintStepAppends(cs[i], x, props, or, short, acc, group);
    }
    assert FailedLeaves(cs[i..], x, props) == head + FailedLeaves(cs[i + 1..], x, props) by {
      FailedLeavesAt(cs, i, x, props);
    }
    AppendRegroup(group.errors, head, step.group.errors, FailedLeaves(cs[i + 1..], x, props), FailedLeaves(cs[i..], x, props));
  }

  /** A constraint that does not stop the fold hands it on to the next index. */
  lemma ConstraintsFromContinues(cs: seq<Constraint>, i: nat, x: Value, props: Props, or: bool, short: bool, acc: Option<bool>, group: Node)
    requires i < |cs| && group.IsLogical()
    requires short ==> cs[i].test(x, props) != or
    ensures var step := ConstraintStep(cs[i], x, props, or, short, acc, group);
      ConstraintsFrom(cs, i, x, props, or, short, acc, group)
        == ConstraintsFrom(cs, i + 1, x, props, or, short, step.acc, step.group)
  {
  }

  /** The failing leaves from index `i` on: the leaf of `cs[i]` if it fails, then the rest. */
  lemma FailedLeavesAt(cs: seq<Constraint>, i: nat, x: Value, props: Props)
    requires i < |cs|
    ensures FailedLeaves(cs[i..], x, props)
      == (if cs[i].test(x, props) then [] else [Leaf(cs[i], x)]) + FailedLeaves(cs[i + 1..], x, props)
  {
    assert cs[i..][0] == cs[i] && cs[i..][1..] == cs[i + 1..];
  }

  /** One constraint of the fold: the running result moves by `Step`, and a failure appends its leaf. */
  lemma ConstraintStepAppends(c: Constraint, x: Value, props: Props, or: bool, short: bool, acc: Option<bool>, group: Node)
    requires group.IsLogical()
    ensures var pass, r := c.test(x, props), ConstraintStep(c, x, props, or, short, acc, group);
      && r.props == props && r.early == (pass == or && short)
      && (!r.early ==> r.acc == Step(or, acc, pass))
      && r.group == GroupOf(group.value, group.OrResult?, group.errors + if pass then [] else [Leaf(c, x)])
  {
    if !c.test(x, props) {
      LogicalAddErrorChildren(group, Leaf(c, x));
    }
  }

  /** Under short-circuit the fold stops at the first decisive constraint; in AND mode only its leaf was added. */
  lemma {:induction false} ConstraintsFromFirstDecisive(cs: seq<Constraint>, i: nat, x: Value, props: Props, or: bool, acc: Option<bool>, group: Node, k: nat)
    requires i <= k < |cs| && group.IsLogical()
    requires cs[k].test(x, props) == or && forall j :: i <= j < k ==> cs[j].test(x, props) != or
    ensures var r := ConstraintsFrom(cs, i, x, props, or, true, acc, group);
      r.early && r.props == props && r.acc == Some(or)
      && (!or ==> r.group == LogicalAddError(group, Leaf(cs[k], x)))
    decreases k - i
  {
    if i < k {
      var step := ConstraintStep(cs[i], x, props, or, true, acc, group);
      assert !or ==> step.group == group;
      ConstraintsFromFirstDecisive(cs, i + 1, x, props, or, step.acc, step.group, k);
    }
  }

  /** Some sub-validation from `i` on is decisive: whether it passed equals `or`. */
  function SubDecided(v: Validation, i: nat, x: Value, props: Props): bool
    requires v.ObjectValidation? && i <= |v.subValidations|
    decreases |v.subValidations| - i
  {
    i < |v.subValidations| && (Eval(v.subValidations[i], x, props).Passed() == v.combineWithOr || SubDecided(v, i + 1, x, props))
  }

  lemma {:induction false} SubDecidedIff(v: Validation, i: nat, x: Value, props: Props)
    requires v.ObjectValidation? && i <= |v.subValidations|
    ensures SubDecided(v, i, x, props) <==>
      exists j :: i <= j < |v.subValidations| && Eval(v.subValidations[j], x, props).Passed() == v.combineWithOr
    decreases |v.subValidations| - i
  {
    if i < |v.subValidations| {
      SubDecidedIff(v, i + 1, x, props);
    }
  }

  /** Without a decisive sub-validation that short-circuits, quiet sub-validations all run and every failure is added. */
  lemma SubsFromAll(v: Validation, i: nat, x: Value, props: Props, acc: Option<bool>, group: Node)
    requires v.ObjectValidation? && i <= |v.subValidations| && group.IsLogical()
    requires forall j :: i <= j < |v.subValidations| ==> Quiet(v.subValidations[j], x, props)
    requires v.shortCircuit ==> !SubDecided(v, i, x, props)
    ensures var r := SubsFrom(v, i, x, props, acc, group);
      && r.Fold? && r.props == props && !r.early
      && r.acc == AccAfter(v.combineWithOr, acc, SubDecided(v, i, x, props), i == |v.subValidations|)
      && r.group == AddAll(group, SubFailures(v.subValidations[i..], x, props))
  {
    SubsFromAcc(v, i, x, props, acc, group);
    SubsFromGroup(v, i, x, props, acc, group);
  }

  lemma {:induction false} SubsFromAcc(v: Validation, i: nat, x: Value, props: Props, acc: Option<bool>, group: Node)
    requires v.ObjectValidation? && i <= |v.subValidations| && group.IsLogical()
    requires forall j :: i <= j < |v.subValidations| ==> Quiet(v.subValidations[j], x, props)
    requires v.shortCircuit ==> !SubDecided(v, i, x, props)
    ensures var r := SubsFrom(v, i, x, props, acc, group);
      && r.Fold? && r.props == props && !r.early
      && r.acc == AccAfter(v.combineWithOr, acc, SubDecided(v, i, x, props), i == |v.subValidations|)
    decreases |v.subValidations| - i
  {
    if i < |v.subValidations| {
      var step := SubStep(v, i, x, props, acc, group);
      assert step.Fold? && !step.early && (v.shortCircuit ==> !SubDecided(v, i + 1, x, props)) by {
        SubStepQuiet(v, i, x, props, acc, group);
      }
      SubsFromAcc(v, i + 1, x, props, step.acc, step.group);
      SubsFromAccStep(v, i, x, props, acc, group);
    }
  }

  /** The inductive step of `SubsFromAcc`: the running result from `i + 1` on, after the step at `i`. */
  lemma SubsFromAccStep(v: Validation, i: nat, x: Value, props: Props, acc: Option<bool>, group: Node)
    requires v.ObjectValidation? && i < |v.subValidations| && group.IsLogical()
    requires Quiet(v.subValidations[i], x, props)
    requires v.shortCircuit ==> !SubDecided(v, i, x, props)
    requires var step := SubStep(v, i, x, props, acc, group);
      step.Fold? && var r := SubsFrom(v, i + 1, x, props, step.acc, step.group);
      && r.Fold? && r.props == props && !r.early
      && r.acc == AccAfter(v.combineWithOr, step.acc, SubDecided(v, i + 1, x, props), i + 1 == |v.subValidations|)
    ensures var r := SubsFrom(v, i, x, props, acc, group);
      && r.Fold? && r.props == props && !r.early
      && r.acc == AccAfter(v.combineWithOr, acc, SubDecided(v, i, x, props), i == |v.subValidations|)
  {
    SubStepQuiet(v, i, x, props, acc, group);
  }

  lemma {:induction false} SubsFromGroup(v: Validation, i: nat, x: Value, props: Props, acc: Option<bool>, group: Node)
    requires v.ObjectValidation? && i <= |v.subValidations| && group.IsLogical()
    requires forall j :: i <= j < |v.subValidations| ==> Quiet(v.subValidations[j], x, props)
    requires v.shortCircuit ==> !SubDecided(v, i, x, props)
    ensures var r := SubsFrom(v, i, x, props, acc, group);
      r.Fold? ==> r.group == AddAll(group, SubFailures(v.subValidations[i..], x, props))
    decreases |v.subValidations| - i
  {
    if i == |v.subValidations| {
      assert SubFailures(v.subValidations[i..], x, props) == [];
    } else {
      var step := SubStep(v, i, x, props, acc, group);
      assert step.Fold? && step.props == props && !step.early && (v.shortCircuit ==> !SubDecided(v, i + 1, x, props)) by {
        SubStepQuiet(v, i, x, props, acc, group);
      }
      SubsFromGroup(v, i + 1, x, props, step.acc, step.group);
      SubsFromGroupStep(v, i, x, props, acc, group);
    }
  }

  /** The inductive step of `SubsFromGroup`: the report from `i + 1` on, after the step at `i`. */
  lemma SubsFromGroupStep(v: Validation, i: nat, x: Value, props: Props, acc: Option<bool>, group: Node)
    requires v.ObjectValidation? && i < |v.subValidations| && group.IsLogical()
    requires Quiet(v.subValidations[i], x, props)
    requires v.shortCircuit ==> Eval(v.subValidations[i], x, props).Passed() != v.combineWithOr
    requires var step := SubStep(v, i, x, props, acc, group);
      step.Fold? && var r := SubsFrom(v, i + 1, x, props, step.acc, step.group);
      r.Fold? ==> r.group == AddAll(step.group, SubFailures(v.subValidations[i + 1..], x, props))
    ensures var r := SubsFrom(v, i, x, props, acc, group);
      r.Fold? ==> r.group == AddAll(group, SubFailures(v.subValidations[i..], x, props))
  {
    var subs := v.subValidations;
    var r := Eval(subs[i], x, props);
    var head := if r.failure.Some? then [r.failure.value] else [];
    var rest := SubFailures(subs[i + 1..], x, props);
    var step := SubStep(v, i, x, props, acc, group);
    assert step.Fold? && !step.early && step.props == props && step.group == AddAll(group, head) by {
      SubStepQuiet(v, i, x, props, acc, group);
    }
    assert SubFailures(subs[i..], x, props) == head + rest by {
      assert subs[i..][0] == subs[i] && subs[i..][1..] == subs[i + 1..];
    }
    assert SubsFrom(v, i, x, props, acc, group) == SubsFrom(v, i + 1, x, props, step.acc, step.group);
    AddAllConcat(group, head, rest);
  }

  lemma SubStepQuiet(v: Validation, i: nat, x: Value, props: Props, acc: Option<bool>, group: Node)
    requires v.ObjectValidation? && i < |v.subValidations| && group.IsLogical()
    requires Quiet(v.subValidations[i], x, props)
    requires v.shortCircuit ==> Eval(v.subValidations[i], x, props).Passed() != v.combineWithOr
    ensures var r := Eval(v.subValidations[i], x, props);
      SubStep(v, i, x, props, acc, group) ==
        Fold(props, Step(v.combineWithOr, acc, r.Passed()), AddAll(group, if r.failure.Some? then [r.failure.value] else []), false)
  {
    var r := Eval(v.subValidations[i], x, props);
    if r.failure.Some? {
      LogicalAddErrorChildren(group, r.failure.value);
      assert AddAll(group, [r.failure.value]) == AddAll(LogicalAddError(group, r.failure.value), []);
    }
  }

  lemma {:induction false} AddAllConcat(group: Node, a: seq<Node>, b: seq<Node>)
    requires group.IsLogical()
    ensures AddAll(group, a + b) == AddAll(AddAll(group, a), b)
    decreases |a|
  {
    if |a| == 0 {
      assert a + b == b;
    } else {
      assert (a + b)[0] == a[0] && (a + b)[1..] == a[1..] + b;
      LogicalAddErrorChildren(group, a[0]);
      AddAllConcat(LogicalAddError(group, a[0]), a[1..], b);
    }
  }

  /** Under short-circuit the sub-validations stop at the first decisive one; in AND mode its failure is added. */
  lemma {:induction false} SubsFromFirstDecisive(v: Validation, i: nat, x: Value, props: Props, acc: Option<bool>, group: Node, k: nat)
    requires v.ObjectValidation? && v.shortCircuit && i <= k < |v.subValidations| && group.IsLogical()
    requires forall j :: i <= j < k ==> Quiet(v.subValidations[j], x, props) && Eval(v.subValidations[j], x, props).Passed() != v.combineWithOr
    requires Eval(v.subValidations[k], x, props).Ran? && Eval(v.subValidations[k], x, props).Passed() == v.combineWithOr
    ensures var r, last := SubsFrom(v, i, x, props, acc, group), Eval(v.subValidations[k], x, props);
      r.Fold? && r.early && r.props == last.props && r.acc == Some(v.combineWithOr)
      && (!v.combineWithOr ==> r.group == LogicalAddError(group, last.failure.value))
    decreases k - i
  {
    if i < k {
      var step := SubStep(v, i, x, props, acc, group);
      assert !v.combineWithOr ==> step.group == group;
      SubsFromFirstDecisive(v, i + 1, x, props, step.acc, step.group, k);
    }
  }

  /** The group an object validation pushes, holding `errors`. */
  function GroupOf(x: Value, or: bool, errors: seq<Node>): (g: Node)
    ensures g.IsLogical() && g.value == x && g.errors == errors && (g.OrResult? <==> or)
  {
    if or then OrResult(x, errors) else AndResult(x, errors)
  }

  /** An object validation without short-circuit over quiet sub-validations, in terms of the two folds. */
  lemma ObjectRuns(v: Validation, x: Value, props: Props)
    requires v.ObjectValidation? && !v.shortCircuit
    requires forall j :: 0 <= j < |v.subValidations| ==> Quiet(v.subValidations[j], x, props)
    ensures var or, cs, subs := v.combineWithOr, v.constraints, v.subValidations;
      var pass := Combine(or, AccAfter(or, None, Decided(cs, 0, x, props, or), |cs| == 0),
                              AccAfter(or, None, SubDecided(v, 0, x, props), |subs| == 0));
      Eval(v, x, props) == Ran(props, if pass then None
        else Some(AddAll(GroupOf(x, or, FailedLeaves(cs, x, props)), SubFailures(subs, x, props))))
  {
    var or, cs, subs := v.combineWithOr, v.constraints, v.subValidations;
    var g := EmptyGroup(x, or);
    var c := ConstraintsFrom(cs, 0, x, props, or, false, None, g);
    assert c == Fold(props, AccAfter(or, None, Decided(cs, 0, x, props, or), |cs| == 0), GroupOf(x, or, FailedLeaves(cs, x, props)), false) by {
      ConstraintsFromAll(cs, 0, x, props, or, false, None, g);
      assert cs[0..] == cs;
      assert g.errors + FailedLeaves(cs, x, props) == FailedLeaves(cs, x, props);
    }
    var s := SubsFrom(v, 0, x, props, None, c.group);
    assert s == Fold(props, AccAfter(or, None, SubDecided(v, 0, x, props), |subs| == 0), AddAll(c.group, SubFailures(subs, x, props)), false) by {
      SubsFromAll(v, 0, x, props, None, c.group);
      assert subs[0..] == subs;
    }
    assert Intern(v, x, props) == GroupState(props, Combine(or, c.acc, s.acc), s.group);
  }

  /** The first decisive constraint from `i` on. */
  lemma {:induction false} FirstDecided(cs: seq<Constraint>, i: nat, x: Value, props: Props, or: bool) returns (k: nat)
    requires i <= |cs| && Decided(cs, i, x, props, or)
    ensures i <= k < |cs| && cs[k].test(x, props) == or
    ensures forall j :: i <= j < k ==> cs[j].test(x, props) != or
    decreases |cs| - i
  {
    if cs[i].test(x, props) == or {
      k := i;
    } else {
      k := FirstDecided(cs, i + 1, x, props, or);
    }
  }

  /** The first decisive sub-validation from `i` on. */
  lemma {:induction false} FirstSubDecided(v: Validation, i: nat, x: Value, props: Props) returns (k: nat)
    requires v.ObjectValidation? && i <= |v.subValidations| && SubDecided(v, i, x, props)
    ensures i <= k < |v.subValidations| && Eval(v.subValidations[k], x, props).Passed() == v.combineWithOr
    ensures forall j :: i <= j < k ==> Eval(v.subValidations[j], x, props).Passed() != v.combineWithOr
    decreases |v.subValidations| - i
  {
    if Eval(v.subValidations[i], x, props).Passed() == v.combineWithOr {
      k := i;
    } else {
      k := FirstSubDecided(v, i + 1, x, props);
    }
  }

  /** Under short-circuit a decisive constraint returns the node's verdict at once. */
  lemma ShortAtConstraint(v: Validation, x: Value, props: Props)
    requires v.ObjectValidation? && v.shortCircuit && Decided(v.constraints, 0, x, props, v.combineWithOr)
    ensures var r := Eval(v, x, props); r.Ran? && r.props == props && r.Passed() == v.combineWithOr
  {
    var or := v.combineWithOr;
    var k := FirstDecided(v.constraints, 0, x, props, or);
    ConstraintsFromFirstDecisive(v.constraints, 0, x, props, or, None, EmptyGroup(x, or), k);
    var c := ConstraintsFrom(v.constraints, 0, x, props, or, true, None, EmptyGroup(x, or));
    assert Intern(v, x, props) == GroupState(props, or, c.group);
  }

  /** Under short-circuit, with no decisive constraint, the first decisive quiet sub-validation returns the verdict. */
  lemma ShortAtSub(v: Validation, x: Value, props: Props)
    requires v.ObjectValidation? && v.shortCircuit && !Decided(v.constraints, 0, x, props, v.combineWithOr)
    requires forall j :: 0 <= j < |v.subValidations| ==> Quiet(v.subValidations[j], x, props)
    requires SubDecided(v, 0, x, props)
    ensures var r := Eval(v, x, props); r.Ran? && r.props == props && r.Passed() == v.combineWithOr
  {
    var or, cs := v.combineWithOr, v.constraints;
    var c := ConstraintsFrom(cs, 0, x, props, or, true, None, EmptyGroup(x, or));
    ConstraintsFromAcc(cs, 0, x, props, or, true, None, EmptyGroup(x, or));
    var k := FirstSubDecided(v, 0, x, props);
    SubsFromFirstDecisive(v, 0, x, props, None, c.group, k);
    assert Intern(v, x, props) == GroupState(props, or, SubsFrom(v, 0, x, props, None, c.group).group);
  }

  /** Under short-circuit, with nothing decisive, both folds run to the end. */
  lemma ShortRunsOut(v: Validation, x: Value, props: Props)
    requires v.ObjectValidation? && v.shortCircuit && !Decided(v.constraints, 0, x, props, v.combineWithOr)
    requires forall j :: 0 <= j < |v.subValidations| ==> Quiet(v.subValidations[j], x, props)
    requires !SubDecided(v, 0, x, props)
    ensures var r, or := Eval(v, x, props), v.combineWithOr;
      && r.Ran? && r.props == props
      && r.Passed() == Combine(or, AccAfter(or, None, false, |v.constraints| == 0), AccAfter(or, None, false, |v.subValidations| == 0))
  {
    var or, cs := v.combineWithOr, v.constraints;
    var c := ConstraintsFrom(cs, 0, x, props, or, true, None, EmptyGroup(x, or));
    ConstraintsFromAcc(cs, 0, x, props, or, true, None, EmptyGroup(x, or));
    SubsFromAcc(v, 0, x, props, None, c.group);
    var t := SubsFrom(v, 0, x, props, None, c.group);
    assert Intern(v, x, props) == GroupState(props, Combine(or, c.acc, t.acc), t.group);
  }

  /**
   * Over quiet sub-validations, whether an object validation passes does
   * not depend on short-circuit: it is the combination of the two folds'
   * running results, with or without the early return. Short-circuit
   * changes only which failures are reported.
   */
  lemma ObjectVerdict(v: Validation, x: Value, props: Props)
    requires v.ObjectValidation?
    requires forall j :: 0 <= j < |v.subValidations| ==> Quiet(v.subValidations[j], x, props)
    ensures var r, or, cs, subs := Eval(v, x, props), v.combineWithOr, v.constraints, v.subValidations;
      && r.Ran? && r.props == props
      && r.Passed() == Combine(or, AccAfter(or, None, Decided(cs, 0, x, props, or), |cs| == 0),
                                   AccAfter(or, None, SubDecided(v, 0, x, props), |subs| == 0))
  {
    if !v.shortCircuit {
      ObjectRuns(v, x, props);
    } else if Decided(v.constraints, 0, x, props, v.combineWithOr) {
      ShortAtConstraint(v, x, props);
    } else if SubDecided(v, 0, x, props) {
      ShortAtSub(v, x, props);
    } else {
      ShortRunsOut(v, x, props);
    }
  }

  /**
   * `and { }`, with or without short-circuit, over sub-validations that
   * leave the map alone, passes exactly when every constraint holds (a
   * failing warning counts as a failure) and every sub-validation passes.
   */
  lemma AndLaw(v: Validation, x: Value, props: Props)
    requires v.ObjectValidation? && !v.combineWithOr
    requires forall j :: 0 <= j < |v.subValidations| ==> Quiet(v.subValidations[j], x, props)
    ensures var r, cs, subs := Eval(v, x, props), v.constraints, v.subValidations;
      && r.Ran? && r.props == props
      && (r.Passed() <==> (forall k :: 0 <= k < |cs| ==> cs[k].test(x, props))
                          && (forall j :: 0 <= j < |subs| ==> Eval(subs[j], x, props).Passed()))
  {
    ObjectVerdict(v, x, props);
    DecidedIff(v.constraints, 0, x, props, false);
    SubDecidedIff(v, 0, x, props);
  }

  /**
   * `or { }`, with or without short-circuit, over sub-validations that
   * leave the map alone, passes exactly when some constraint holds or some
   * sub-validation passes, or when it has neither.
   */
  lemma OrLaw(v: Validation, x: Value, props: Props)
    requires v.ObjectValidation? && v.combineWithOr
    requires forall j :: 0 <= j < |v.subValidations| ==> Quiet(v.subValidations[j], x, props)
    ensures var r, cs, subs := Eval(v, x, props), v.constraints, v.subValidations;
      && r.Ran? && r.props == props
      && (r.Passed() <==> (|cs| == 0 && |subs| == 0)
                          || (exists k :: 0 <= k < |cs| && cs[k].test(x, props))
                          || (exists j :: 0 <= j < |subs| && Eval(subs[j], x, props).Passed()))
  {
    ObjectVerdict(v, x, props);
    DecidedIff(v.constraints, 0, x, props, true);
    SubDecidedIff(v, 0, x, props);
  }

  /**
   * A failing object validation without short-circuit holds the leaves of
   * the failing constraints followed by the failures of the failing
   * sub-validations, so the leaves it reports are exactly theirs.
   */
  lemma ObjectFailureContents(v: Validation, x: Value, props: Props)
    requires v.ObjectValidation? && !v.shortCircuit
    requires forall j :: 0 <= j < |v.subValidations| ==> Quiet(v.subValidations[j], x, props)
    ensures var r, cs, subs := Eval(v, x, props), v.constraints, v.subValidations;
      r.Ran? && r.failure.Some? ==>
        r.failure.value == AddAll(GroupOf(x, v.combineWithOr, FailedLeaves(cs, x, props)), SubFailures(subs, x, props))
        && FlatErrors(r.failure.value) == FailedLeaves(cs, x, props) + FlatErrorsOf(SubFailures(subs, x, props))
  {
    var cs, subs := v.constraints, v.subValidations;
    ObjectRuns(v, x, props);
    var c := GroupOf(x, v.combineWithOr, FailedLeaves(cs, x, props));
    AddAllFlatErrors(c, SubFailures(subs, x, props));
    LeavesFlatErrors(FailedLeaves(cs, x, props));
  }

  /** AND with short-circuit stops at the first failing constraint and reports only its leaf. */
  lemma AndStopsAtFirstFailure(v: Validation, x: Value, props: Props, k: nat)
    requires v.ObjectValidation? && !v.combineWithOr && v.shortCircuit && k < |v.constraints|
    requires !v.constraints[k].test(x, props) && forall j :: 0 <= j < k ==> v.constraints[j].test(x, props)
    ensures Eval(v, x, props) == Ran(props, Some(AndResult(x, [Leaf(v.constraints[k], x)])))
  {
    ConstraintsFromFirstDecisive(v.constraints, 0, x, props, false, None, AndResult(x, []), k);
    var c := ConstraintsFrom(v.constraints, 0, x, props, false, true, None, AndResult(x, []));
    assert c.group == AndResult(x, [Leaf(v.constraints[k], x)]);
    assert Intern(v, x, props) == GroupState(props, false, c.group);
  }

  /** OR with short-circuit passes at the first passing constraint, whatever comes after it. */
  lemma OrStopsAtFirstSuccess(v: Validation, x: Value, props: Props, k: nat)
    requires v.ObjectValidation? && v.combineWithOr && v.shortCircuit && k < |v.constraints|
    requires v.constraints[k].test(x, props) && forall j :: 0 <= j < k ==> !v.constraints[j].test(x, props)
    ensures Eval(v, x, props) == Ran(props, None)
  {
    ConstraintsFromFirstDecisive(v.constraints, 0, x, props, true, None, OrResult(x, []), k);
    var c := ConstraintsFrom(v.constraints, 0, x, props, true, true, None, OrResult(x, []));
    assert Intern(v, x, props) == GroupState(props, true, c.group);
  }

  /**
   * AND with short-circuit whose constraints all pass stops at the first
   * failing sub-validation: its failure is the node's only content.
   */
  lemma AndStopsAtFirstFailingSub(v: Validation, x: Value, props: Props, k: nat)
    requires v.ObjectValidation? && !v.combineWithOr && v.shortCircuit && k < |v.subValidations|
    requires forall j :: 0 <= j < |v.constraints| ==> v.constraints[j].test(x, props)
    requires forall j :: 0 <= j < k ==> Quiet(v.subValidations[j], x, props) && Eval(v.subValidations[j], x, props).Passed()
    requires Eval(v.subValidations[k], x, props).Ran? && !Eval(v.subValidations[k], x, props).Passed()
    ensures var last := Eval(v.subValidations[k], x, props);
      Eval(v, x, props) == Ran(last.props, Some(LogicalAddError(AndResult(x, []), last.failure.value)))
  {
    DecidedIff(v.constraints, 0, x, props, false);
    ConstraintsFromAll(v.constraints, 0, x, props, false, true, None, AndResult(x, []));
    assert v.constraints[0..] == v.constraints;
    assert FailedLeaves(v.constraints, x, props) == [] by {
      NoFailedLeaves(v.constraints, x, props);
    }
    var c := ConstraintsFrom(v.constraints, 0, x, props, false, true, None, AndResult(x, []));
    assert c.group == AndResult(x, []) && !c.early;
    SubsFromFirstDecisive(v, 0, x, props, None, c.group, k);
    var s := SubsFrom(v, 0, x, props, None, c.group);
    assert Intern(v, x, props) == GroupState(s.props, false, s.group);
  }

  /** OR with short-circuit whose constraints all fail passes at the first passing sub-validation. */
  lemma OrStopsAtFirstPassingSub(v: Validation, x: Value, props: Props, k: nat)
    requires v.ObjectValidation? && v.combineWithOr && v.shortCircuit && k < |v.subValidations|
    requires forall j :: 0 <= j < |v.constraints| ==> !v.constraints[j].test(x, props)
    requires forall j :: 0 <= j < k ==> Quiet(v.subValidations[j], x, props) && !Eval(v.subValidations[j], x, props).Passed()
    requires Eval(v.subValidations[k], x, props).Passed()
    ensures Eval(v, x, props) == Ran(Eval(v.subValidations[k], x, props).props, None)
  {
    DecidedIff(v.constraints, 0, x, props, true);
    ConstraintsFromAll(v.constraints, 0, x, props, true, true, None, OrResult(x, []));
    var c := ConstraintsFrom(v.constraints, 0, x, props, true, true, None, OrResult(x, []));
    assert !c.early;
    SubsFromFirstDecisive(v, 0, x, props, None, c.group, k);
    var s := SubsFrom(v, 0, x, props, None, c.group);
    assert Intern(v, x, props) == GroupState(s.props, true, s.group);
  }

  lemma {:induction false} NoFailedLeaves(cs: seq<Constraint>, x: Value, props: Props)
    requires forall j :: 0 <= j < |cs| ==> cs[j].test(x, props)
    ensures FailedLeaves(cs, x, props) == []
    decreases |cs|
  {
    if |cs| > 0 {
      NoFailedLeaves(cs[1..], x, props);
    }
  }

  // ---------------------------------------------------------------------
  // Property navigators
  // ---------------------------------------------------------------------

  lemma PropertyUnfolds(v: Validation, x: Value, props: Props)
    requires v.IsProperty()
    ensures Eval(v, x, props) == EvalProperty(v, x, props)
  {
    match v
    case UndefinedProperty(_, _) =>
    case OptionalProperty(_, _) =>
    case RequiredProperty(_, _) =>
  }

  /**
   * A failed guard makes the navigator pass at once: the value is not
   * extracted and the inner validation not run, so neither matters.
   */
  lemma GuardFailureSkips(v: Validation, x: Value, props: Props)
    requires v.IsProperty() && v.path.Conditional?
    requires Eval(v.path.condition, x, props).Ran? && !Eval(v.path.condition, x, props).Passed()
    ensures Eval(v, x, props) == Ran(Eval(v.path.condition, x, props).props, None)
  {
    PropertyUnfolds(v, x, props);
  }

  /** An optional property whose value is null passes, whatever its inner validation. */
  lemma OptionalNullPasses(v: Validation, x: Value, props: Props)
    requires v.OptionalProperty? && Guard(v.path, x, props).Passed() && v.path.Get(x) == Ok(Null)
    ensures Eval(v, x, props) == Ran(Guard(v.path, x, props).props, None)
  {
    PropertyUnfolds(v, x, props);
  }

  /**
   * A required property whose value is null fails under its own descriptor
   * with the single leaf "is required", whatever its inner validation.
   */
  lemma RequiredNullReported(v: Validation, x: Value, props: Props)
    requires v.RequiredProperty? && Guard(v.path, x, props).Passed() && v.path.Get(x) == Ok(Null)
    ensures var r := Eval(v, x, props);
      && r.Ran? && r.props == Guard(v.path, x, props).props && r.failure.Some?
      && r.failure.value.PathResult? && r.failure.value.path == v.path && r.failure.value.value == Null
      && FlatErrors(r.failure.value) == [Error("is required", Null)]
  {
    PropertyUnfolds(v, x, props);
    var leaf: Node := Error("is required", Null);
    assert FlatErrorsOf([leaf]) == [leaf];
    assert FlatErrorsOf([AndResult(Null, [leaf])]) == [leaf];
  }

  /**
   * Otherwise the navigator passes, fails or throws as its inner validation
   * does on the extracted value, and a failure is the inner one placed
   * under the descriptor, with the same leaves.
   */
  lemma PropertyWrapsInner(v: Validation, x: Value, props: Props)
    requires v.IsProperty() && Guard(v.path, x, props).Passed() && v.path.Get(x).Ok?
    requires !v.path.Get(x).value.Null? || v.UndefinedProperty?
    ensures var y, gp := v.path.Get(x).value, Guard(v.path, x, props).props;
      var r, inner := Eval(v, x, props), Eval(v.validation, y, gp);
      && (inner.Threw? ==> r == inner)
      && (inner.Ran? ==> r.Ran? && r.props == inner.props && (r.Passed() <==> inner.Passed()))
      && (inner.Ran? && inner.failure.Some? ==>
            r.failure == Some(PathResult(v.path, y, [inner.failure.value]))
            && FlatErrors(r.failure.value) == FlatErrors(inner.failure.value))
  {
    PropertyUnfolds(v, x, props);
    var y, gp := v.path.Get(x).value, Guard(v.path, x, props).props;
    var inner := Eval(v.validation, y, gp);
    if inner.Ran? && inner.failure.Some? {
      assert FlatErrorsOf([inner.failure.value]) == FlatErrors(inner.failure.value) + FlatErrorsOf([]);
    }
  }

  // ---------------------------------------------------------------------
  // The cycle guard
  // ---------------------------------------------------------------------

  /**
   * The cycle guard passes exactly on a value it has not seen, and records
   * it; a foreign value under its key makes it throw. Every other key of
   * the map is left alone.
   */
  lemma CycleGuardRecords(x: Value, props: Props)
    ensures var r := Eval(NonRepeatingValidation, x, props);
      && (VisitedSet(props).Throw? ==> r == Threw(IllegalState("")))
      && (VisitedSet(props).Ok? ==>
            && r.Ran? && VisitedSet(r.props) == Ok(VisitedSet(props).value + {x})
            && (r.Passed() <==> x !in VisitedSet(props).value)
            && (forall k :: k in props && k != NonRepeatingKey ==> k in r.props && r.props[k] == props[k])
            && (forall k :: k in r.props ==> k in props || k == NonRepeatingKey))
  {
    var r := Eval(NonRepeatingValidation, x, props);
    if VisitedSet(props).Ok? {
      var seen := VisitedSet(props).value;
      if x in seen {
        assert seen + {x} == seen;
      }
    }
  }

  /** A value validated twice under the same map fails the second time, with the cycle message. */
  lemma CycleGuardRejectsSecondVisit(x: Value, props: Props)
    requires VisitedSet(props).Ok?
    ensures var first := Eval(NonRepeatingValidation, x, props);
      first.Ran? &&
      Eval(NonRepeatingValidation, x, first.props)
        == Ran(first.props, Some(AndResult(x, [Error("Can not validate the same object twice.", x)])))
  {
    CycleGuardRecords(x, props);
  }
}
