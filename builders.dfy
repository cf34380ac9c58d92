/**
 * The builders that compile the DSL into one `ObjectValidation`
 * (internal/BasicValidationBuilder.kt, internal/PropKeys.kt,
 * internal/BasicAndValidationBuilder.kt, internal/BasicOrValidationBuilder.kt
 * and the registration functions of constraints/CollectionConstraints.kt).
 *
 * Kotlin builders are objects that hold their sub-builders in a map and hand
 * them out again for later declarations on the same target. The model keeps
 * every builder of one DSL session in a `BuilderPool`: a builder is an index
 * into the pool, so handing out "the same sub-builder" is returning the same
 * index. A sub-builder is always created after its parent and so has a larger
 * index, which is what makes `Build` terminate.
 */
module Builders {
  import opened Values
  import opened PathDescriptors
  import opened Constraints
  import opened ValidationResults
  import opened Validations
  import opened ValidationLaws

  /** `PropModifier`: which property navigator a key builds. */
  datatype Modifier = Undefined | Optional | Required

  /**
   * The class of a `PropKey`: a single value, or every element of an
   * iterable, an array or a map, restricted to an allow-list when that list
   * is not empty.
   */
  datatype KeyKind =
    | SingleValueKey
    | IterableKey(indexList: seq<int>)
    | ArrayKey(indexList: seq<int>)
    | MapEntriesKey(keyList: seq<Value>)

  datatype PropKey = PropKey(kind: KeyKind, path: PathDescriptor<Validation>, modifier: Modifier)

  /**
   * The test of `getOrPut` on a hash map: the data-class hashes agree (same
   * descriptor hash, same modifier), and the data-class `equals` holds with
   * the key looked up on the left (same class, descriptors equal by the
   * descriptor's own `equals`, same modifier).
   */
  predicate SameKey(key: PropKey, stored: PropKey)
  {
    && key.kind == stored.kind
    && key.path.Hash() == stored.path.Hash()
    && key.path.Equals(stored.path)
    && key.modifier == stored.modifier
  }

  /**
   * A key on a plain descriptor never finds a sub-builder stored under a
   * conditional descriptor, although the plain descriptor equals it: the
   * hashes differ. A conditional key does not find a plain one either.
   */
  lemma ConditionalKeysApart(key: PropKey, stored: PropKey)
    requires key.path.Conditional? != stored.path.Conditional?
    ensures !SameKey(key, stored)
  {
    EqualsAndHash(key.path, stored.path);
  }

  /**
   * `thisPath validateIf { .. } required { .. }` followed by
   * `required { .. }` registers a second key: the plain `required` does not
   * reach the sub-builder of the conditional one.
   */
  lemma ConditionalThenPlain(guard: Validation, conditionId: nat)
    ensures var stored := KeyOf(IsRequired, Conditional(This, guard, conditionId));
      var key := KeyOf(IsRequired, This);
      This.Equals(stored.path) && FindSub([stored], key, 0) == 1
  {
    var stored := KeyOf(IsRequired, Conditional(This, guard, conditionId));
    ConditionalKeysApart(KeyOf(IsRequired, This), stored);
  }

  /** `build` of a key: the built sub-builder, wrapped for a collection key, under the navigator the modifier selects. */
  function BuildKey(key: PropKey, inner: Validation): (r: Validation)
    ensures r.IsProperty() && r.path == key.path
  {
    var wrapped :=
      match key.kind
      case SingleValueKey => inner
      case IterableKey(indexList) => IterableValidation(inner, indexList)
      case ArrayKey(indexList) => ArrayValidation(inner, indexList)
      case MapEntriesKey(keyList) => MapValidation(inner, keyList);
    match key.modifier
    case Undefined => UndefinedProperty(key.path, wrapped)
    case Optional => OptionalProperty(key.path, wrapped)
    case Required => RequiredProperty(key.path, wrapped)
  }

  /**
   * The modifier selects the navigator and the class of the key selects the
   * collection validation between it and the built sub-builder.
   */
  lemma BuildKeyShape(key: PropKey, inner: Validation)
    ensures var r := BuildKey(key, inner);
      && (r.UndefinedProperty? <==> key.modifier == Undefined)
      && (r.OptionalProperty? <==> key.modifier == Optional)
      && (r.RequiredProperty? <==> key.modifier == Required)
      && (key.kind.SingleValueKey? ==> r.validation == inner)
      && (key.kind.IterableKey? ==> r.validation == IterableValidation(inner, key.kind.indexList))
      && (key.kind.ArrayKey? ==> r.validation == ArrayValidation(inner, key.kind.indexList))
      && (key.kind.MapEntriesKey? ==> r.validation == MapValidation(inner, key.kind.keyList))
  {
  }

  /**
   * The navigation functions of the AND and OR builders. `validate` (AND)
   * and `invoke` (OR) are `Plain`; the three `allIndicesIn`/`allKeysIn`
   * forms carry their allow-list.
   */
  datatype Navigation =
    | Plain
    | Has
    | IfPresent
    | IsRequired
    | AllInIterable
    | AllIndicesInIterable(indices: seq<int>)
    | AllInArray
    | AllIndicesInArray(indices: seq<int>)
    | AllInMap
    | AllKeysInMap(keys: seq<Value>)

  /** The key a navigation function registers its sub-builder under. */
  function KeyOf(nav: Navigation, path: PathDescriptor<Validation>): (k: PropKey)
    ensures k.path == path
  {
    match nav
    case Plain => PropKey(SingleValueKey, path, Undefined)
    case Has => PropKey(SingleValueKey, path, Undefined)
    case IfPresent => PropKey(SingleValueKey, path, Optional)
    case IsRequired => PropKey(SingleValueKey, path, Required)
    case AllInIterable => PropKey(IterableKey([]), path, Undefined)
    case AllIndicesInIterable(indices) => PropKey(IterableKey(indices), path, Undefined)
    case AllInArray => PropKey(ArrayKey([]), path, Undefined)
    case AllIndicesInArray(indices) => PropKey(ArrayKey(indices), path, Undefined)
    case AllInMap => PropKey(MapEntriesKey([]), path, Undefined)
    case AllKeysInMap(keys) => PropKey(MapEntriesKey(keys), path, Undefined)
  }

  /**
   * `ifPresent` builds an optional property: on a null value it passes
   * without running what was declared inside it.
   */
  lemma IfPresentSkipsNull(path: PathDescriptor<Validation>, inner: Validation, x: Value, props: Props)
    requires Guard(path, x, props).Passed() && path.Get(x) == Ok(Null)
    ensures Eval(BuildKey(KeyOf(IfPresent, path), inner), x, props) == Ran(Guard(path, x, props).props, None)
  {
    OptionalNullPasses(BuildKey(KeyOf(IfPresent, path), inner), x, props);
  }

  /** `required` builds a required property: on a null value it fails with the single error "is required". */
  lemma RequiredReportsNull(path: PathDescriptor<Validation>, inner: Validation, x: Value, props: Props)
    requires Guard(path, x, props).Passed() && path.Get(x) == Ok(Null)
    ensures var r := Eval(BuildKey(KeyOf(IsRequired, path), inner), x, props);
      && r.Ran? && r.failure.Some? && r.failure.value.PathResult? && r.failure.value.path == path
      && FlatErrors(r.failure.value) == [Error("is required", Null)]
  {
    RequiredNullReported(BuildKey(KeyOf(IsRequired, path), inner), x, props);
  }

  /**
   * `validate`/`invoke`/`has` and `ifPresent` on the same descriptor are
   * different keys, and so are `ifPresent` and `required`: each gets a
   * sub-tree of its own.
   */
  lemma ModifiersSeparateKeys(path: PathDescriptor<Validation>)
    ensures SameKey(KeyOf(Plain, path), KeyOf(Has, path))
    ensures !SameKey(KeyOf(Plain, path), KeyOf(IfPresent, path))
    ensures !SameKey(KeyOf(IfPresent, path), KeyOf(IsRequired, path))
    ensures !SameKey(KeyOf(Plain, path), KeyOf(AllInIterable, path))
  {
    EqualsReflexive(path);
  }

  /**
   * The state of one builder object. Kotlin constraints are compared by
   * identity; `constraintIds[i]` is the identity of `constraints[i]`.
   */
  datatype BuilderData = BuilderData(
    constraints: seq<Constraint>,
    constraintIds: seq<nat>,
    keys: seq<PropKey>,
    children: seq<nat>,
    prebuilt: seq<Validation>,
    combineWithOr: bool,
    shortCircuit: bool)

  /** A new builder: an AND builder starts without short-circuit, an OR builder with it. */
  function Fresh(or: bool): (d: BuilderData)
    ensures d.constraints == [] && d.constraintIds == [] && d.keys == [] && d.children == [] && d.prebuilt == []
    ensures d.combineWithOr == or && d.shortCircuit == or
  {
    BuilderData([], [], [], [], [], or, or)
  }

  /** Position of the first stored key `key` is equal to, or `|keys|`. */
  function FindSub(keys: seq<PropKey>, key: PropKey, i: nat): (k: nat)
    requires i <= |keys|
    ensures i <= k <= |keys|
    ensures k < |keys| ==> SameKey(key, keys[k])
    decreases |keys| - i
  {
    if i == |keys| then i
    else if SameKey(key, keys[i]) then i
    else FindSub(keys, key, i + 1)
  }

  /** Adding keys behind the ones already stored does not change where a stored key is found. */
  lemma {:induction false} FindSubExtended(keys: seq<PropKey>, more: seq<PropKey>, key: PropKey, i: nat)
    requires i <= |keys| && FindSub(keys, key, i) < |keys|
    ensures FindSub(keys + more, key, i) == FindSub(keys, key, i)
    decreases |keys| - i
  {
    assert (keys + more)[i] == keys[i];
    if !SameKey(key, keys[i]) {
      FindSubExtended(keys, more, key, i + 1);
    }
  }

  /** A key that no stored key equals is found where it is appended. */
  lemma {:induction false} FindSubAppended(keys: seq<PropKey>, key: PropKey, i: nat)
    requires i <= |keys| && FindSub(keys, key, i) == |keys|
    ensures FindSub(keys + [key], key, i) == |keys|
    decreases |keys| - i
  {
    if i == |keys| {
      EqualsReflexive(key.path);
    } else {
      assert (keys + [key])[i] == keys[i];
      FindSubAppended(keys, key, i + 1);
    }
  }

  /** Position of the first identity `id` in `ids`, or `|ids|`. */
  function IndexOf(ids: seq<nat>, id: nat): (k: nat)
    ensures k <= |ids|
    ensures k < |ids| ==> ids[k] == id
    ensures forall j :: 0 <= j < k ==> ids[j] != id
  {
    if |ids| == 0 || ids[0] == id then 0 else 1 + IndexOf(ids[1..], id)
  }

  /** `remove`: the element at position `k` taken out, when there is one. */
  function RemoveAt<T>(s: seq<T>, k: nat): (r: seq<T>)
    ensures k < |s| ==> |r| == |s| - 1 && multiset(r) == multiset(s) - multiset{s[k]}
    ensures k >= |s| ==> r == s
  {
    if k < |s| then
      assert s == s[..k] + [s[k]] + s[k + 1..];
      s[..k] + s[k + 1..]
    else s
  }

  /**
   * Every builder of one DSL session. `nodes[b]` is the state of builder
   * `b`; `nodes[b].children[i]` is the sub-builder registered under
   * `nodes[b].keys[i]`, and is always a later builder.
   */
  class BuilderPool {
    var nodes: seq<BuilderData>
    /** The number of constraint objects created so far: the next identity. */
    var issued: nat

    ghost predicate Valid()
      reads this`nodes
    {
      && (forall b :: 0 <= b < |nodes| ==>
            |nodes[b].constraintIds| == |nodes[b].constraints| && |nodes[b].keys| == |nodes[b].children|)
      && (forall b, i :: 0 <= b < |nodes| && 0 <= i < |nodes[b].children| ==> b < nodes[b].children[i] < |nodes|)
    }

    ghost predicate ChildrenAfter(b: nat)
      reads this`nodes
      requires b < |nodes|
    {
      |nodes[b].constraintIds| == |nodes[b].constraints|
      && |nodes[b].keys| == |nodes[b].children|
      && forall i :: 0 <= i < |nodes[b].children| ==> b < nodes[b].children[i] < |nodes|
    }

    constructor()
      ensures Valid() && nodes == [] && issued == 0
    {
      nodes := [];
      issued := 0;
    }

    /**
     * `build`: the accumulated constraints, then one validation per key in
     * registration order followed by the prebuilt validations, under the
     * builder's own flags.
     */
    function Build(b: nat): (r: Validation)
      reads this`nodes
      requires Valid() && b < |nodes|
      ensures r.ObjectValidation?
      ensures r.constraints == nodes[b].constraints
      ensures r.combineWithOr == nodes[b].combineWithOr && r.shortCircuit == nodes[b].shortCircuit
      ensures |r.subValidations| == |nodes[b].keys| + |nodes[b].prebuilt|
      ensures r.subValidations[|nodes[b].keys|..] == nodes[b].prebuilt
      decreases |nodes| - b, 1
    {
      assert ChildrenAfter(b);
      var d := nodes[b];
      ObjectValidation(d.constraints, BuildSubs(b, 0) + d.prebuilt, d.combineWithOr, d.shortCircuit)
    }

    /** The validations built from the keys of builder `b` from position `i` on. */
    function BuildSubs(b: nat, i: nat): (r: seq<Validation>)
      reads this`nodes
      requires Valid() && b < |nodes| && i <= |nodes[b].keys|
      ensures |r| == |nodes[b].keys| - i
      ensures forall j :: 0 <= j < |r| ==> r[j].IsProperty() && r[j].path == nodes[b].keys[i + j].path
      decreases |nodes| - b, 0, |nodes[b].keys| - i
    {
      assert ChildrenAfter(b);
      if i == |nodes[b].keys| then []
      else [BuildKey(nodes[b].keys[i], Build(nodes[b].children[i]))] + BuildSubs(b, i + 1)
    }

    /** The nested validation built for key position `i` of builder `b` is its sub-builder's, under the key. */
    lemma {:induction false} BuildNested(b: nat, i: nat)
      requires Valid() && b < |nodes| && i < |nodes[b].keys|
      ensures ChildrenAfter(b)
      ensures Build(b).subValidations[i] == BuildKey(nodes[b].keys[i], Build(nodes[b].children[i]))
    {
      assert ChildrenAfter(b);
      BuildSubsAt(b, 0, i);
    }

    lemma {:induction false} BuildSubsAt(b: nat, i: nat, j: nat)
      requires Valid() && b < |nodes| && i <= j < |nodes[b].keys|
      ensures ChildrenAfter(b)
      ensures BuildSubs(b, i)[j - i] == BuildKey(nodes[b].keys[j], Build(nodes[b].children[j]))
      decreases j - i
    {
      assert ChildrenAfter(b);
      if i < j {
        BuildSubsAt(b, i + 1, j);
      }
    }

    /** `BasicAndValidationBuilder()` / `BasicOrValidationBuilder()`: a new, empty builder. */
    method NewBuilder(or: bool) returns (b: nat)
      requires Valid()
      modifies this
      ensures Valid()
      ensures nodes == old(nodes) + [Fresh(or)] && b == |old(nodes)| && issued == old(issued)
    {
      b := |nodes|;
      nodes := nodes + [Fresh(or)];
      assert forall c :: 0 <= c < b ==> nodes[c] == old(nodes)[c];
      assert forall c :: 0 <= c < b ==> old(ChildrenAfter(c));
    }

    /** The pool with only builder `b` replaced by `d`, whose keys and children are those of `b`. */
    method Update(b: nat, d: BuilderData)
      requires Valid() && b < |nodes| && d.keys == nodes[b].keys && d.children == nodes[b].children
      requires |d.constraintIds| == |d.constraints|
      modifies this
      ensures Valid()
      ensures nodes == old(nodes)[b := d] && issued == old(issued)
    {
      nodes := nodes[b := d];
      assert forall c :: 0 <= c < |nodes| ==> old(ChildrenAfter(c));
    }

    /**
     * `addConstraint`: one new constraint object with the message, the
     * template values and the test, appended and returned with its identity.
     */
    method AddConstraint(b: nat, message: string, templateValues: seq<string>, test: (Value, Props) -> bool)
      returns (c: Constraint, id: nat)
      requires Valid() && b < |nodes|
      modifies this
      ensures Valid()
      ensures c == NewConstraint(message, templateValues, test) && id == old(issued) && issued == old(issued) + 1
      ensures nodes == old(nodes)[b := old(nodes)[b].(constraints := old(nodes)[b].constraints + [c],
                                                      constraintIds := old(nodes)[b].constraintIds + [id])]
    {
      c := NewConstraint(message, templateValues, test);
      id := issued;
      issued := issued + 1;
      assert ChildrenAfter(b);
      var d := nodes[b];
      Update(b, d.(constraints := d.constraints + [c], constraintIds := d.constraintIds + [id]));
    }

    /**
     * `hint` on the constraint object `previous` with identity `id`: a new
     * constraint object with the new hint and the old one's template values
     * and test is appended, and `previous` is removed from the list when it
     * is there. The number of constraints is then unchanged.
     */
    method Hint(b: nat, previous: Constraint, id: nat, hint: string) returns (c: Constraint, newId: nat)
      requires Valid() && b < |nodes|
      modifies this
      ensures Valid()
      ensures c == NewConstraint(hint, previous.templateValues, previous.test)
      ensures newId == old(issued) && issued == old(issued) + 1
      ensures var d, k := old(nodes)[b], IndexOf(old(nodes)[b].constraintIds, id);
        nodes == old(nodes)[b := d.(constraints := RemoveAt(d.constraints, k) + [c],
                                    constraintIds := RemoveAt(d.constraintIds, k) + [newId])]
      ensures id in old(nodes)[b].constraintIds ==> |nodes[b].constraints| == |old(nodes)[b].constraints|
    {
      c := NewConstraint(hint, previous.templateValues, previous.test);
      newId := issued;
      issued := issued + 1;
      assert ChildrenAfter(b);
      var d := nodes[b];
      var k := IndexOf(d.constraintIds, id);
      Update(b, d.(constraints := RemoveAt(d.constraints, k) + [c], constraintIds := RemoveAt(d.constraintIds, k) + [newId]));
    }

    /** `run`: a prebuilt validation is appended, nothing else changes. */
    method Run(b: nat, v: Validation)
      requires Valid() && b < |nodes|
      modifies this
      ensures Valid()
      ensures nodes == old(nodes)[b := old(nodes)[b].(prebuilt := old(nodes)[b].prebuilt + [v])] && issued == old(issued)
    {
      Update(b, nodes[b].(prebuilt := nodes[b].prebuilt + [v]));
    }

    /** `shortCircuit()` (AND builders, `on` true) and `nonShortCircuit()` (OR builders, `on` false). */
    method SetShortCircuit(b: nat, on: bool)
      requires Valid() && b < |nodes|
      modifies this
      ensures Valid()
      ensures nodes == old(nodes)[b := old(nodes)[b].(shortCircuit := on)]
    {
      Update(b, nodes[b].(shortCircuit := on));
    }

    /** The sub-builder registered under `key` in builder `b`. */
    ghost predicate Registered(b: nat, key: PropKey, child: nat)
      reads this`nodes
      requires b < |nodes| && |nodes[b].keys| == |nodes[b].children|
    {
      var k := FindSub(nodes[b].keys, key, 0);
      k < |nodes[b].keys| && nodes[b].children[k] == child
    }

    /**
     * `getOrCreateBuilder` (`getOrPut`): the sub-builder of the first stored
     * key equal to `key`; otherwise a new builder of the parent's kind,
     * registered under `key` behind the existing keys. Afterwards `key` is
     * registered to the returned builder, so a later declaration on an equal
     * key gets the same builder.
     */
    method GetOrCreateBuilder(b: nat, key: PropKey) returns (child: nat)
      requires Valid() && b < |nodes|
      modifies this
      ensures Valid() && |old(nodes)| <= |nodes| && b < |nodes|
      ensures var k := FindSub(old(nodes)[b].keys, key, 0);
        && (k < |old(nodes)[b].keys| ==> nodes == old(nodes) && child == old(nodes)[b].children[k])
        && (k == |old(nodes)[b].keys| ==>
              child == |old(nodes)| &&
              nodes == old(nodes)[b := old(nodes)[b].(keys := old(nodes)[b].keys + [key], children := old(nodes)[b].children + [child])]
                       + [Fresh(old(nodes)[b].combineWithOr)])
      ensures ChildrenAfter(b) && Registered(b, key, child)
    {
      assert ChildrenAfter(b);
      var keys := nodes[b].keys;
      var i := 0;
      while i < |keys| && !SameKey(key, keys[i])
        invariant 0 <= i <= |keys|
        invariant FindSub(keys, key, 0) == FindSub(keys, key, i)
      {
        i := i + 1;
      }
      if i < |keys| {
        return nodes[b].children[i];
      }
      child := |nodes|;
      var d := nodes[b];
      nodes := nodes[b := d.(keys := d.keys + [key], children := d.children + [child])] + [Fresh(d.combineWithOr)];
      assert forall c :: 0 <= c < child ==> old(ChildrenAfter(c));
      assert ChildrenAfter(b);
      FindSubAppended(keys, key, 0);
    }

    /**
     * The navigation functions of the AND and OR builders, and `onEach`
     * (`AllInIterable`/`AllInArray`/`AllInMap` on `This`): the sub-builder
     * registered under the key of the navigation.
     */
    method Navigate(b: nat, nav: Navigation, path: PathDescriptor<Validation>) returns (child: nat)
      requires Valid() && b < |nodes|
      modifies this
      ensures Valid() && b < |nodes| && ChildrenAfter(b)
      ensures Registered(b, KeyOf(nav, path), child)
      ensures var k := FindSub(old(nodes)[b].keys, KeyOf(nav, path), 0);
        k < |old(nodes)[b].keys| ==> nodes == old(nodes) && child == old(nodes)[b].children[k]
      ensures nodes[b].constraints == old(nodes)[b].constraints && nodes[b].prebuilt == old(nodes)[b].prebuilt
      ensures nodes[b].combineWithOr == old(nodes)[b].combineWithOr && nodes[b].shortCircuit == old(nodes)[b].shortCircuit
    {
      child := GetOrCreateBuilder(b, KeyOf(nav, path));
    }

    /**
     * Two declarations of the same navigation on the same descriptor reach
     * the same sub-builder, so what is declared in both ends up in one
     * nested validation.
     */
    method NavigateTwice(b: nat, nav: Navigation, path: PathDescriptor<Validation>) returns (first: nat, second: nat)
      requires Valid() && b < |nodes|
      modifies this
      ensures Valid() && first == second
    {
      first := Navigate(b, nav, path);
      second := Navigate(b, nav, path);
    }

    /** Registering under `key` keeps every earlier registration of builder `b`. */
    lemma {:induction false} KeepsRegistration(b: nat, key: PropKey, child: nat, oldNodes: seq<BuilderData>)
      requires b < |oldNodes| && b < |nodes| && |oldNodes[b].keys| == |oldNodes[b].children|
      requires |nodes[b].keys| == |nodes[b].children|
      requires |oldNodes[b].keys| <= |nodes[b].keys| && nodes[b].keys[..|oldNodes[b].keys|] == oldNodes[b].keys
      requires nodes[b].children[..|oldNodes[b].children|] == oldNodes[b].children
      requires var k := FindSub(oldNodes[b].keys, key, 0); k < |oldNodes[b].keys| && oldNodes[b].children[k] == child
      ensures Registered(b, key, child)
    {
      var n := |oldNodes[b].keys|;
      var more := nodes[b].keys[n..];
      assert nodes[b].keys == oldNodes[b].keys + more;
      FindSubExtended(oldNodes[b].keys, more, key, 0);
      assert nodes[b].children[FindSub(oldNodes[b].keys, key, 0)] == oldNodes[b].children[FindSub(oldNodes[b].keys, key, 0)];
    }

    /**
     * `onIndices`/`onKeys` (constraints/CollectionConstraints.kt): one
     * single-value key per listed index or key, in order, with `targets`
     * their descriptors. The returned builders are the ones the caller's
     * block configures.
     */
    method RegisterEach(b: nat, targets: seq<PathDescriptor<Validation>>) returns (children: seq<nat>)
      requires Valid() && b < |nodes|
      modifies this
      ensures Valid() && b < |nodes| && ChildrenAfter(b)
      ensures |children| == |targets|
      ensures forall j :: 0 <= j < |targets| ==> Registered(b, PropKey(SingleValueKey, targets[j], Undefined), children[j])
      ensures nodes[b].constraints == old(nodes)[b].constraints && nodes[b].prebuilt == old(nodes)[b].prebuilt
      ensures nodes[b].combineWithOr == old(nodes)[b].combineWithOr && nodes[b].shortCircuit == old(nodes)[b].shortCircuit
    {
      children := [];
      var j := 0;
      while j < |targets|
        invariant 0 <= j <= |targets| && |children| == j
        invariant Valid() && b < |nodes| && ChildrenAfter(b)
        invariant forall k :: 0 <= k < j ==> Registered(b, PropKey(SingleValueKey, targets[k], Undefined), children[k])
        invariant nodes[b].constraints == old(nodes)[b].constraints && nodes[b].prebuilt == old(nodes)[b].prebuilt
        invariant nodes[b].combineWithOr == old(nodes)[b].combineWithOr && nodes[b].shortCircuit == old(nodes)[b].shortCircuit
      {
        ghost var before := nodes;
        var child := GetOrCreateBuilder(b, PropKey(SingleValueKey, targets[j], Undefined));
        forall k | 0 <= k < j
          ensures Registered(b, PropKey(SingleValueKey, targets[k], Undefined), children[k])
        {
          KeepsRegistration(b, PropKey(SingleValueKey, targets[k], Undefined), children[k], before);
        }
        children := children + [child];
        j := j + 1;
      }
    }

    /**
     * The end of `or{}`/`and{}`/`shortCircuit{}`/`nonShortCircuit{}`: the
     * separate builder `temp`, configured by the block, is built and spliced
     * into builder `b` with `run`; the flags of `b` stay as they were.
     */
    method Splice(b: nat, temp: nat)
      requires Valid() && b < |nodes| && temp < |nodes|
      modifies this
      ensures Valid()
      ensures nodes == old(nodes)[b := old(nodes)[b].(prebuilt := old(nodes)[b].prebuilt + [old(Build(temp))])]
      ensures nodes[b].combineWithOr == old(nodes)[b].combineWithOr && nodes[b].shortCircuit == old(nodes)[b].shortCircuit
    {
      Run(b, Build(temp));
    }

    /** `noRepeat` of NonRepeatingValidation.kt: the cycle guard is spliced in with `run`. */
    method NoRepeat(b: nat)
      requires Valid() && b < |nodes|
      modifies this
      ensures Valid()
      ensures nodes == old(nodes)[b := old(nodes)[b].(prebuilt := old(nodes)[b].prebuilt + [NonRepeatingValidation])]
    {
      Run(b, NonRepeatingValidation);
    }

    /**
     * A builder holding only constraints compiles to a node that, with or
     * without short-circuit, passes exactly when all of them pass (AND) or
     * when one of them passes or there is none (OR).
     */
    lemma ConstraintsOnlyBuild(b: nat, x: Value, props: Props)
      requires Valid() && b < |nodes| && nodes[b].keys == [] && nodes[b].prebuilt == []
      ensures var r, cs := Eval(Build(b), x, props), nodes[b].constraints;
        && r.Ran? && r.props == props
        && (!nodes[b].combineWithOr ==> (r.Passed() <==> forall k :: 0 <= k < |cs| ==> cs[k].test(x, props)))
        && (nodes[b].combineWithOr ==> (r.Passed() <==> |cs| == 0 || exists k :: 0 <= k < |cs| && cs[k].test(x, props)))
    {
      var v := Build(b);
      assert |v.subValidations| == 0;
      if nodes[b].combineWithOr {
        OrLaw(v, x, props);
      } else {
        AndLaw(v, x, props);
      }
    }
  }
}
