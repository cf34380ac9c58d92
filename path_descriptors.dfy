/**
 * Path descriptors: how to get from a value to the next value to validate,
 * and the name of that step (PathDescriptors.kt).
 *
 * The descriptor type is generic in the guard `G` of a conditional step, so
 * that the validation datatype can instantiate it with itself. Kotlin
 * compares guards by identity; a conditional descriptor therefore carries
 * the identity of its guard as `conditionId`.
 */
module PathDescriptors {
  import opened Values

  /**
   * What `hashCode` is computed from: the name, the identifier of a custom
   * descriptor, the reflected property or function, or the pair of name and
   * condition of a conditional descriptor.
   */
  datatype HashBasis =
    | NameHash(name: string)
    | IdentifierHash(identifier: Value)
    | PropertyHash(name: string)
    | FunctionHash(name: string)
    | PairHash(name: string, conditionId: nat)

  datatype PathDescriptor<G> =
    | This
    | Custom(identifier: Value, getter: Value -> Value)
    | Property(name: string, getter: Value -> Value)
    | Function(name: string, getter: Value -> Value)
    | MapKey(key: Value)
    | ArrayIndex(index: int)
    | IterableIndex(index: int)
    | Conditional(descriptor: PathDescriptor<G>, condition: G, conditionId: nat)
  {
    /** The name of the step, used in paths and printed reports. */
    function Name(): string
    {
      match this
      case This => ""
      case Custom(identifier, _) => ToString(identifier)
      case Property(name, _) => name
      case Function(name, _) => name
      case MapKey(key) => "[" + ToString(key) + "]"
      case ArrayIndex(index) => "[" + IntToString(index) + "]"
      case IterableIndex(index) => "[" + IntToString(index) + "]"
      case Conditional(descriptor, _, _) => descriptor.Name()
    }

    /** The descriptor with every conditional wrapper removed. */
    function Unwrapped(): (d: PathDescriptor<G>)
      ensures !d.Conditional?
      ensures d.Name() == Name()
    {
      if Conditional? then descriptor.Unwrapped() else this
    }

    /**
     * `equals` as written: the base class compares names only, so the plain
     * descriptors (this, map key, array and iterable index) equal any
     * descriptor of the same name, while custom, property, function and
     * conditional descriptors also demand the same kind.
     */
    predicate Equals(other: PathDescriptor<G>)
    {
      match this
      case Custom(identifier, _) => other.Custom? && other.identifier == identifier
      case Property(_, _) => other.Property? && other.Name() == Name()
      case Function(_, _) => other.Function? && other.Name() == Name()
      case Conditional(_, _, conditionId) =>
        other.Conditional? && other.conditionId == conditionId && other.Name() == Name()
      case _ => other.Name() == Name()
    }

    /**
     * `hashCode`: plain descriptors hash their name, a custom one its
     * identifier (a string identifier hashes as that string, so as the
     * name), property and function descriptors the reflected member, and a
     * conditional one the array of its name and its condition.
     */
    function Hash(): HashBasis
    {
      match this
      case Custom(identifier, _) => if identifier.Str? then NameHash(identifier.s) else IdentifierHash(identifier)
      case Property(name, _) => PropertyHash(name)
      case Function(name, _) => FunctionHash(name)
      case Conditional(_, _, conditionId) => PairHash(Name(), conditionId)
      case _ => NameHash(Name())
    }

    /**
     * `get`: the next value. A map key that is absent, an array index out of
     * range or an iterator that runs out throw; a value of the wrong shape
     * is a failed cast.
     */
    function Get(x: Value): Outcome<Value>
    {
      match this
      case This => Ok(x)
      case Custom(_, getter) => Ok(getter(x))
      case Property(_, getter) => Ok(getter(x))
      case Function(_, getter) => Ok(getter(x))
      case MapKey(key) =>
        if !x.Map? then Throw(ClassCast)
        else
          var k := FindFirst(x.entries, key);
          if k < |x.entries| then Ok(Entry(x.entries[k].0, x.entries[k].1))
          else Throw(NoSuchElement)
      case ArrayIndex(index) =>
        if !x.Array? then Throw(ClassCast)
        else if 0 <= index < |x.items| then Ok(x.items[index])
        else Throw(IndexOutOfBounds)
      case IterableIndex(index) =>
        if !x.List? then Throw(ClassCast) else IteratorElement(x.items, index)
      case Conditional(descriptor, _, _) => descriptor.Get(x)
    }
  }

  /**
   * The element an iterator yields after `index` calls to `next()` have been
   * skipped: the loop `for (i in 0 until index)` does not run for a negative
   * index, so the first element is returned then.
   */
  function IteratorElement(items: seq<Value>, index: int): Outcome<Value>
  {
    var skip := if index < 0 then 0 else index;
    if skip < |items| then Ok(items[skip]) else Throw(NoSuchElement)
  }

  /**
   * The iterator walk of `IterablePathDescriptor.get`: skip `index`
   * elements, each `next()` throwing when the iterator is exhausted, then
   * return the next one.
   */
  method IterableGet(items: seq<Value>, index: int) returns (r: Outcome<Value>)
    ensures r == IteratorElement(items, index)
    ensures 0 <= index < |items| ==> r == Ok(items[index])
    ensures index >= |items| ==> r == Throw(NoSuchElement)
  {
    var position := 0;
    var i := 0;
    while i < index
      invariant 0 <= i && position == i
      invariant index > 0 ==> i <= index
      invariant index <= 0 ==> i == 0
      invariant i <= |items|
    {
      if position == |items| {
        return Throw(NoSuchElement);
      }
      position := position + 1;
      i := i + 1;
    }
    if position == |items| {
      return Throw(NoSuchElement);
    }
    r := Ok(items[position]);
  }

  /** `get` of any descriptor, walking the iterator for an iterable index. */
  method Extract<G>(d: PathDescriptor<G>, x: Value) returns (r: Outcome<Value>)
    ensures r == d.Get(x)
  {
    UnwrappedGet(d, x);
    match d.Unwrapped()
    case IterableIndex(index) =>
      if !x.List? {
        r := Throw(ClassCast);
      } else {
        r := IterableGet(x.items, index);
      }
    case _ =>
      r := d.Unwrapped().Get(x);
  }

  lemma UnwrappedGet<G>(d: PathDescriptor<G>, x: Value)
    ensures d.Unwrapped().Get(x) == d.Get(x)
  {
  }

  /** Every descriptor equals itself. */
  lemma EqualsReflexive<G>(d: PathDescriptor<G>)
    ensures d.Equals(d)
  {
  }

  /** An array index and an iterable index with the same number are equal, both ways. */
  lemma IndexDescriptorsEqual<G>(i: int)
    ensures PathDescriptor<G>.ArrayIndex(i).Equals(IterableIndex(i))
    ensures PathDescriptor<G>.IterableIndex(i).Equals(ArrayIndex(i))
  {
  }

  /** Index descriptors are equal exactly when their indices are. */
  lemma IndexDescriptorsDistinct<G>(i: int, j: int)
    ensures PathDescriptor<G>.ArrayIndex(i).Equals(ArrayIndex(j)) <==> i == j
    ensures PathDescriptor<G>.IterableIndex(i).Equals(IterableIndex(j)) <==> i == j
  {
    if PathDescriptor<G>.ArrayIndex(i).Equals(ArrayIndex(j)) || PathDescriptor<G>.IterableIndex(i).Equals(IterableIndex(j)) {
      var a, b := IntToString(i), IntToString(j);
      assert "[" + a + "]" == "[" + b + "]";
      assert a == ("[" + a + "]")[1..|a| + 1];
      assert b == ("[" + b + "]")[1..|b| + 1];
      IntToStringInjective(i, j);
    }
  }

  /**
   * `equals` and `hashCode` agree except where the base-class `equals`
   * compares names only: a this, map-key or index descriptor equals any
   * descriptor of its name, while a custom, property, function or
   * conditional descriptor hashes by something else. In particular a plain
   * descriptor equals a conditional one of its name but hashes differently.
   */
  lemma EqualsAndHash<G>(d: PathDescriptor<G>, e: PathDescriptor<G>)
    ensures var plain := d.This? || d.MapKey? || d.ArrayIndex? || d.IterableIndex?;
      var otherPlain := e.This? || e.MapKey? || e.ArrayIndex? || e.IterableIndex?;
      d.Equals(e) && (!plain || otherPlain) ==> d.Hash() == e.Hash()
    ensures e.Conditional? && !d.Conditional? ==> d.Hash() != e.Hash()
  {
  }

  /**
   * Equality as written is not symmetric: a plain descriptor equals a
   * conditional one of the same name, but not the other way round.
   */
  lemma EqualsNotSymmetric<G>(guard: G)
    ensures PathDescriptor<G>.ArrayIndex(0).Equals(Conditional(ArrayIndex(0), guard, 0))
    ensures !Conditional(PathDescriptor<G>.ArrayIndex(0), guard, 0).Equals(ArrayIndex(0))
  {
  }
}
