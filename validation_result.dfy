/**
 * The result tree of a validation run (ValidationResult.kt): leaves report
 * one error or warning, a path result addresses a sub value, and and/or
 * results combine their children. The tree is a value here; the parent
 * pointers of the Kotlin nodes are replaced by the position of a node in the
 * tree, and the in-place `addError` by functions returning the new node.
 */
module ValidationResults {
  import opened Values
  import opened PathDescriptors
  import opened ValidationPaths

  datatype Invalid<G> =
    | Error(message: string, value: Value)
    | Warning(message: string, value: Value)
    | PathResult(path: PathDescriptor<G>, value: Value, errors: seq<Invalid<G>>)
    | AndResult(value: Value, errors: seq<Invalid<G>>)
    | OrResult(value: Value, errors: seq<Invalid<G>>)
  {
    /** A `SimpleInvalidResult`. */
    predicate IsLeaf()
    {
      Error? || Warning?
    }

    /** A `CompoundResult`. */
    predicate IsCompound()
    {
      !IsLeaf()
    }

    /** A `LogicalResult`. */
    predicate IsLogical()
    {
      AndResult? || OrResult?
    }

    function CombinationSign(): string
      requires IsCompound()
    {
      if PathResult? then "," else if AndResult? then "and" else "or"
    }
  }

  /** What `validate` returns: `Valid`, or the root of the failure tree. */
  datatype ValidationResult<G> = Valid(value: Value) | NotValid(root: Invalid<G>)

  /**
   * The shape every tree the engine builds has: a path result holds exactly
   * one child, an and/or result at least one, and never a child of its own
   * sign (those are spliced in by `addError`).
   */
  predicate WellFormed<G>(r: Invalid<G>)
  {
    match r
    case Error(_, _) => true
    case Warning(_, _) => true
    case PathResult(_, _, errors) => |errors| == 1 && WellFormed(errors[0])
    case AndResult(_, errors) =>
      |errors| >= 1 && forall k :: 0 <= k < |errors| ==> WellFormed(errors[k]) && !errors[k].AndResult?
    case OrResult(_, errors) =>
      |errors| >= 1 && forall k :: 0 <= k < |errors| ==> WellFormed(errors[k]) && !errors[k].OrResult?
  }

  // ---------------------------------------------------------------------
  // addError
  // ---------------------------------------------------------------------

  /** `PathResult.addError`: a second child is refused. */
  function PathAddError<G>(p: Invalid<G>, e: Invalid<G>): (r: Outcome<Invalid<G>>)
    requires p.PathResult?
  {
    if |p.errors| > 0 then Throw(IllegalState("Can not have more than 1 sub path!"))
    else Ok(p.(errors := [e]))
  }

  /** `LogicalResult.addError`: a result of the same sign is spliced in, anything else appended. */
  function LogicalAddError<G>(l: Invalid<G>, e: Invalid<G>): (r: Invalid<G>)
    requires l.IsLogical()
  {
    if e.IsLogical() && e.CombinationSign() == l.CombinationSign() then l.(errors := l.errors + e.errors)
    else l.(errors := l.errors + [e])
  }

  /** A path result accepts a child exactly when it has none, and then holds only that child. */
  lemma PathAddErrorAtMostOne<G>(p: Invalid<G>, e: Invalid<G>)
    requires p.PathResult?
    ensures PathAddError(p, e).Ok? <==> |p.errors| == 0
    ensures PathAddError(p, e).Ok? ==>
      (PathAddError(p, e).value.errors == [e]
      && PathAddError(p, e).value.path == p.path && PathAddError(p, e).value.value == p.value)
  {
  }

  /** Splicing keeps the node's sign and value and appends the added children in order. */
  lemma LogicalAddErrorChildren<G>(l: Invalid<G>, e: Invalid<G>)
    requires l.IsLogical()
    ensures LogicalAddError(l, e).IsLogical() && LogicalAddError(l, e).CombinationSign() == l.CombinationSign()
    ensures LogicalAddError(l, e).value == l.value
    ensures e.IsLogical() && e.CombinationSign() == l.CombinationSign() ==>
      LogicalAddError(l, e).errors == l.errors + e.errors
    ensures !(e.IsLogical() && e.CombinationSign() == l.CombinationSign()) ==>
      LogicalAddError(l, e).errors == l.errors + [e]
  {
  }

  /** Adding a well-formed result to a well-formed group keeps it well-formed: no same-sign nesting. */
  lemma LogicalAddErrorWellFormed<G>(l: Invalid<G>, e: Invalid<G>)
    requires l.IsLogical() && (WellFormed(l) || |l.errors| == 0)
    requires forall k :: 0 <= k < |l.errors| ==> WellFormed(l.errors[k])
    requires WellFormed(e)
    ensures WellFormed(LogicalAddError(l, e))
  {
    var r := LogicalAddError(l, e);
    if l.AndResult? {
      forall k | 0 <= k < |r.errors| ensures WellFormed(r.errors[k]) && !r.errors[k].AndResult? {
        if k >= |l.errors| && e.AndResult? {
          assert r.errors[k] == e.errors[k - |l.errors|];
        }
      }
    } else {
      forall k | 0 <= k < |r.errors| ensures WellFormed(r.errors[k]) && !r.errors[k].OrResult? {
        if k >= |l.errors| && e.OrResult? {
          assert r.errors[k] == e.errors[k - |l.errors|];
        }
      }
    }
  }

  // ---------------------------------------------------------------------
  // flatErrors
  // ---------------------------------------------------------------------

  /** `flatErrors`: the leaves of the tree, left to right. */
  function FlatErrors<G>(r: Invalid<G>): (leaves: seq<Invalid<G>>)
    ensures forall k :: 0 <= k < |leaves| ==> leaves[k].IsLeaf()
    decreases r, 1
  {
    if r.IsLeaf() then [r] else FlatErrorsOf(r.errors)
  }

  function FlatErrorsOf<G>(rs: seq<Invalid<G>>): (leaves: seq<Invalid<G>>)
    ensures forall k :: 0 <= k < |leaves| ==> leaves[k].IsLeaf()
    decreases rs, 0
  {
    if |rs| == 0 then [] else FlatErrors(rs[0]) + FlatErrorsOf(rs[1..])
  }

  lemma {:induction false} FlatErrorsOfConcat<G>(a: seq<Invalid<G>>, b: seq<Invalid<G>>)
    ensures FlatErrorsOf(a + b) == FlatErrorsOf(a) + FlatErrorsOf(b)
    decreases |a|
  {
    if |a| == 0 {
      assert a + b == b;
    } else {
      assert (a + b)[1..] == a[1..] + b;
      FlatErrorsOfConcat(a[1..], b);
    }
  }

  /** Splicing is invisible to `flatErrors`: the added leaves follow the existing ones. */
  lemma LogicalAddErrorFlatErrors<G>(l: Invalid<G>, e: Invalid<G>)
    requires l.IsLogical()
    ensures FlatErrors(LogicalAddError(l, e)) == FlatErrors(l) + FlatErrors(e)
  {
    if e.IsLogical() && e.CombinationSign() == l.CombinationSign() {
      FlatErrorsOfConcat(l.errors, e.errors);
    } else {
      FlatErrorsOfConcat(l.errors, [e]);
      assert FlatErrorsOf([e]) == FlatErrors(e) + FlatErrorsOf([]);
    }
  }

  /** A well-formed failure tree reports at least one leaf. */
  lemma {:induction false} WellFormedHasLeaves<G>(r: Invalid<G>)
    requires WellFormed(r)
    ensures |FlatErrors(r)| >= 1
    decreases r, 1
  {
    if r.IsCompound() {
      WellFormedHasLeaves(r.errors[0]);
      FlatErrorsOfConcat([r.errors[0]], r.errors[1..]);
      assert [r.errors[0]] + r.errors[1..] == r.errors;
    }
  }

  // ---------------------------------------------------------------------
  // message
  // ---------------------------------------------------------------------

  /** `message` (and `toString`): a compound with one child shows that child's message. */
  function Message<G>(r: Invalid<G>): string
    decreases r, 1
  {
    if r.IsLeaf() then r.message
    else if |r.errors| == 1 then Message(r.errors[0])
    else "(" + JoinMessages(r.errors, " " + r.CombinationSign() + " ") + ")"
  }

  function JoinMessages<G>(rs: seq<Invalid<G>>, separator: string): string
    decreases rs, 0
  {
    if |rs| == 0 then ""
    else if |rs| == 1 then Message(rs[0])
    else Message(rs[0]) + separator + JoinMessages(rs[1..], separator)
  }

  /** The message of a compound joins its children's messages with its sign, in parentheses. */
  lemma MessageOfCompound<G>(r: Invalid<G>, a: Invalid<G>, b: Invalid<G>)
    requires r.IsCompound() && r.errors == [a, b]
    ensures Message(r) == "(" + Message(a) + " " + r.CombinationSign() + " " + Message(b) + ")"
  {
    var separator := " " + r.CombinationSign() + " ";
    JoinTwo(a, b, separator);
    assert r.errors == [a, b];
    assert "(" + (Message(a) + separator + Message(b)) + ")"
        == "(" + Message(a) + " " + r.CombinationSign() + " " + Message(b) + ")";
  }

  lemma JoinTwo<G>(a: Invalid<G>, b: Invalid<G>, separator: string)
    ensures JoinMessages([a, b], separator) == Message(a) + separator + Message(b)
  {
    assert [a, b][1..] == [b];
  }

  // ---------------------------------------------------------------------
  // errorsAt
  // ---------------------------------------------------------------------

  /**
   * One step of an `errorsAt` query: a property or function reference (matched
   * by name and kind) or any other object (matched by equality with the map
   * key, the index or the custom identifier).
   */
  datatype Selector = PropertyRef(name: string) | FunctionRef(name: string) | Key(key: Value)

  /** `pathMatches` as written: a `This` step, reachable under a conditional, throws. */
  function PathMatchesAsWritten<G>(d: PathDescriptor<G>, s: Selector): Outcome<bool>
  {
    match d
    case This => Throw(IllegalState("Should not happen!"))
    case Property(name, _) => Ok(s.PropertyRef? && s.name == name)
    case Function(name, _) => Ok(s.FunctionRef? && s.name == name)
    case MapKey(key) => Ok(s == Key(key))
    case ArrayIndex(index) => Ok(s == Key(Int(index)))
    case IterableIndex(index) => Ok(s == Key(Int(index)))
    case Conditional(descriptor, _, _) => PathMatchesAsWritten(descriptor, s)
    case Custom(identifier, _) => Ok(s == Key(identifier))
  }

  /**
   * `errorsAt` as written. `PathResult` is transparent only for a bare
   * `This` descriptor; a conditional around `This` reaches `pathMatches`
   * and throws.
   */
  function ErrorsAtAsWritten<G>(r: Invalid<G>, query: seq<Selector>, includeSubErrors: bool): Outcome<seq<Invalid<G>>>
    requires WellFormed(r)
    decreases r, 1
  {
    if r.IsLeaf() then Ok(if |query| == 0 then [r] else [])
    else if r.PathResult? then
      if |query| == 0 && !includeSubErrors then Ok([])
      else if |query| == 0 then ErrorsAtAsWritten(r.errors[0], [], includeSubErrors)
      else if r.path.This? then ErrorsAtAsWritten(r.errors[0], query, includeSubErrors)
      else
        match PathMatchesAsWritten(r.path, query[0])
        case Throw(e) => Throw(e)
        case Ok(matches) =>
          if matches then ErrorsAtAsWritten(r.errors[0], query[1..], includeSubErrors) else Ok([])
    else ErrorsAtAsWrittenOf(r.errors, query, includeSubErrors)
  }

  function ErrorsAtAsWrittenOf<G>(rs: seq<Invalid<G>>, query: seq<Selector>, includeSubErrors: bool): Outcome<seq<Invalid<G>>>
    requires forall k :: 0 <= k < |rs| ==> WellFormed(rs[k])
    decreases rs, 0
  {
    if |rs| == 0 then Ok([])
    else
      match ErrorsAtAsWritten(rs[0], query, includeSubErrors)
      case Throw(e) => Throw(e)
      case Ok(first) =>
        match ErrorsAtAsWrittenOf(rs[1..], query, includeSubErrors)
        case Throw(e) => Throw(e)
        case Ok(rest) => Ok(first + rest)
  }

  /** `pathMatches` on a descriptor that is not `This` once unwrapped. */
  function PathMatches<G>(d: PathDescriptor<G>, s: Selector): bool
    requires !d.Unwrapped().This?
  {
    match d.Unwrapped()
    case Property(name, _) => s.PropertyRef? && s.name == name
    case Function(name, _) => s.FunctionRef? && s.name == name
    case MapKey(key) => s == Key(key)
    case ArrayIndex(index) => s == Key(Int(index))
    case IterableIndex(index) => s == Key(Int(index))
    case Custom(identifier, _) => s == Key(identifier)
  }

  /**
   * `errorsAt` with the transparency test applied to the unwrapped
   * descriptor, so that a conditional `This` step is transparent like `This`
   * and no query throws.
   */
  function ErrorsAt<G>(r: Invalid<G>, query: seq<Selector>, includeSubErrors: bool): seq<Invalid<G>>
    requires WellFormed(r)
    decreases r, 1
  {
    if r.IsLeaf() then (if |query| == 0 then [r] else [])
    else if r.PathResult? then
      if |query| == 0 && !includeSubErrors then []
      else if |query| == 0 then ErrorsAt(r.errors[0], [], includeSubErrors)
      else if r.path.Unwrapped().This? then ErrorsAt(r.errors[0], query, includeSubErrors)
      else if PathMatches(r.path, query[0]) then ErrorsAt(r.errors[0], query[1..], includeSubErrors)
      else []
    else ErrorsAtOf(r.errors, query, includeSubErrors)
  }

  function ErrorsAtOf<G>(rs: seq<Invalid<G>>, query: seq<Selector>, includeSubErrors: bool): seq<Invalid<G>>
    requires forall k :: 0 <= k < |rs| ==> WellFormed(rs[k])
    decreases rs, 0
  {
    if |rs| == 0 then [] else ErrorsAt(rs[0], query, includeSubErrors) + ErrorsAtOf(rs[1..], query, includeSubErrors)
  }

  /** No path result of the tree has a conditional descriptor around `This`. */
  predicate NoConditionalThis<G>(r: Invalid<G>)
  {
    match r
    case Error(_, _) => true
    case Warning(_, _) => true
    case PathResult(path, _, errors) =>
      (path.Conditional? ==> !path.Unwrapped().This?) && forall k :: 0 <= k < |errors| ==> NoConditionalThis(errors[k])
    case AndResult(_, errors) => forall k :: 0 <= k < |errors| ==> NoConditionalThis(errors[k])
    case OrResult(_, errors) => forall k :: 0 <= k < |errors| ==> NoConditionalThis(errors[k])
  }

  lemma PathMatchesAgrees<G>(d: PathDescriptor<G>, s: Selector)
    requires !d.Unwrapped().This?
    ensures PathMatchesAsWritten(d, s) == Ok(PathMatches(d, s))
  {
  }

  /** Where no conditional wraps `This`, the query as written and the corrected one agree. */
  lemma {:induction false} ErrorsAtAgrees<G>(r: Invalid<G>, query: seq<Selector>, includeSubErrors: bool)
    requires WellFormed(r) && NoConditionalThis(r)
    ensures ErrorsAtAsWritten(r, query, includeSubErrors) == Ok(ErrorsAt(r, query, includeSubErrors))
    decreases r, 1
  {
    if r.PathResult? {
      ErrorsAtAgrees(r.errors[0], [], includeSubErrors);
      ErrorsAtAgrees(r.errors[0], query, includeSubErrors);
      if |query| > 0 {
        ErrorsAtAgrees(r.errors[0], query[1..], includeSubErrors);
        if !r.path.Unwrapped().This? {
          PathMatchesAgrees(r.path, query[0]);
        }
      }
    } else if r.IsLogical() {
      ErrorsAtOfAgrees(r.errors, query, includeSubErrors);
    }
  }

  lemma {:induction false} ErrorsAtOfAgrees<G>(rs: seq<Invalid<G>>, query: seq<Selector>, includeSubErrors: bool)
    requires forall k :: 0 <= k < |rs| ==> WellFormed(rs[k]) && NoConditionalThis(rs[k])
    ensures ErrorsAtAsWrittenOf(rs, query, includeSubErrors) == Ok(ErrorsAtOf(rs, query, includeSubErrors))
    decreases rs, 0
  {
    if |rs| > 0 {
      ErrorsAtAgrees(rs[0], query, includeSubErrors);
      ErrorsAtOfAgrees(rs[1..], query, includeSubErrors);
    }
  }

  /** A failure under a guarded `This` step (as `validateIf` on `thisPath` builds): the query as written throws. */
  lemma ErrorsAtConditionalThisThrows<G>(guard: G, v: Value)
    ensures var r := PathResult(Conditional(This, guard, 0), v, [AndResult(v, [Error("e", v)])]);
      WellFormed(r) &&
      ErrorsAtAsWritten(r, [Key(Int(0))], false) == Throw(IllegalState("Should not happen!")) &&
      ErrorsAt(r, [Key(Int(0))], false) == [] &&
      ErrorsAt(r, [], true) == [Error("e", v)]
  {
    var leaf := Invalid<G>.Error("e", v);
    var group := AndResult(v, [leaf]);
    var r := PathResult(Conditional(This, guard, 0), v, [group]);
    assert WellFormed(group);
    assert WellFormed(r);
    assert ErrorsAtOf([leaf], [], true) == [leaf] + ErrorsAtOf<G>([], [], true);
    assert ErrorsAt(group, [], true) == [leaf];
    assert ErrorsAt(r, [], true) == [leaf];
    assert PathMatchesAsWritten(r.path, Key(Int(0))) == Throw(IllegalState("Should not happen!"));
    assert ErrorsAtOf([leaf], [Key(Int(0))], false) == [] + ErrorsAtOf<G>([], [Key(Int(0))], false);
    assert ErrorsAt(r, [Key(Int(0))], false) == ErrorsAt(group, [Key(Int(0))], false);
  }

  /** A leaf answers the empty query with itself and any other query with nothing. */
  lemma ErrorsAtLeaf<G>(r: Invalid<G>, query: seq<Selector>, includeSubErrors: bool)
    requires r.IsLeaf()
    ensures ErrorsAt(r, query, includeSubErrors) == (if |query| == 0 then FlatErrors(r) else [])
  {
  }

  /** The empty query with `includeSubErrors` returns every leaf: it is `flatErrors`. */
  lemma {:induction false} ErrorsAtEverything<G>(r: Invalid<G>)
    requires WellFormed(r)
    ensures ErrorsAt(r, [], true) == FlatErrors(r)
    decreases r, 1
  {
    if r.PathResult? {
      ErrorsAtEverything(r.errors[0]);
      assert FlatErrorsOf(r.errors) == FlatErrors(r.errors[0]) + FlatErrorsOf([]);
    } else if r.IsLogical() {
      ErrorsAtEverythingOf(r.errors);
    }
  }

  lemma {:induction false} ErrorsAtEverythingOf<G>(rs: seq<Invalid<G>>)
    requires forall k :: 0 <= k < |rs| ==> WellFormed(rs[k])
    ensures ErrorsAtOf(rs, [], true) == FlatErrorsOf(rs)
    decreases rs, 0
  {
    if |rs| > 0 {
      ErrorsAtEverything(rs[0]);
      ErrorsAtEverythingOf(rs[1..]);
    }
  }

  /** The empty query without `includeSubErrors` finds nothing under a path result. */
  lemma ErrorsAtEmptyQueryOnPath<G>(r: Invalid<G>)
    requires WellFormed(r) && r.PathResult?
    ensures ErrorsAt(r, [], false) == []
  {
  }

  /** Every error a query returns is one of the tree's leaves. */
  lemma {:induction false} ErrorsAtAreLeaves<G>(r: Invalid<G>, query: seq<Selector>, includeSubErrors: bool)
    requires WellFormed(r)
    ensures forall e :: e in ErrorsAt(r, query, includeSubErrors) ==> e in FlatErrors(r)
    decreases r, 1
  {
    if r.PathResult? {
      assert r.errors[1..] == [];
      assert FlatErrors(r) == FlatErrors(r.errors[0]) + FlatErrorsOf([]);
      ErrorsAtAreLeaves(r.errors[0], [], includeSubErrors);
      ErrorsAtAreLeaves(r.errors[0], query, includeSubErrors);
      if |query| > 0 {
        ErrorsAtAreLeaves(r.errors[0], query[1..], includeSubErrors);
      }
    } else if r.IsLogical() {
      ErrorsAtOfAreLeaves(r.errors, query, includeSubErrors);
    }
  }

  lemma {:induction false} ErrorsAtOfAreLeaves<G>(rs: seq<Invalid<G>>, query: seq<Selector>, includeSubErrors: bool)
    requires forall k :: 0 <= k < |rs| ==> WellFormed(rs[k])
    ensures forall e :: e in ErrorsAtOf(rs, query, includeSubErrors) ==> e in FlatErrorsOf(rs)
    decreases rs, 0
  {
    if |rs| > 0 {
      ErrorsAtAreLeaves(rs[0], query, includeSubErrors);
      ErrorsAtOfAreLeaves(rs[1..], query, includeSubErrors);
    }
  }

  /**
   * A matching first step descends into the child with the rest of the
   * query; a non-matching one yields nothing and never throws.
   */
  lemma ErrorsAtStep<G>(d: PathDescriptor<G>, v: Value, child: Invalid<G>, s: Selector, rest: seq<Selector>, includeSubErrors: bool)
    requires WellFormed(child) && !d.Unwrapped().This?
    ensures ErrorsAt(PathResult(d, v, [child]), [s] + rest, includeSubErrors)
      == if PathMatches(d, s) then ErrorsAt(child, rest, includeSubErrors) else []
  {
    assert ([s] + rest)[1..] == rest;
  }

  /** A property step is matched by a reference to a property of that name, and by nothing else. */
  lemma PropertyStepMatches<G>(name: string, getter: Value -> Value, s: Selector)
    ensures PathMatches(PathDescriptor<G>.Property(name, getter), s) <==> s == PropertyRef(name)
  {
  }

  /** An index step is matched by the index itself, whether the collection is an array or an iterable. */
  lemma IndexStepMatches<G>(i: int, s: Selector)
    ensures PathMatches(PathDescriptor<G>.IterableIndex(i), s) <==> s == Key(Int(i))
    ensures PathMatches(PathDescriptor<G>.ArrayIndex(i), s) <==> s == Key(Int(i))
  {
  }

  // ---------------------------------------------------------------------
  // print
  // ---------------------------------------------------------------------

  /** `print`: the tree as nested, tab-indented blocks. */
  function Print<G>(r: Invalid<G>): string
    requires WellFormed(r)
    decreases r, 1
  {
    if r.IsLeaf() then r.message
    else if r.PathResult? then
      if r.path.This? then Print(r.errors[0]) else r.path.Name() + ":\n" + Indented(Print(r.errors[0]))
    else if |r.errors| == 1 then Print(r.errors[0])
    else r.CombinationSign() + " {" + PrintChildren(r.errors) + "\n}"
  }

  /** The loop of `LogicalResult.print`: each child on a new line, indented. */
  function PrintChildren<G>(rs: seq<Invalid<G>>): string
    requires forall k :: 0 <= k < |rs| ==> WellFormed(rs[k])
    decreases rs, 0
  {
    if |rs| == 0 then "" else "\n" + Indented(Print(rs[0])) + PrintChildren(rs[1..])
  }

  /** A group with a single child prints as that child. */
  lemma PrintSingleChild<G>(r: Invalid<G>)
    requires WellFormed(r) && r.IsLogical() && |r.errors| == 1
    ensures Print(r) == Print(r.errors[0])
  {
  }

  /** A group with two children prints its sign, each child indented on its own lines, and a closing brace. */
  lemma PrintTwoChildren<G>(r: Invalid<G>, a: Invalid<G>, b: Invalid<G>)
    requires WellFormed(r) && r.IsLogical() && r.errors == [a, b]
    requires WellFormed(a) && WellFormed(b)
    ensures Print(r) == r.CombinationSign() + " {\n" + Indented(Print(a)) + "\n" + Indented(Print(b)) + "\n}"
  {
    var ia, ib := Indented(Print(a)), Indented(Print(b));
    var sign := r.CombinationSign();
    assert Print(r) == sign + " {" + PrintChildren(r.errors) + "\n}";
    PrintChildrenOfTwo(a, b);
    GroupLayout(sign, ia, ib);
  }

  lemma PrintChildrenOfTwo<G>(a: Invalid<G>, b: Invalid<G>)
    requires WellFormed(a) && WellFormed(b)
    ensures PrintChildren([a, b]) == "\n" + Indented(Print(a)) + ("\n" + Indented(Print(b)) + "")
  {
    assert [a, b][1..] == [b];
    assert [b][1..] == [];
    assert PrintChildren([b]) == "\n" + Indented(Print(b)) + PrintChildren([b][1..]);
  }

  lemma GroupLayout(sign: string, ia: string, ib: string)
    ensures sign + " {" + ("\n" + ia + ("\n" + ib + "")) + "\n}" == sign + " {\n" + ia + "\n" + ib + "\n}"
  {
    calc {
      sign + " {" + ("\n" + ia + ("\n" + ib + "")) + "\n}";
      sign + (" {" + "\n") + ia + "\n" + ib + "\n}";
      { assert " {" + "\n" == " {\n"; }
      sign + " {\n" + ia + "\n" + ib + "\n}";
    }
  }

  /**
   * A named path result prints its name and a colon on the first line,
   * followed by every line of its child, indented.
   */
  lemma PrintPathResultLines<G>(r: Invalid<G>)
    requires WellFormed(r) && r.PathResult? && !r.path.This? && '\n' !in r.path.Name()
    ensures var lines := Lines(Print(r));
      var childLines := Lines(Print(r.errors[0]));
      |lines| == |childLines| + 1 && lines[0] == r.path.Name() + ":" &&
      forall k :: 0 <= k < |childLines| ==> lines[k + 1] == "\t" + childLines[k]
  {
    var name := r.path.Name() + ":";
    var body := Indented(Print(r.errors[0]));
    IndentedLines(Print(r.errors[0]));
    assert '\n' !in name;
    assert Print(r) == name + ("\n" + body);
    LinesOfNewlineFree(name, "\n" + body);
    assert ("\n" + body)[1..] == body;
    assert Lines("\n" + body) == [""] + Lines(body);
  }

  /** A leaf prints as its message. */
  lemma PrintLeaf<G>(r: Invalid<G>)
    requires r.IsLeaf()
    ensures Print(r) == r.message && Message(r) == r.message
  {
  }

  // ---------------------------------------------------------------------
  // The result of a whole run
  // ---------------------------------------------------------------------

  /** `flatErrors` of a result: none when valid. */
  function ResultFlatErrors<G>(res: ValidationResult<G>): (leaves: seq<Invalid<G>>)
    ensures res.Valid? ==> leaves == []
    ensures res.NotValid? ==> leaves == FlatErrors(res.root)
  {
    if res.Valid? then [] else FlatErrors(res.root)
  }

  /** `errorsAt` of a result: nothing when valid, whatever the query. */
  function ResultErrorsAt<G>(res: ValidationResult<G>, query: seq<Selector>, includeSubErrors: bool): (errors: seq<Invalid<G>>)
    requires res.NotValid? ==> WellFormed(res.root)
    ensures res.Valid? ==> errors == []
    ensures forall e :: e in errors ==> e in ResultFlatErrors(res)
  {
    if res.Valid? then [] else ErrorsAtAreLeaves(res.root, query, includeSubErrors); ErrorsAt(res.root, query, includeSubErrors)
  }

  /** `print` of a result: "valid" when valid. */
  function ResultPrint<G>(res: ValidationResult<G>): (text: string)
    requires res.NotValid? ==> WellFormed(res.root)
    ensures res.Valid? ==> text == "valid"
  {
    if res.Valid? then "valid" else Print(res.root)
  }

  /** `Valid.equals`: two valid results are equal exactly when their values are. */
  lemma ValidEquality<G>(a: Value, b: Value)
    ensures ValidationResult<G>.Valid(a) == ValidationResult<G>.Valid(b) <==> a == b
  {
  }

  // ---------------------------------------------------------------------
  // dataPath
  // ---------------------------------------------------------------------

  /**
   * The `dataPath` segments of a compound node whose parent has the path
   * `parentSegs` (none for the root): the parent's segments, cleaned up
   * again, plus the node's own descriptor for a path result.
   */
  function NodeSegments<G>(r: Invalid<G>, parentSegs: Option<seq<PathDescriptor<G>>>): seq<PathDescriptor<G>>
    requires r.IsCompound()
  {
    var base := if parentSegs.None? then [] else CleanUp(parentSegs.value);
    if r.PathResult? then CleanUp(base + [r.path]) else base
  }

  /** Every leaf of `r`, in `flatErrors` order, paired with the segments of its `dataPath`. */
  function LeafPaths<G>(r: Invalid<G>, parentSegs: seq<PathDescriptor<G>>): seq<(Invalid<G>, seq<PathDescriptor<G>>)>
    decreases r, 1
  {
    if r.IsLeaf() then [(r, CleanUp(parentSegs))]
    else LeafPathsOf(r.errors, NodeSegments(r, Some(parentSegs)))
  }

  function LeafPathsOf<G>(rs: seq<Invalid<G>>, parentSegs: seq<PathDescriptor<G>>): seq<(Invalid<G>, seq<PathDescriptor<G>>)>
    decreases rs, 0
  {
    if |rs| == 0 then [] else LeafPaths(rs[0], parentSegs) + LeafPathsOf(rs[1..], parentSegs)
  }

  /** The leaves of a result tree with their data paths (the material of `groupedErrors`). */
  function ErrorPaths<G>(root: Invalid<G>): seq<(Invalid<G>, ValidationPath<G>)>
    requires root.IsCompound()
  {
    var pairs := LeafPathsOf(root.errors, NodeSegments(root, None));
    seq(|pairs|, k requires 0 <= k < |pairs| => (pairs[k].0, BasicPath(pairs[k].1)))
  }

  lemma {:induction false} LeafPathsAreFlatErrors<G>(r: Invalid<G>, parentSegs: seq<PathDescriptor<G>>)
    ensures |LeafPaths(r, parentSegs)| == |FlatErrors(r)|
    ensures forall k :: 0 <= k < |FlatErrors(r)| ==> LeafPaths(r, parentSegs)[k].0 == FlatErrors(r)[k]
    decreases r, 1
  {
    if r.IsCompound() {
      LeafPathsOfAreFlatErrors(r.errors, NodeSegments(r, Some(parentSegs)));
    }
  }

  lemma {:induction false} LeafPathsOfAreFlatErrors<G>(rs: seq<Invalid<G>>, parentSegs: seq<PathDescriptor<G>>)
    ensures |LeafPathsOf(rs, parentSegs)| == |FlatErrorsOf(rs)|
    ensures forall k :: 0 <= k < |FlatErrorsOf(rs)| ==> LeafPathsOf(rs, parentSegs)[k].0 == FlatErrorsOf(rs)[k]
    decreases rs, 0
  {
    if |rs| > 0 {
      LeafPathsAreFlatErrors(rs[0], parentSegs);
      LeafPathsOfAreFlatErrors(rs[1..], parentSegs);
    }
  }

  /** The leaves that carry a data path are exactly `flatErrors`, in order. */
  lemma ErrorPathsCoverFlatErrors<G>(root: Invalid<G>)
    requires root.IsCompound()
    ensures |ErrorPaths(root)| == |FlatErrors(root)|
    ensures forall k :: 0 <= k < |ErrorPaths(root)| ==> ErrorPaths(root)[k].0 == FlatErrors(root)[k]
  {
    LeafPathsOfAreFlatErrors(root.errors, NodeSegments(root, None));
  }

  /**
   * The first error of the nested example of the library's tests: a failed
   * length check on `name` directly under the root reports the path
   * "this.name".
   */
  lemma ErrorPathExample<G>(getter: Value -> Value, person: Value, name: Value)
    ensures var leaf := Error("must have at least 1 characters", name);
      var root := PathResult(PathDescriptor<G>.This, person, [AndResult(person, [PathResult(Property("name", getter), name, [AndResult(name, [leaf])])])]);
      |ErrorPaths(root)| == 1 && ErrorPaths(root)[0].0 == leaf && ErrorPaths(root)[0].1.ToString() == "this.name"
  {
    var leaf := Invalid<G>.Error("must have at least 1 characters", name);
    var d := PathDescriptor<G>.Property("name", getter);
    var inner := AndResult(name, [leaf]);
    var named := PathResult(d, name, [inner]);
    var group := AndResult(person, [named]);
    var root := PathResult(PathDescriptor<G>.This, person, [group]);
    assert [PathDescriptor<G>.This][..0] == [] && [d][..0] == [];
    assert CleanUp([PathDescriptor<G>.This]) == [];
    assert CleanUp([d]) == [d];
    assert NodeSegments(root, None) == [];
    assert NodeSegments(group, Some([])) == [];
    assert NodeSegments(named, Some([])) == [d] by {
      assert CleanUp<G>([]) + [d] == [d];
    }
    assert NodeSegments(inner, Some([d])) == [d];
    assert LeafPaths(leaf, [d]) == [(leaf, [d])];
    assert LeafPathsOf([leaf], [d]) == [(leaf, [d])];
    assert LeafPaths(inner, [d]) == [(leaf, [d])];
    assert LeafPathsOf([inner], [d]) == [(leaf, [d])];
    assert LeafPaths(named, []) == [(leaf, [d])];
    assert LeafPathsOf([named], []) == [(leaf, [d])];
    assert LeafPaths(group, []) == [(leaf, [d])];
    assert LeafPathsOf([group], []) == [(leaf, [d])];
    assert Render([d]) == "this.name";
  }
}
