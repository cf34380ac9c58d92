/**
 * The error paths of the older engine (ValidationErrors.kt): a path is the
 * cleaned-up list of segments from the root, rendered from "this"; an
 * error pairs a path with a message; `matches` compares a path with a query
 * of properties, functions, keys and indices.
 *
 * Construction runs the same cleanUp loop as ValidationPath.kt on a copy of
 * the list, so the cleaned list is `ValidationPaths.CleanUp`. The older
 * descriptor hierarchy has no custom descriptor: rendering and matching are
 * defined for paths without one.
 */
module LegacyErrors {
  import opened Values
  import opened PathDescriptors
  import ValidationPaths

  datatype LegacyPath<G> = LegacyPath(segments: seq<PathDescriptor<G>>)

  /** `ValidationPath(segments)`: the path over a cleaned-up copy of the list. */
  function NewLegacyPath<G>(segs: seq<PathDescriptor<G>>): LegacyPath<G>
  {
    LegacyPath(ValidationPaths.CleanUp(segs))
  }

  /** `EmptyValidationPath`: no segments. */
  function EmptyLegacyPath<G>(): LegacyPath<G>
  {
    LegacyPath([])
  }

  predicate NoCustom<G>(segs: seq<PathDescriptor<G>>)
  {
    forall i :: 0 <= i < |segs| ==> !segs[i].Unwrapped().Custom?
  }

  /**
   * After construction no segment is `This` or conditional, unless a
   * conditional wrapped one of those, and a list without them is kept as it
   * is.
   */
  lemma NewLegacyPathCleans<G>(segs: seq<PathDescriptor<G>>)
    ensures (forall i :: 0 <= i < |segs| ==> segs[i].Conditional? ==> !segs[i].descriptor.This? && !segs[i].descriptor.Conditional?)
      ==> forall j :: 0 <= j < |NewLegacyPath(segs).segments| ==>
            !NewLegacyPath(segs).segments[j].This? && !NewLegacyPath(segs).segments[j].Conditional?
    ensures (forall i :: 0 <= i < |segs| ==> !segs[i].This? && !segs[i].Conditional?)
      ==> NewLegacyPath(segs).segments == segs
  {
    if forall i :: 0 <= i < |segs| ==> segs[i].Conditional? ==> !segs[i].descriptor.This? && !segs[i].descriptor.Conditional? {
      ValidationPaths.CleanUpRemovesThisAndConditionals(segs);
    }
    if forall i :: 0 <= i < |segs| ==> !segs[i].This? && !segs[i].Conditional? {
      ValidationPaths.CleanUpKeepsPlainSegments(segs);
    }
  }

  // ---------------------------------------------------------------------
  // toString
  // ---------------------------------------------------------------------

  /** `combineSegments` of the older hierarchy. */
  function CombineSegments<G>(next: PathDescriptor<G>, previous: string): string
    requires !next.Unwrapped().Custom?
  {
    match next
    case Property(_, _) => previous + "." + next.Name()
    case Function(_, _) => previous + "." + next.Name()
    case This => previous
    case MapKey(_) => previous + next.Name()
    case ArrayIndex(_) => previous + next.Name()
    case IterableIndex(_) => previous + next.Name()
    case Conditional(descriptor, _, _) => CombineSegments(descriptor, previous)
  }

  /** `toString`: the segments folded into "this". */
  function Render<G>(segs: seq<PathDescriptor<G>>): string
    requires NoCustom(segs)
  {
    if |segs| == 0 then "this" else CombineSegments(segs[|segs| - 1], Render(segs[..|segs| - 1]))
  }

  lemma CombineSegmentsAgree<G>(d: PathDescriptor<G>, previous: string)
    requires !d.Unwrapped().Custom?
    ensures CombineSegments(d, previous) == ValidationPaths.CombineSegments(d, previous)
  {
    if d.Conditional? {
      CombineSegmentsAgree(d.descriptor, previous);
    }
  }

  /**
   * The older rendering is the current one on every path without a custom
   * segment: "this", then ".name" for properties and functions and "[..]"
   * for keys and indices.
   */
  lemma {:induction false} RenderAgrees<G>(segs: seq<PathDescriptor<G>>)
    requires NoCustom(segs)
    ensures Render(segs) == ValidationPaths.Render(segs)
    decreases |segs|
  {
    if |segs| > 0 {
      RenderAgrees(segs[..|segs| - 1]);
      CombineSegmentsAgree(segs[|segs| - 1], Render(segs[..|segs| - 1]));
    }
  }

  /** Unlike the current empty path, the older one renders as "this". */
  lemma EmptyRendersThis<G>()
    ensures Render(EmptyLegacyPath<G>().segments) == "this"
    ensures ValidationPaths.ValidationPath<G>.EmptyPath.ToString() == "empty"
  {
  }

  // ---------------------------------------------------------------------
  // equals
  // ---------------------------------------------------------------------

  /**
   * `a.equals(b)`: the sizes first, then the segments in order, returning
   * false at the first pair that differs. Each pair is compared with
   * `b`'s segment on the left (`other != this`), so the result is segment
   * equality of `b` against `a`.
   */
  method PathEquals<G>(a: LegacyPath<G>, b: LegacyPath<G>) returns (equal: bool)
    ensures equal <==> ValidationPaths.SegmentsEqual(b.segments, a.segments)
  {
    if |a.segments| != |b.segments| {
      return false;
    }
    var i := 0;
    while i < |a.segments|
      invariant 0 <= i <= |a.segments|
      invariant forall k :: 0 <= k < i ==> b.segments[k].Equals(a.segments[k])
    {
      if !b.segments[i].Equals(a.segments[i]) {
        return false;
      }
      i := i + 1;
    }
    equal := true;
  }

  // ---------------------------------------------------------------------
  // matches
  // ---------------------------------------------------------------------

  /** An element of the query: a property, a function, or any other object (a key or an index). */
  datatype QueryItem = PropertyRef(name: string) | FunctionRef(name: string) | Other(item: Value)

  function QueryIdentifier(q: QueryItem): Value
  {
    match q
    case PropertyRef(name) => Str("prop:" + name)
    case FunctionRef(name) => Str("func:" + name)
    case Other(item) => item
  }

  /** The identifier of a path segment; `This` and conditional segments "should not happen". */
  function SegmentIdentifier<G>(d: PathDescriptor<G>): Outcome<Value>
    requires !d.Custom?
  {
    match d
    case Property(name, _) => Ok(Str("prop:" + name))
    case Function(name, _) => Ok(Str("func:" + name))
    case MapKey(key) => Ok(key)
    case ArrayIndex(index) => Ok(Int(index))
    case IterableIndex(index) => Ok(Int(index))
    case _ => Throw(IllegalState("Should not happen!"))
  }

  predicate NoCustomSegment<G>(segs: seq<PathDescriptor<G>>)
  {
    forall i :: 0 <= i < |segs| ==> !segs[i].Custom?
  }

  /** The outcome of `matches` from query position `i` on. */
  function MatchesFrom<G>(segs: seq<PathDescriptor<G>>, query: seq<QueryItem>, i: nat): Outcome<bool>
    requires NoCustomSegment(segs) && i <= |query|
    decreases |query| - i
  {
    if i == |query| then Ok(true)
    else if i >= |segs| then Throw(IndexOutOfBounds)
    else
      match SegmentIdentifier(segs[i])
      case Throw(e) => Throw(e)
      case Ok(id) => if id != QueryIdentifier(query[i]) then Ok(false) else MatchesFrom(segs, query, i + 1)
  }

  /**
   * `matches`: the query is walked in order; the segment at each position
   * is read (past the end of the path that throws), identified, and a
   * mismatch returns false at once.
   */
  method Matches<G>(path: LegacyPath<G>, query: seq<QueryItem>) returns (r: Outcome<bool>)
    requires NoCustomSegment(path.segments)
    ensures r == MatchesFrom(path.segments, query, 0)
  {
    var i := 0;
    while i < |query|
      invariant 0 <= i <= |query|
      invariant MatchesFrom(path.segments, query, 0) == MatchesFrom(path.segments, query, i)
    {
      var wanted := QueryIdentifier(query[i]);
      if i >= |path.segments| {
        return Throw(IndexOutOfBounds);
      }
      var actual := SegmentIdentifier(path.segments[i]);
      if actual.Throw? {
        return Throw(actual.exception);
      }
      if actual.value != wanted {
        return Ok(false);
      }
      i := i + 1;
    }
    r := Ok(true);
  }

  /**
   * A query matches exactly when it is no longer than the path and each of
   * its items names the segment at its position.
   */
  lemma {:induction false} MatchesIff<G>(segs: seq<PathDescriptor<G>>, query: seq<QueryItem>, i: nat)
    requires NoCustomSegment(segs) && i <= |query| && i <= |segs|
    ensures MatchesFrom(segs, query, i) == Ok(true) <==>
      |query| <= |segs| && forall k :: i <= k < |query| ==> SegmentIdentifier(segs[k]) == Ok(QueryIdentifier(query[k]))
    decreases |query| - i
  {
    if i < |query| && i < |segs| {
      MatchesIff(segs, query, i + 1);
    }
  }

  // ---------------------------------------------------------------------
  // Errors
  // ---------------------------------------------------------------------

  /** `BasicValidationError`: a path and a message. */
  datatype LegacyError<G> = LegacyError(path: LegacyPath<G>, message: string)
  {
    /** `dataPath`: the rendered path. */
    function DataPath(): string
      requires NoCustom(path.segments)
    {
      Render(path.segments)
    }

    /** `toString`. */
    function ToString(): string
      requires NoCustom(path.segments)
    {
      "ValidationError(dataPath=" + DataPath() + ", message=" + message + ")"
    }
  }

  /** The data path of an error is the current rendering of its path, starting with "this". */
  lemma DataPathIsRendering<G>(e: LegacyError<G>)
    requires NoCustom(e.path.segments)
    ensures e.DataPath() == ValidationPaths.Render(e.path.segments)
    ensures |e.DataPath()| >= 4 && e.DataPath()[..4] == "this"
  {
    RenderAgrees(e.path.segments);
    ValidationPaths.RenderStartsWithThis(e.path.segments);
  }
}
