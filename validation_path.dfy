/**
 * Rendered paths from the validated root to a reported value
 * (ValidationPath.kt): construction cleans the segment list up, `toString`
 * folds the segments into "this.a[0].b", and equality compares segments.
 */
module ValidationPaths {
  import opened Values
  import opened PathDescriptors

  datatype ValidationPath<G> =
    | BasicPath(segs: seq<PathDescriptor<G>>)
    | EmptyPath
  {
    /** `segments`: the empty path has none. */
    function Segments(): seq<PathDescriptor<G>>
    {
      if BasicPath? then segs else []
    }

    /** `toString`. */
    function ToString(): string
    {
      if EmptyPath? then "empty" else Render(segs)
    }

    /** `equals`: same number of segments, pairwise equal (`contentEquals`). */
    predicate Equals(other: ValidationPath<G>)
    {
      SegmentsEqual(Segments(), other.Segments())
    }
  }

  predicate SegmentsEqual<G>(a: seq<PathDescriptor<G>>, b: seq<PathDescriptor<G>>)
  {
    |a| == |b| && forall i :: 0 <= i < |a| ==> a[i].Equals(b[i])
  }

  // ---------------------------------------------------------------------
  // Construction and cleanUp
  // ---------------------------------------------------------------------

  /** A conditional segment replaced by the descriptor it wraps. */
  function UnwrapOnce<G>(d: PathDescriptor<G>): PathDescriptor<G>
  {
    if d.Conditional? then d.descriptor else d
  }

  /** What cleanUp leaves of one segment: `This` is removed, a conditional unwrapped once. */
  function CleanSegment<G>(d: PathDescriptor<G>): seq<PathDescriptor<G>>
  {
    if d.This? then [] else if d.Conditional? then [d.descriptor] else [d]
  }

  /** The segment list after cleanUp. */
  function CleanUp<G>(segs: seq<PathDescriptor<G>>): seq<PathDescriptor<G>>
  {
    if |segs| == 0 then [] else CleanUp(segs[..|segs| - 1]) + CleanSegment(segs[|segs| - 1])
  }

  /** `BasicValidationPath(list)`: the path over the cleaned-up list. */
  function NewBasicPath<G>(segs: seq<PathDescriptor<G>>): (p: ValidationPath<G>)
    ensures p.BasicPath? && p.segs == CleanUp(segs)
  {
    BasicPath(CleanUp(segs))
  }

  /**
   * cleanUp as written: a list iterator walks the list, removing a `This`
   * segment (the iterator does not advance past the removed element) and
   * replacing a conditional segment by the descriptor it wraps.
   */
  method CleanUpList<G>(segs: seq<PathDescriptor<G>>) returns (list: seq<PathDescriptor<G>>)
    ensures list == CleanUp(segs)
  {
    list := segs;
    var cursor := 0;
    ghost var consumed := 0;
    ghost var done: seq<PathDescriptor<G>> := [];
    assert segs[..0] == [];
    while cursor < |list|
      invariant 0 <= consumed <= |segs|
      invariant done == CleanUp(segs[..consumed])
      invariant cursor == |done|
      invariant list == done + segs[consumed..]
      decreases |list| - cursor
    {
      ghost var rest := segs[consumed + 1..];
      assert segs[consumed..] == [segs[consumed]] + rest;
      assert list == done + [segs[consumed]] + rest;
      CleanUpStep(segs, consumed);
      CursorStep(list, done, segs[consumed], rest);
      if list[cursor].This? {
        list := RemoveAt(list, cursor);
      } else if list[cursor].Conditional? {
        list := list[cursor := list[cursor].descriptor];
        cursor := cursor + 1;
      } else {
        cursor := cursor + 1;
      }
      done := done + CleanSegment(segs[consumed]);
      consumed := consumed + 1;
    }
    assert segs[..consumed] == segs;
  }

  /** `iterator.remove()` on the element at `i`. */
  function RemoveAt<T>(list: seq<T>, i: nat): (r: seq<T>)
    requires i < |list|
    ensures r == list[..i] + list[i + 1..]
  {
    list[..i] + list[i + 1..]
  }

  /** One iterator step on `done + [d] + rest` with the cursor at `d` leaves `done + CleanSegment(d) + rest`. */
  lemma CursorStep<G>(list: seq<PathDescriptor<G>>, done: seq<PathDescriptor<G>>, d: PathDescriptor<G>, rest: seq<PathDescriptor<G>>)
    requires list == done + [d] + rest
    ensures |done| < |list| && list[|done|] == d
    ensures d.This? ==> RemoveAt(list, |done|) == done + CleanSegment(d) + rest
    ensures d.Conditional? ==> list[|done| := d.descriptor] == done + CleanSegment(d) + rest
    ensures !d.This? && !d.Conditional? ==> list == done + CleanSegment(d) + rest
  {
    if d.This? {
      assert list[..|done|] == done && list[|done| + 1..] == rest;
    }
  }

  lemma CleanUpStep<G>(segs: seq<PathDescriptor<G>>, k: nat)
    requires k < |segs|
    ensures CleanUp(segs[..k + 1]) == CleanUp(segs[..k]) + CleanSegment(segs[k])
  {
    assert segs[..k + 1][..k] == segs[..k];
  }

  /** cleanUp works segment by segment and keeps their order. */
  lemma {:induction false} CleanUpConcat<G>(a: seq<PathDescriptor<G>>, b: seq<PathDescriptor<G>>)
    ensures CleanUp(a + b) == CleanUp(a) + CleanUp(b)
    decreases |b|
  {
    if |b| == 0 {
      assert a + b == a;
    } else {
      var b' := b[..|b| - 1];
      assert (a + b)[..|a + b| - 1] == a + b';
      CleanUpConcat(a, b');
    }
  }

  /** A list without `This` and conditional segments is left as it is. */
  lemma {:induction false} CleanUpKeepsPlainSegments<G>(segs: seq<PathDescriptor<G>>)
    requires forall i :: 0 <= i < |segs| ==> !segs[i].This? && !segs[i].Conditional?
    ensures CleanUp(segs) == segs
    decreases |segs|
  {
    if |segs| > 0 {
      CleanUpKeepsPlainSegments(segs[..|segs| - 1]);
    }
  }

  /**
   * After cleanUp no segment is `This` or conditional, unless the list held a
   * conditional wrapping one of those (cleanUp unwraps only one level).
   */
  lemma {:induction false} CleanUpRemovesThisAndConditionals<G>(segs: seq<PathDescriptor<G>>)
    requires forall i :: 0 <= i < |segs| ==>
      segs[i].Conditional? ==> !segs[i].descriptor.This? && !segs[i].descriptor.Conditional?
    ensures forall j :: 0 <= j < |CleanUp(segs)| ==>
      !CleanUp(segs)[j].This? && !CleanUp(segs)[j].Conditional?
    decreases |segs|
  {
    if |segs| > 0 {
      CleanUpRemovesThisAndConditionals(segs[..|segs| - 1]);
    }
  }

  /** Every segment after cleanUp is a segment of the list, unwrapped at most once. */
  lemma {:induction false} CleanUpSegmentsComeFromList<G>(segs: seq<PathDescriptor<G>>)
    ensures |CleanUp(segs)| <= |segs|
    ensures forall j :: 0 <= j < |CleanUp(segs)| ==>
      (exists i :: 0 <= i < |segs| && !segs[i].This? && CleanUp(segs)[j] == UnwrapOnce(segs[i]))
    decreases |segs|
  {
    if |segs| > 0 {
      var prefix := segs[..|segs| - 1];
      CleanUpSegmentsComeFromList(prefix);
      forall j | 0 <= j < |CleanUp(segs)|
        ensures exists i :: (0 <= i < |segs| && !segs[i].This? && CleanUp(segs)[j] == UnwrapOnce(segs[i]))
      {
        if j < |CleanUp(prefix)| {
          var i :| 0 <= i < |prefix| && !prefix[i].This? && CleanUp(prefix)[j] == UnwrapOnce(prefix[i]);
          assert segs[i] == prefix[i];
        } else {
          assert !segs[|segs| - 1].This?;
        }
      }
    }
  }

  // ---------------------------------------------------------------------
  // toString
  // ---------------------------------------------------------------------

  /** `combineSegments`: the text one segment adds to the path rendered so far. */
  function CombineSegments<G>(next: PathDescriptor<G>, previous: string): string
  {
    match next
    case Property(_, _) => previous + "." + next.Name()
    case Function(_, _) => previous + "." + next.Name()
    case This => previous
    case MapKey(_) => previous + next.Name()
    case ArrayIndex(_) => previous + next.Name()
    case IterableIndex(_) => previous + next.Name()
    case Conditional(descriptor, _, _) => CombineSegments(descriptor, previous)
    case Custom(_, _) => previous + ".`" + next.Name() + "`"
  }

  /** The fold of `toString`, starting from "this". */
  function Render<G>(segs: seq<PathDescriptor<G>>): string
  {
    if |segs| == 0 then "this" else CombineSegments(segs[|segs| - 1], Render(segs[..|segs| - 1]))
  }

  /** The text a segment contributes, independent of what precedes it. */
  function SegmentText<G>(d: PathDescriptor<G>): string
  {
    CombineSegments(d, "")
  }

  lemma CombineSegmentsAppends<G>(d: PathDescriptor<G>, previous: string)
    ensures CombineSegments(d, previous) == previous + SegmentText(d)
  {
    match d
    case Conditional(inner, _, _) => CombineSegmentsAppends(inner, previous);
    case This =>
      assert previous + "" == previous;
    case Property(_, _) =>
      assert SegmentText(d) == "." + d.Name();
    case Function(_, _) =>
      assert SegmentText(d) == "." + d.Name();
    case MapKey(_) =>
      assert SegmentText(d) == d.Name();
    case ArrayIndex(_) =>
      assert SegmentText(d) == d.Name();
    case IterableIndex(_) =>
      assert SegmentText(d) == d.Name();
    case Custom(_, _) =>
      assert SegmentText(d) == ".`" + d.Name() + "`";
      assert previous + ".`" + d.Name() + "`" == previous + (".`" + d.Name() + "`");
  }

  /** The rendering of `segs` is "this" followed by the texts of the segments in order. */
  lemma {:induction false} RenderIsThisPlusSegments<G>(a: seq<PathDescriptor<G>>, b: seq<PathDescriptor<G>>)
    ensures Render(a + b) == Render(a) + RenderTail(b)
    decreases |b|
  {
    if |b| == 0 {
      assert a + b == a;
    } else {
      var b' := b[..|b| - 1];
      assert (a + b)[..|a + b| - 1] == a + b';
      RenderIsThisPlusSegments(a, b');
      CombineSegmentsAppends(b[|b| - 1], Render(a + b'));
      CombineSegmentsAppends(b[|b| - 1], RenderTail(b'));
    }
  }

  /** The segment texts of `segs`, concatenated. */
  function RenderTail<G>(segs: seq<PathDescriptor<G>>): string
  {
    if |segs| == 0 then "" else CombineSegments(segs[|segs| - 1], RenderTail(segs[..|segs| - 1]))
  }

  /** Every rendered basic path starts with "this". */
  lemma RenderStartsWithThis<G>(segs: seq<PathDescriptor<G>>)
    ensures StartsWith(Render(segs), "this")
  {
    RenderIsThisPlusSegments([], segs);
    assert [] + segs == segs;
  }

  /** Rendering a path extended by one segment combines that segment with the rendering so far. */
  lemma RenderAppend<G>(segs: seq<PathDescriptor<G>>, d: PathDescriptor<G>)
    ensures Render(segs + [d]) == CombineSegments(d, Render(segs))
  {
    assert (segs + [d])[..|segs|] == segs;
  }

  /** The first element of the addresses list in the nested example of the library's tests. */
  lemma RenderFirstAddress<G>(getter: Value -> Value)
    ensures Render([PathDescriptor<G>.Property("addresses", getter), IterableIndex(0)]) == "this.addresses[0]"
  {
    var s1 := [PathDescriptor<G>.Property("addresses", getter)];
    RenderAppend([], s1[0]);
    assert [] + s1 == s1;
    RenderAppend(s1, IterableIndex(0));
    assert IntToString(0) == "0";
  }

  /** The address of the postal code in the nested example of the library's tests. */
  lemma RenderNestedExample<G>(getter: Value -> Value)
    ensures Render([PathDescriptor<G>.Property("addresses", getter), IterableIndex(0),
      Property("city", getter), Property("postalCode", getter)])
      == "this.addresses[0].city.postalCode"
  {
    var s2 := [PathDescriptor<G>.Property("addresses", getter), IterableIndex(0)];
    RenderFirstAddress<G>(getter);
    var s3 := s2 + [Property("city", getter)];
    RenderAppend(s2, Property("city", getter));
    RenderAppend(s3, Property("postalCode", getter));
    assert s3 + [Property("postalCode", getter)] == [PathDescriptor<G>.Property("addresses", getter), IterableIndex(0),
      Property("city", getter), Property("postalCode", getter)];
  }

  /** A custom segment is set off by back-quotes, map keys and indices directly. */
  lemma SegmentTexts<G>(name: string, getter: Value -> Value, identifier: Value, key: Value, i: int)
    ensures SegmentText(PathDescriptor<G>.Property(name, getter)) == "." + name
    ensures SegmentText(PathDescriptor<G>.Function(name, getter)) == "." + name
    ensures SegmentText(PathDescriptor<G>.Custom(identifier, getter)) == ".`" + ToString(identifier) + "`"
    ensures SegmentText(PathDescriptor<G>.MapKey(key)) == "[" + ToString(key) + "]"
    ensures SegmentText(PathDescriptor<G>.IterableIndex(i)) == "[" + IntToString(i) + "]"
    ensures SegmentText(PathDescriptor<G>.This) == ""
  {
  }

  // ---------------------------------------------------------------------
  // Equality and the empty path
  // ---------------------------------------------------------------------

  /** The empty path has no segments, renders as "empty", and equals the cleaned path of `This`. */
  lemma EmptyPathFacts<G>()
    ensures ValidationPath<G>.EmptyPath.Segments() == []
    ensures ValidationPath<G>.EmptyPath.ToString() == "empty"
    ensures ValidationPath<G>.EmptyPath.Equals(NewBasicPath([This]))
    ensures NewBasicPath<G>([This]).ToString() == "this"
  {
    assert [PathDescriptor<G>.This][..0] == [];
  }

  /** Path equality is segment-wise descriptor equality, so "[i]" of an array equals "[i]" of an iterable. */
  lemma PathEqualsSegmentwise<G>(a: seq<PathDescriptor<G>>, i: int)
    ensures BasicPath(a + [ArrayIndex(i)]).Equals(BasicPath(a + [IterableIndex(i)]))
  {
    var p, q := a + [PathDescriptor<G>.ArrayIndex(i)], a + [PathDescriptor<G>.IterableIndex(i)];
    forall k | 0 <= k < |p| ensures p[k].Equals(q[k]) {
      if k < |a| {
        EqualsReflexive(a[k]);
      }
    }
  }

  /** Paths of different lengths are never equal. */
  lemma PathsOfDifferentLength<G>(a: ValidationPath<G>, b: ValidationPath<G>)
    requires |a.Segments()| != |b.Segments()|
    ensures !a.Equals(b)
  {
  }
}
