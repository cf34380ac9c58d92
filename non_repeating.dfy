/**
 * The context-based cycle guard of kModel/NonRepeatingContext.kt: a
 * validation context that remembers every object it has been asked about,
 * and the `noRepeat` constraint that consults it.
 *
 * The constraint's test finds the context either directly or as the
 * `wrapped` context of a wrapping context (one level only); without one it
 * passes. The basic and wrapping context classes are not part of this
 * model beyond that lookup: `Context` records only which of the three shapes
 * the test is given.
 */
module NonRepeatingContexts {
  import opened Values

  /** The message the `noRepeat` constraint is registered with. */
  const NoRepeatMessage: string := "object was already validated!"

  /** `NonRepeatingContext`: a context holding the set of visited objects. */
  class NonRepeatingContext {
    var visited: set<Value>

    constructor()
      ensures visited == {}
    {
      visited := {};
    }

    /**
     * `addVisitedObject` (`MutableSet.add`): `x` joins the visited set, and
     * the answer is whether it was new.
     */
    method AddVisitedObject(x: Value) returns (added: bool)
      modifies this
      ensures added <==> x !in old(visited)
      ensures visited == old(visited) + {x}
    {
      added := x !in visited;
      visited := visited + {x};
    }
  }

  /** The context a constraint test receives, as far as the lookup can tell. */
  datatype Context =
    | Plain
    | NonRepeating(context: NonRepeatingContext)
    | Wrapping(wrapped: Context)

  /** The `when` of the `noRepeat` constraint: the context itself, or the one a wrapper wraps directly. */
  function Lookup(ctx: Context): (r: Option<NonRepeatingContext>)
    ensures r.Some? <==> ctx.NonRepeating? || (ctx.Wrapping? && ctx.wrapped.NonRepeating?)
    ensures ctx.NonRepeating? ==> r == Some(ctx.context)
    ensures ctx.Wrapping? && ctx.wrapped.NonRepeating? ==> r == Some(ctx.wrapped.context)
  {
    match ctx
    case NonRepeating(c) => Some(c)
    case Wrapping(NonRepeating(c)) => Some(c)
    case _ => None
  }

  /** The frame of the test: the context the lookup finds, if any. */
  function Found(ctx: Context): set<NonRepeatingContext>
  {
    match Lookup(ctx)
    case Some(c) => {c}
    case None => {}
  }

  /**
   * The test of the `noRepeat` constraint: without a reachable
   * non-repeating context it passes and changes nothing; otherwise it
   * records `x` and passes exactly when `x` had not been seen before.
   */
  method NoRepeatTest(x: Value, ctx: Context) returns (pass: bool)
    modifies Found(ctx)
    ensures Lookup(ctx).None? ==> pass
    ensures Lookup(ctx).Some? ==>
      var c := Lookup(ctx).value;
      (pass <==> x !in old(c.visited)) && c.visited == old(c.visited) + {x}
  {
    match Lookup(ctx)
    case None =>
      pass := true;
    case Some(c) =>
      pass := c.AddVisitedObject(x);
  }

  /**
   * The guard in use: the first test of an object in a non-repeating
   * context (reached directly or through one wrapper) passes, a second test
   * of the same object in the same context fails, and a test in any other
   * context passes.
   */
  method RepeatFails(x: Value, ctx: Context) returns (first: bool, second: bool)
    modifies Found(ctx)
    ensures Lookup(ctx).Some? ==> (first <==> x !in old(Lookup(ctx).value.visited)) && !second
    ensures Lookup(ctx).None? ==> first && second
  {
    first := NoRepeatTest(x, ctx);
    second := NoRepeatTest(x, ctx);
  }
}
