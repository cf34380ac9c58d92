/**
 * The per-run context of Validation.kt: a stack of open result groups above
 * a root `PathResult(This)`, and a key/value map. The map is an object of
 * its own because the context a conditional guard runs on shares it with
 * the context it was made from.
 */
module ValidationContexts {
  import opened Values
  import opened PathDescriptors
  import opened ValidationResults
  import opened Validations

  /** The mutable map a context delegates its `MutableMap` interface to. */
  class PropertyMap {
    var entries: Props

    constructor(entries: Props)
      ensures this.entries == entries
    {
      this.entries := entries;
    }
  }

  /**
   * Adding `e` to the current node `cur`, as `addInvalidResult` does: a path
   * result takes one compound child and refuses a leaf; a logical result
   * takes anything, splicing a result of its own sign.
   */
  function Attach(cur: Node, e: Node): (r: Outcome<Node>)
    requires cur.IsCompound()
    ensures r.Ok? ==> r.value.IsCompound() && r.value.value == cur.value
    ensures r.Ok? && cur.PathResult? ==> r.value == cur.(errors := [e])
    ensures cur.PathResult? ==> (r.Ok? <==> e.IsCompound() && |cur.errors| == 0)
    ensures cur.IsLogical() ==> r == Ok(LogicalAddError(cur, e))
  {
    if cur.PathResult? then
      if e.IsCompound() then PathAddError(cur, e) else Throw(IllegalState("Can only add path results currently!"))
    else Ok(LogicalAddError(cur, e))
  }

  class ValidationContext {
    var root: Node
    var stack: seq<Node>
    const properties: PropertyMap

    /** The root is a path result and every open group is a compound result. */
    predicate Valid()
      reads this
    {
      root.PathResult? && forall k :: 0 <= k < |stack| ==> stack[k].IsCompound()
    }

    /** A new context for `aValue`: an empty stack above the root `PathResult(This, aValue)`. */
    constructor(aValue: Value, properties: PropertyMap)
      ensures Valid()
      ensures root == PathResult(This, aValue, []) && stack == []
      ensures this.properties == properties
    {
      root := PathResult(This, aValue, []);
      stack := [];
      this.properties := properties;
    }

    /** `currentNode`: the top of the stack, or the root when the stack is empty. */
    function Current(): (n: Node)
      reads this
      requires Valid()
      ensures n.IsCompound()
      ensures |stack| == 0 ==> n == root
      ensures |stack| > 0 ==> n == stack[|stack| - 1]
    {
      if |stack| == 0 then root else stack[|stack| - 1]
    }

    /** The stack and root are those of `oldStack`/`oldRoot` with the current node replaced by `n`. */
    ghost predicate CurrentReplaced(oldStack: seq<Node>, oldRoot: Node, n: Node)
      reads this
    {
      if |oldStack| == 0 then stack == [] && root == n
      else stack == oldStack[..|oldStack| - 1] + [n] && root == oldRoot
    }

    /** `push`: the new group goes on top of the stack. */
    method Push(group: Node)
      requires Valid() && group.IsCompound()
      modifies this
      ensures Valid()
      ensures stack == old(stack) + [group] && root == old(root)
      ensures Current() == group
    {
      stack := stack + [group];
    }

    /** `pop`: the top group is discarded; on an empty stack `removeAt(-1)` throws. */
    method Pop() returns (c: Completion)
      requires Valid()
      modifies this
      ensures Valid() && root == old(root)
      ensures |old(stack)| == 0 ==> c == Abrupt(IndexOutOfBounds) && stack == old(stack)
      ensures |old(stack)| > 0 ==> c == Normal && stack == old(stack)[..|old(stack)| - 1]
    {
      if |stack| == 0 {
        return Abrupt(IndexOutOfBounds);
      }
      stack := stack[..|stack| - 1];
      c := Normal;
    }

    /** `addInvalidResult`: `e` is added to the current node, which is replaced by the result. */
    method AddInvalidResult(e: Node) returns (c: Completion)
      requires Valid()
      modifies this
      ensures Valid()
      ensures Attach(old(Current()), e).Throw? ==>
        c == Abrupt(Attach(old(Current()), e).exception) && stack == old(stack) && root == old(root)
      ensures Attach(old(Current()), e).Ok? ==>
        c == Normal && CurrentReplaced(old(stack), old(root), Attach(old(Current()), e).value)
    {
      var added := Attach(Current(), e);
      if added.Throw? {
        return Abrupt(added.exception);
      }
      if |stack| == 0 {
        root := added.value;
      } else {
        stack := stack[..|stack| - 1] + [added.value];
      }
      c := Normal;
    }

    /** `popAndAddToParent`: the top group is removed and added to the node below it. */
    method PopAndAddToParent() returns (c: Completion)
      requires Valid()
      modifies this
      ensures Valid()
      ensures |old(stack)| == 0 ==> c == Abrupt(IndexOutOfBounds) && stack == old(stack) && root == old(root)
      ensures |old(stack)| > 0 ==>
        var top, rest := old(stack)[|old(stack)| - 1], old(stack)[..|old(stack)| - 1];
        var parent := if |rest| == 0 then old(root) else rest[|rest| - 1];
        (Attach(parent, top).Throw? ==> c == Abrupt(Attach(parent, top).exception))
        && (Attach(parent, top).Ok? ==> c == Normal && CurrentReplaced(rest, old(root), Attach(parent, top).value))
    {
      if |stack| == 0 {
        return Abrupt(IndexOutOfBounds);
      }
      var top := stack[|stack| - 1];
      stack := stack[..|stack| - 1];
      c := AddInvalidResult(top);
    }

    /** `finish`: the root, once every pushed group has been removed again. */
    method Finish() returns (r: Outcome<Node>)
      requires Valid()
      ensures |stack| > 0 ==> r == Throw(IllegalState("Called finish on a stack that is not empty."))
      ensures |stack| == 0 ==> r == Ok(root)
    {
      if |stack| > 0 {
        return Throw(IllegalState("Called finish on a stack that is not empty."));
      }
      r := Ok(root);
    }
  }
}
