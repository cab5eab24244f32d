/**
  Entities: containers of components. A lookup by component type scans the
  components in insertion order and returns the first that matches.
 */
module Entities {
  import opened Wrappers
  import opened ComponentTypes
  import opened Components

  ghost predicate NoneOfType(cs: seq<Component>, t: ComponentType)
  {
    forall i :: 0 <= i < |cs| ==> cs[i].Type() != t
  }

  /** `r` is what a first-match lookup of `t` in `cs` must return: the earliest match, or nothing when none matches. */
  ghost predicate IsFirstMatch(cs: seq<Component>, t: ComponentType, r: Option<Component>)
  {
    match r
    case None => NoneOfType(cs, t)
    case Some(c) => exists i :: 0 <= i < |cs| && cs[i] == c && c.Type() == t && NoneOfType(cs[..i], t)
  }

  /** At most one result satisfies the first-match description. */
  lemma FirstMatchUnique(cs: seq<Component>, t: ComponentType, r1: Option<Component>, r2: Option<Component>)
    requires IsFirstMatch(cs, t, r1) && IsFirstMatch(cs, t, r2)
    ensures r1 == r2
  {
  }

  /** The first-match search over a component list. */
  function FindComponent(cs: seq<Component>, t: ComponentType): (r: Option<Component>)
    ensures IsFirstMatch(cs, t, r)
    decreases |cs|
  {
    if |cs| == 0 then None
    else if cs[0].Type() == t then
      assert cs[..0] == [];
      Some(cs[0])
    else
      var rest := FindComponent(cs[1..], t);
      match rest
      case None => rest
      case Some(c) =>
        ghost var i :| 0 <= i < |cs[1..]| && cs[1..][i] == c && c.Type() == t && NoneOfType(cs[1..][..i], t);
        assert cs[..i + 1] == [cs[0]] + cs[1..][..i];
        rest
  }

  /** Searching a concatenation finds the match in the first part when there is one, else in the second. */
  lemma {:induction false} FindInConcatenation(cs: seq<Component>, ds: seq<Component>, t: ComponentType)
    ensures FindComponent(cs + ds, t) == (if FindComponent(cs, t).Some? then FindComponent(cs, t) else FindComponent(ds, t))
    decreases |cs|
  {
    if |cs| == 0 {
      assert cs + ds == ds;
    } else {
      assert (cs + ds)[1..] == cs[1..] + ds;
      FindInConcatenation(cs[1..], ds, t);
    }
  }

  /** Appending a component of a type the list does not hold yet makes it the answer for that type. */
  lemma FindAfterAppend(cs: seq<Component>, c: Component)
    requires NoneOfType(cs, c.Type())
    ensures FindComponent(cs + [c], c.Type()) == Some(c)
    ensures forall t :: FindComponent(cs, t).Some? ==> FindComponent(cs + [c], t) == FindComponent(cs, t)
  {
    FindInConcatenation(cs, [c], c.Type());
    forall t | FindComponent(cs, t).Some?
      ensures FindComponent(cs + [c], t) == FindComponent(cs, t)
    {
      FindInConcatenation(cs, [c], t);
    }
  }

  class Entity {
    var components: seq<Component>

    constructor ()
      ensures components == []
    {
      components := [];
    }

    /** Appends the component; the earlier components and their order are kept. */
    method AddComponent(c: Component)
      modifies this
      ensures components == old(components) + [c]
    {
      components := components + [c];
    }

    /** The earliest component of type `t`, or nothing when none is attached. */
    function GetComponent(t: ComponentType): (r: Option<Component>)
      reads this
      ensures IsFirstMatch(components, t, r)
    {
      FindComponent(components, t)
    }
  }
}
