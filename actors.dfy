/**
  Actors: named entities. The constructor that takes a name installs that name
  and one shape component; a Transform is not attached by any constructor.
 */
module Actors {
  import opened Wrappers
  import opened ComponentTypes
  import opened Components
  import opened Entities

  /** The name an Actor has when none is given. */
  const DefaultName: string := "Actor"

  class Actor {
    /** The Entity part of the Actor: its component list. */
    const base: Entity
    var name: string

    /** The default constructor: the default name and no components. */
    constructor Default()
      ensures name == DefaultName && base.components == []
      ensures forall t :: GetComponent(t) == None
      ensures fresh(base)
    {
      base := new Entity();
      name := DefaultName;
    }

    /** Installs the given name and attaches a single shape. */
    constructor (actorName: string)
      ensures name == actorName && base.components == [ShapeComponent]
      ensures GetComponent(SHAPE) == Some(ShapeComponent) && GetComponent(TRANSFORM) == None
      ensures fresh(base)
    {
      base := new Entity();
      name := actorName;
      new;
      base.AddComponent(ShapeComponent);
      NamedActorComponents();
    }

    /** The earliest attached component of type `t`, or nothing when none is attached. */
    function GetComponent(t: ComponentType): (r: Option<Component>)
      reads base
      ensures IsFirstMatch(base.components, t, r)
    {
      FindComponent(base.components, t)
    }

    /** Drawing an actor changes nothing the model holds. */
    method Render()
      ensures unchanged(this, base)
    {
    }
  }

  /** What the named constructor leaves behind: a shape is found, a Transform is not. */
  lemma NamedActorComponents()
    ensures FindComponent([ShapeComponent], SHAPE) == Some(ShapeComponent)
    ensures FindComponent([ShapeComponent], TRANSFORM) == None
    ensures FindComponent([ShapeComponent], TEXTURE) == None
  {
  }
}
