/**
  The component classes that exist in the engine, as tagged values. A Transform is
  held by reference, so that updates through one holder are seen by every other.
 */
module Components {
  import opened ComponentTypes
  import opened Transforms

  /** A texture as the engine names it: file name and extension. The image data is not modelled. */
  datatype Texture = Texture(name: string, extension: string)

  datatype Component =
    | TransformComponent(transform: Transform)
    | ShapeComponent
    | TextureComponent(texture: Texture)
  {
    /** The component type each class passes to its Component base. */
    function Type(): ComponentType
    {
      match this
      case TransformComponent(_) => TRANSFORM
      case ShapeComponent => SHAPE
      case TextureComponent(_) => TEXTURE
    }
  }

  /** Each component type belongs to exactly one component class. */
  lemma TypeDeterminesClass(c: Component)
    ensures c.Type() == TRANSFORM <==> c.TransformComponent?
    ensures c.Type() == SHAPE <==> c.ShapeComponent?
    ensures c.Type() == TEXTURE <==> c.TextureComponent?
  {
  }
}
