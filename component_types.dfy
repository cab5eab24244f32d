/** The tags of the entity-component system's component kinds, in declaration order. */
module ComponentTypes {

  datatype ComponentType =
    | NONE
    | TRANSFORM
    | SPRITE
    | RENDERER
    | PHYSICS
    | AUDIOSOURCE
    | SHAPE
    | TEXTURE
}
