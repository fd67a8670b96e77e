/** Map coordinates, shared by the registry and the form. */
module Coordinates {
  /** Latitude and longitude are only copied, never computed with. */
  type Coord = real
}
