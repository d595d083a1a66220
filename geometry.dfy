/**
 * The geometric primitives handed to the sparse-map library's rasteriser.
 * Only their data is modelled: a circle by centre, radius and bit value, a
 * polygon by its vertex coordinates and bit value (all in degrees).
 */
module Geometry {

  datatype Circle = Circle(ra: real, dec: real, radius: real, value: int)

  datatype Polygon = Polygon(ras: seq<real>, decs: seq<real>, value: int)

  datatype Shape = CircleShape(circle: Circle) | PolygonShape(polygon: Polygon)
}
