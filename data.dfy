/** The entities of the overlay browser. Coordinates and distances are
    kept as reals; times are integer milliseconds since the epoch. */
module AtlasData {
  import opened Wrappers

  /** A point of interest as it appears in an overlay file. A timestamp
      that is absent, empty or not a date is `None`. */
  datatype Point = Point(
    caption: string,
    description: string,
    latitude: real,
    longitude: real,
    images: seq<string>,
    displayTime: Option<string>,
    timestamp: Option<int>,
    creationTime: int)

  /** A point of interest tagged with the name of the overlay it came from. */
  datatype Poi = Poi(point: Point, overlay: string)

  /** The parsed contents of one overlay file. */
  datatype Overlay = Overlay(name: string, points: seq<Point>)

  datatype LatLng = LatLng(lat: real, lng: real)

  /** A map marker, tagged with the index of the overlay that created it. */
  datatype Marker = Marker(position: LatLng, overlayIndex: int)

  /** Great-circle distance in kilometres between (lat1, lon1) and (lat2, lon2). */
  type Distance = (real, real, real, real) -> real
}
