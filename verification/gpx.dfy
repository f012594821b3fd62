/** The parsed track document the metrics are computed from: tracks made of
    segments made of points, each point with a position, an optional
    elevation and an optional timestamp. */
module Gpx {
  import opened Wrappers

  /** A position in degrees; the metrics only hand it to the leg distance. */
  datatype Position = Position(lat: real, lon: real)

  /** One sample. A timestamp is the absolute instant it denotes, so two
      timestamps compare as instants whatever their UTC offsets. */
  datatype Point = Point(pos: Position, elevation: Option<real>, time: Option<int>)

  /** A continuous recording interval; nothing is accumulated across its ends. */
  datatype Segment = Segment(points: seq<Point>)

  datatype Track = Track(name: Option<string>, segments: seq<Segment>)

  datatype Document = Document(tracks: seq<Track>)
}
