/** Display name of a document (`gpx_track_name`). */
module Naming {
  import opened Wrappers
  import opened Gpx

  /** The name of the first track; None when there is no track or the first
      track is unnamed. No later track is consulted. */
  function TrackName(gpx: Document): (r: Option<string>)
    ensures r.None? <==> |gpx.tracks| == 0 || gpx.tracks[0].name.None?
    ensures r.Some? ==> r == gpx.tracks[0].name
  {
    if |gpx.tracks| == 0 then None else gpx.tracks[0].name
  }

  /** Only the first track decides the name: documents that agree on their
      first track get the same name, whatever follows it. */
  lemma NameIgnoresLaterTracks(first: Track, rest: seq<Track>, rest': seq<Track>)
    ensures TrackName(Document([first] + rest)) == TrackName(Document([first] + rest'))
    ensures TrackName(Document([first] + rest)) == first.name
  {
  }
}
