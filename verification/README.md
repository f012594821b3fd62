# cyclemetrics track metrics, in Dafny

This project models the metrics engine of cyclemetrics, a tool that summarises
GPX activity recordings. A parsed GPX document is a tree of tracks, segments and
points. Each point has a position, an optional elevation and an optional
timestamp. From one document the engine computes:

- the total distance: the leg distance summed over consecutive points of each segment;
- the elevation gain: positive steps between consecutive elevation-bearing points
  of each segment, with the baseline carried across points that have no elevation;
- the time range: the earliest and latest timestamp anywhere in the document;
- the track name: the first track's name.

The run loop then folds a list of path patterns into one record per parsed file
and a grand total in kilometres. Any failure aborts the whole run.

Modules (one file each):

- `Wrappers` (`wrappers.dfy`): `Option` and `Result`.
- `Gpx` (`gpx.dfy`): `Position`, `Point`, `Segment`, `Track`, `Document`.
- `Pairs` (`pairs.dfy`): `PairSum`, the sum of a function over consecutive pairs.
  Distance and elevation gain are both built on it.
- `Distance` (`distance.dfy`): `gpx_total_distance`.
- `Elevation` (`elevation.dfy`): `gpx_elevation_gain`.
- `TimeRange` (`timerange.dfy`): `gpx_start_end_date`.
- `Naming` (`naming.dfy`): `gpx_track_name`.
- `Runner` (`runner.dfy`): the metrics fold of `App::run` and the `FileItem` record.

The Haversine leg distance is a parameter `leg: (Position, Position) -> real`.
Properties that need it to be non-negative or symmetric require
`NonNegative(leg)` or `Symmetric(leg)`. Elevations and distances are `real`.
Instants are `int`: chrono orders `DateTime<FixedOffset>` by absolute instant,
so the UTC offset plays no part. The loops are written as Dafny methods that
follow the Rust code statement by statement. Each method is proved equal to a
recursive reference definition: a sum of per-segment pair sums, or a sum of
rises over the gap-free elevation list.

The model follows the code as written:

- The record's date is always the empty string (src/runner.rs:127).
  `gpx_start_end_date` is modelled but the run loop never calls it.
- The record keeps no raw start and end instants.
- The record's elevation is the rounded gain, not a float.
- A pattern that matches no file is not an error. `glob::glob(...)?` fails only on a
  malformed pattern (src/runner.rs:108). A pattern matching nothing yields no entries
  (src/runner.rs:109), adds no record, and the run carries on (`Runner.UnmatchedPatternSkipped`).

## Model

| member | source | states |
|---|---|---|
| Distance.TotalDistance | src/gpx.rs:8-26 | The loop (one running total, previous point cleared at every segment) returns exactly the sum over all segments of all tracks of that segment's consecutive-pair leg sum |
| Distance.DistanceNonNegative | src/gpx.rs:8-26 | With a non-negative leg distance the total distance is never negative |
| Distance.ShortSegmentContributesNothing | src/gpx.rs:13-20 | Inserting a segment of fewer than two points anywhere in a track's segment list leaves the distance unchanged |
| Distance.SegmentBoundaryDropsBridgingLeg | src/gpx.rs:11-20 | Splitting the points `a + b` into two segments loses exactly the leg from the last point of `a` to the first of `b`, so no leg spans a segment boundary |
| Distance.SegmentsDistanceAppend | src/gpx.rs:12-21 | The distance of a concatenated segment list is the sum of the two lists' distances |
| Distance.TracksDistanceAppend | src/gpx.rs:11-22 | The distance of a concatenated track list is the sum of the two lists' distances; no leg joins two tracks |
| Distance.SegmentsDistanceUpdate | src/gpx.rs:12-21 | Replacing one segment changes the total by exactly the change in that segment's own distance |
| Distance.TracksDistanceUpdate | src/gpx.rs:11-22 | Replacing one track changes the total by exactly the change in that track's own distance |
| Distance.ReverseSegmentKeepsDistance | src/gpx.rs:14-20 | With a symmetric leg distance, reversing the point order of any one segment leaves the document's distance unchanged |
| Pairs.PairSumSplit | src/gpx.rs:14-20 | Concatenating two non-empty point runs adds exactly one pair, the bridging one |
| Pairs.PairSumReverse | src/gpx.rs:14-20 | With a symmetric pair function, a reversed run has the same consecutive-pair sum |
| Pairs.PairSumNonNegative | src/gpx.rs:17-19 | With a non-negative pair function, a consecutive-pair sum is never negative |
| Elevation.ElevationGain | src/gpx.rs:34-54 | The loop (last elevation cleared per segment, kept across points without elevation, overwritten by every elevation) returns exactly the sum over segments of the positive rises between consecutive entries of the segment's gap-free elevation list |
| Elevation.GainNonNegative | src/gpx.rs:41-45 | The elevation gain of any document is never negative |
| Elevation.NonIncreasingGainsNothing | src/gpx.rs:41-45 | An elevation sequence that never climbs gains zero |
| Elevation.NonDecreasingGainsNetRise | src/gpx.rs:41-47 | An elevation sequence that never descends (in particular a strictly increasing one) gains its last value minus its first |
| Elevation.GainAtLeastNetRise | src/gpx.rs:41-47 | Any elevation sequence gains at least its last value minus its first |
| Elevation.GapKeepsBaseline | src/gpx.rs:38-48 | A point without elevation neither adds anything nor clears the baseline: removing it from a segment leaves the segment's gain unchanged |
| Elevation.ShortSegmentGainsNothing | src/gpx.rs:38-48 | A segment in which fewer than two points carry an elevation (so any segment of fewer than two points) gains nothing |
| Elevation.ShortSegmentContributesNoGain | src/gpx.rs:36-50 | Inserting such a segment anywhere in a track's segment list leaves the gain unchanged |
| Elevation.SegmentsGainAppend | src/gpx.rs:37-49 | The gain of a concatenated segment list is the sum of the two lists' gains |
| Elevation.SegmentBoundaryResetsBaseline | src/gpx.rs:37-48 | The baseline resets per segment: as one segment, `a + b` gains the rise from `a`'s last elevation to `b`'s first on top of what `a` and `b` gain as two segments |
| Elevation.ElevationsAppend | src/gpx.rs:39-48 | The gap-free elevation list of a concatenation is the concatenation of the lists |
| Elevation.GapScenario | src/gpx.rs:38-48 | Elevations 100, none, 130 in one segment gain 30 |
| Elevation.ClimbScenario | src/gpx.rs:38-48 | Elevations 100, 150, 120, 200 in one segment gain 130 |
| TimeRange.StartEnd | src/gpx.rs:57-76 | None exactly when no point of any segment of any track has a timestamp; otherwise start <= end, both are timestamps of the document, and every timestamp of the document lies between them |
| TimeRange.DocumentTimesExact | src/gpx.rs:58-67 | An instant is collected exactly when some point of some segment of some track carries it |
| TimeRange.NoTimesIffUnstamped | src/gpx.rs:58-71 | Nothing is collected exactly when no point carries a timestamp |
| TimeRange.Min | src/gpx.rs:72 | The minimum is one of the collected instants and no collected instant is smaller |
| TimeRange.Max | src/gpx.rs:73 | The maximum is one of the collected instants and no collected instant is larger |
| Naming.TrackName | src/gpx.rs:29-31 | None exactly when there is no track or the first track is unnamed; otherwise the first track's name |
| Naming.NameIgnoresLaterTracks | src/gpx.rs:29-31 | Documents with the same first track get the same name whatever tracks follow, and that name is the first track's |
| Runner.Run | src/runner.rs:106-132 | If loading fails, the run returns that first failure and no records. Otherwise there is one record per loaded document, in input order. Each record has the file's path, metres / 1000 as its distance, the first track's name or "Activity", an empty date and the rounded gain. The grand total is the sum of the records' kilometres, starting from 0, and is non-negative for a non-negative leg distance |
| Runner.Record | src/runner.rs:117-130 | The record for one parsed file carries its path, its metres divided by 1000, its first track's name or "Activity", an empty date and its elevation gain rounded to whole metres |
| Runner.EntryFailureEndsRun | src/runner.rs:109-115 | An entry that cannot be listed, opened or parsed, after everything before it loaded, makes the whole run fail with that entry's failure |
| Runner.Round | src/runner.rs:128 | The rounded gain is within 1/2 of the gain, and halfway cases round away from zero |
| Runner.RunFailsIffSomeInputFails | src/runner.rs:108-115 | The run fails exactly when some pattern is malformed or some entry cannot be listed, opened or parsed |
| Runner.EntriesFailIffSomeEntryFails | src/runner.rs:109-115 | A pattern's entries fail to load exactly when one of them cannot be listed, opened or parsed |
| Runner.EntriesKeepOrder | src/runner.rs:109-130 | A successfully loaded pattern yields one document per entry, each from the entry at the same position |
| Runner.PatternsKeepOrder | src/runner.rs:106-110 | The documents of patterns `a + b` are those of `a` followed by those of `b`, and loading succeeds exactly when both halves succeed |
| Runner.EntriesFailurePersists | src/runner.rs:109-115 | A failure among the first k entries is the failure of the whole pattern |
| Runner.PatternsFailurePersists | src/runner.rs:106-115 | A failure among the first k patterns is the failure of the whole run |
| Runner.GrandTotalNonNegative | src/runner.rs:118-131 | With a non-negative leg distance, records built from documents have a non-negative kilometre sum |
| Runner.EmptyDocumentMetrics | src/gpx.rs:8-76 | A document without tracks has no name, zero distance, zero gain and no time range |
| Runner.UnmatchedPatternSkipped | src/runner.rs:108-109 | A pattern that matches no file is not a failure: inserting it anywhere among the patterns leaves the loaded documents, or the failure, unchanged |
| Runner.TwoFileScenario | src/runner.rs:79-131 | Two patterns each matching one file of 5000 m and 3200 m load in argument order; records built from them carry the files' paths in that order, 5.0 km and 3.2 km, and a grand total of 8.2 km |

## Left out

- Haversine trigonometry (`Haversine.distance`): a floating-point library call. The leg distance is a parameter, assumed only non-negative or symmetric where a property needs that. No numeric property of the leg distance is modelled.
- f64 arithmetic: all sums, the division by 1000 and the rounding are exact on `real`. Summation order and rounding error are not modelled.
- `format!("{}", elevation.round())`: the record keeps the rounded gain as an integer, not its decimal string.
- `format_distance` and all rendering, styling, list selection and key handling (`App::render*`, `handle_events`, `handle_key_event`, `select_next`, `select_previous`, `alternate_colors`): user interface.
- `gpx_to_chrono`: a conversion between two time libraries. A timestamp is an integer instant here.
- Glob expansion, `File::open`, `BufReader` and `gpx::read`: their outcomes are the run's input (`Pattern`, `Entry`, `Read`). The specific error values they carry are reduced to four failure kinds.
- `gpx_path.to_str().unwrap()`: the panic on a path that is not valid UTF-8 is not modelled. Paths are strings.
- `println!("{:?}", self.files)`: a debug print of a field that is always empty.
- `src/main.rs` and the clap `Args`: command-line wiring.
