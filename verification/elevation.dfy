/** Total elevation gain of a document (`gpx_elevation_gain`): within each
    segment, the positive differences between consecutive elevation-bearing
    points. A point without elevation is skipped and the last elevation seen
    stays the baseline; a new segment starts without a baseline. */
module Elevation {
  import opened Wrappers
  import opened Gpx
  import opened Pairs

  /** The elevations a run of points carries, in order, gaps dropped. */
  function Elevations(points: seq<Point>): seq<real>
    decreases |points|
  {
    if |points| == 0 then []
    else
      var last := points[|points| - 1];
      Elevations(points[..|points| - 1]) + (if last.elevation.Some? then [last.elevation.value] else [])
  }

  /** What one step from `from` up or down to `to` adds: only a climb counts. */
  function Rise(from: real, to: real): real {
    var diff := to - from;
    if diff > 0.0 then diff else 0.0
  }

  /** Reference definition for one segment: the rises between consecutive
      entries of its gap-free elevation sequence. */
  function SegmentGain(segment: Segment): real {
    PairSum(Rise, Elevations(segment.points))
  }

  function SegmentsGain(segments: seq<Segment>): real
    decreases |segments|
  {
    if |segments| == 0 then 0.0
    else SegmentsGain(segments[..|segments| - 1]) + SegmentGain(segments[|segments| - 1])
  }

  function TracksGain(tracks: seq<Track>): real
    decreases |tracks|
  {
    if |tracks| == 0 then 0.0
    else TracksGain(tracks[..|tracks| - 1]) + SegmentsGain(tracks[|tracks| - 1].segments)
  }

  function DocumentGain(gpx: Document): real {
    TracksGain(gpx.tracks)
  }

  /** The accumulation loop as the program writes it: a last-seen elevation
      that is cleared at every segment and overwritten by every point that
      carries an elevation, whether the step went up or down. */
  method ElevationGain(gpx: Document) returns (gain: real)
    ensures gain == DocumentGain(gpx)
  {
    gain := 0.0;
    for t := 0 to |gpx.tracks|
      invariant gain == TracksGain(gpx.tracks[..t])
    {
      var track := gpx.tracks[t];
      for s := 0 to |track.segments|
        invariant gain == TracksGain(gpx.tracks[..t]) + SegmentsGain(track.segments[..s])
      {
        var points := track.segments[s].points;
        ghost var before := gain;
        var lastElev: Option<real> := None;
        for i := 0 to |points|
          invariant gain == before + PairSum(Rise, Elevations(points[..i]))
          invariant var seen := Elevations(points[..i]);
                    lastElev == if |seen| == 0 then None else Some(seen[|seen| - 1])
        {
          ElevationsStep(points, i);
          ghost var seen := Elevations(points[..i]);
          if points[i].elevation.Some? {
            var elev := points[i].elevation.value;
            assert Elevations(points[..i + 1]) == seen + [elev];
            PairSumSnoc(Rise, seen, elev);
            if lastElev.Some? {
              var diff := elev - lastElev.value;
              assert PairSum(Rise, seen + [elev]) == PairSum(Rise, seen) + Rise(lastElev.value, elev);
              if diff > 0.0 {
                gain := gain + diff;
              }
            }
            lastElev := Some(elev);
          } else {
            assert Elevations(points[..i + 1]) == seen;
          }
        }
        assert points[..|points|] == points;
        assert track.segments[..s + 1][..s] == track.segments[..s];
      }
      assert track.segments[..|track.segments|] == track.segments;
      assert gpx.tracks[..t + 1][..t] == gpx.tracks[..t];
    }
    assert gpx.tracks[..|gpx.tracks|] == gpx.tracks;
  }

  lemma ElevationsStep(points: seq<Point>, i: nat)
    requires i < |points|
    ensures Elevations(points[..i + 1])
            == Elevations(points[..i]) + (if points[i].elevation.Some? then [points[i].elevation.value] else [])
  {
    assert points[..i + 1][..i] == points[..i];
  }

  lemma {:induction false} ElevationsAppend(a: seq<Point>, b: seq<Point>)
    ensures Elevations(a + b) == Elevations(a) + Elevations(b)
    decreases |b|
  {
    if |b| == 0 {
      assert a + b == a;
    } else {
      ElevationsAppend(a, b[..|b| - 1]);
      assert (a + b)[..|a + b| - 1] == a + b[..|b| - 1];
    }
  }

  lemma {:induction false} SegmentsGainNonNegative(segments: seq<Segment>)
    ensures SegmentsGain(segments) >= 0.0
    decreases |segments|
  {
    if |segments| > 0 {
      SegmentsGainNonNegative(segments[..|segments| - 1]);
      PairSumNonNegative(Rise, Elevations(segments[|segments| - 1].points));
    }
  }

  lemma {:induction false} TracksGainNonNegative(tracks: seq<Track>)
    ensures TracksGain(tracks) >= 0.0
    decreases |tracks|
  {
    if |tracks| > 0 {
      TracksGainNonNegative(tracks[..|tracks| - 1]);
      SegmentsGainNonNegative(tracks[|tracks| - 1].segments);
    }
  }

  /** Only climbs are added, so the gain is never negative. */
  lemma GainNonNegative(gpx: Document)
    ensures DocumentGain(gpx) >= 0.0
  {
    TracksGainNonNegative(gpx.tracks);
  }

  /** An elevation sequence that never climbs gains nothing. */
  lemma {:induction false} NonIncreasingGainsNothing(elevations: seq<real>)
    requires forall i :: 0 < i < |elevations| ==> elevations[i] <= elevations[i - 1]
    ensures PairSum(Rise, elevations) == 0.0
    decreases |elevations|
  {
    if |elevations| >= 2 {
      NonIncreasingGainsNothing(elevations[..|elevations| - 1]);
    }
  }

  /** An elevation sequence that never descends gains its last value minus
      its first. */
  lemma {:induction false} NonDecreasingGainsNetRise(elevations: seq<real>)
    requires |elevations| > 0
    requires forall i :: 0 < i < |elevations| ==> elevations[i - 1] <= elevations[i]
    ensures PairSum(Rise, elevations) == elevations[|elevations| - 1] - elevations[0]
    decreases |elevations|
  {
    if |elevations| >= 2 {
      NonDecreasingGainsNetRise(elevations[..|elevations| - 1]);
    }
  }

  /** Whatever the profile, the gain is at least the net rise from the first
      elevation to the last. */
  lemma {:induction false} GainAtLeastNetRise(elevations: seq<real>)
    requires |elevations| > 0
    ensures PairSum(Rise, elevations) >= elevations[|elevations| - 1] - elevations[0]
    decreases |elevations|
  {
    if |elevations| >= 2 {
      GainAtLeastNetRise(elevations[..|elevations| - 1]);
    }
  }

  /** Carry-forward: a point without elevation neither adds anything nor
      clears the baseline, so removing it from a segment changes nothing. */
  lemma GapKeepsBaseline(before: seq<Point>, gap: Point, after: seq<Point>)
    requires gap.elevation.None?
    ensures SegmentGain(Segment(before + [gap] + after)) == SegmentGain(Segment(before + after))
  {
    ElevationsAppend(before + [gap], after);
    ElevationsAppend(before, [gap]);
    ElevationsAppend(before, after);
    assert [gap][..0] == [];
    assert Elevations([gap]) == [];
    assert Elevations(before + [gap]) == Elevations(before);
  }

  lemma SingleSegmentGain(segment: Segment)
    ensures SegmentsGain([segment]) == SegmentGain(segment)
  {
    assert [segment][..0] == [];
  }

  lemma {:induction false} SegmentsGainAppend(a: seq<Segment>, b: seq<Segment>)
    ensures SegmentsGain(a + b) == SegmentsGain(a) + SegmentsGain(b)
    decreases |b|
  {
    if |b| == 0 {
      assert a + b == a;
    } else {
      SegmentsGainAppend(a, b[..|b| - 1]);
      assert (a + b)[..|a + b| - 1] == a + b[..|b| - 1];
    }
  }

  /** A segment in which fewer than two points carry an elevation has no
      baseline to compare against and gains nothing; in particular a segment
      of fewer than two points gains nothing. */
  lemma ShortSegmentGainsNothing(segment: Segment)
    requires |Elevations(segment.points)| < 2
    ensures SegmentGain(segment) == 0.0
  {
  }

  /** Such a segment contributes nothing: inserting it anywhere among the
      segments of a track leaves the gain unchanged. */
  lemma {:induction false} ShortSegmentContributesNoGain(segments: seq<Segment>, k: nat, short: Segment)
    requires k <= |segments|
    requires |Elevations(short.points)| < 2
    ensures SegmentsGain(segments[..k] + [short] + segments[k..]) == SegmentsGain(segments)
  {
    var prefix, suffix := segments[..k], segments[k..];
    var extended := prefix + [short];
    assert SegmentsGain(extended) == SegmentsGain(prefix) by {
      assert extended[..|extended| - 1] == prefix;
      ShortSegmentGainsNothing(short);
    }
    calc {
      SegmentsGain(extended + suffix);
      { SegmentsGainAppend(extended, suffix); }
      SegmentsGain(prefix) + SegmentsGain(suffix);
      { SegmentsGainAppend(prefix, suffix); }
      SegmentsGain(prefix + suffix);
      { assert prefix + suffix == segments; }
      SegmentsGain(segments);
    }
  }

  /** The baseline is reset at a segment boundary: the rise from the last
      elevation of `a` to the first elevation of `b` counts when they are one
      segment and is lost when they are two. */
  lemma {:induction false} SegmentBoundaryResetsBaseline(a: seq<Point>, b: seq<Point>)
    requires |Elevations(a)| > 0 && |Elevations(b)| > 0
    ensures SegmentGain(Segment(a + b))
            == SegmentsGain([Segment(a), Segment(b)])
               + Rise(Elevations(a)[|Elevations(a)| - 1], Elevations(b)[0])
  {
    var ea, eb := Elevations(a), Elevations(b);
    ElevationsAppend(a, b);
    PairSumSplit(Rise, ea, eb);
    assert [Segment(a), Segment(b)][..1] == [Segment(a)];
    SingleSegmentGain(Segment(a));
    assert SegmentsGain([Segment(a), Segment(b)]) == SegmentGain(Segment(a)) + SegmentGain(Segment(b));
  }

  function At(elevation: Option<real>): Point {
    Point(Position(0.0, 0.0), elevation, None)
  }

  /** Elevations 100, (none), 130 in one segment gain 30: the gap does not
      reset the baseline. */
  lemma GapScenario()
    ensures SegmentGain(Segment([At(Some(100.0)), At(None), At(Some(130.0))])) == 30.0
  {
    var p, q := At(Some(100.0)), At(Some(130.0));
    GapKeepsBaseline([p], At(None), [q]);
    assert [p] + [At(None)] + [q] == [p, At(None), q];
    assert [p] + [q] == [p, q];
    assert [p, q][..1] == [p];
    assert [p][..0] == [];
    assert Elevations([p]) == [100.0];
    assert Elevations([p, q]) == [100.0, 130.0];
    assert [100.0, 130.0][..1] == [100.0];
  }

  /** Elevations 100, 150, 120, 200 in one segment gain 50 + 80 = 130. */
  lemma ClimbScenario()
    ensures SegmentGain(Segment([At(Some(100.0)), At(Some(150.0)), At(Some(120.0)), At(Some(200.0))])) == 130.0
  {
    var p1, p2, p3, p4 := At(Some(100.0)), At(Some(150.0)), At(Some(120.0)), At(Some(200.0));
    assert [p1][..0] == [];
    assert [p1, p2][..1] == [p1];
    assert [p1, p2, p3][..2] == [p1, p2];
    assert [p1, p2, p3, p4][..3] == [p1, p2, p3];
    assert Elevations([p1]) == [100.0];
    assert Elevations([p1, p2]) == [100.0, 150.0];
    assert Elevations([p1, p2, p3]) == [100.0, 150.0, 120.0];
    assert Elevations([p1, p2, p3, p4]) == [100.0, 150.0, 120.0, 200.0];
    var es := [100.0, 150.0, 120.0, 200.0];
    assert es[..3] == [100.0, 150.0, 120.0];
    assert es[..3][..2] == [100.0, 150.0];
    assert es[..3][..2][..1] == [100.0];
    assert PairSum(Rise, [100.0, 150.0]) == 50.0;
    assert PairSum(Rise, [100.0, 150.0, 120.0]) == 50.0;
    assert PairSum(Rise, es) == 130.0;
  }
}
