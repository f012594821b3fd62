/** Total distance of a document (`gpx_total_distance`): the leg distance
    summed over every pair of consecutive points of every segment.

    The leg distance (the Haversine great-circle formula in the program) is a
    parameter: only its non-negativity and symmetry matter to the structure
    proved here. */
module Distance {
  import opened Wrappers
  import opened Gpx
  import opened Pairs

  type Leg = (Position, Position) -> real

  function Positions(points: seq<Point>): seq<Position> {
    seq(|points|, i requires 0 <= i < |points| => points[i].pos)
  }

  /** The consecutive-pair sum of one segment. */
  function SegmentDistance(leg: Leg, segment: Segment): real {
    PairSum(leg, Positions(segment.points))
  }

  /** Each segment's own consecutive-pair sum, added up. */
  function SegmentsDistance(leg: Leg, segments: seq<Segment>): real
    decreases |segments|
  {
    if |segments| == 0 then 0.0
    else SegmentsDistance(leg, segments[..|segments| - 1]) + SegmentDistance(leg, segments[|segments| - 1])
  }

  function TracksDistance(leg: Leg, tracks: seq<Track>): real
    decreases |tracks|
  {
    if |tracks| == 0 then 0.0
    else TracksDistance(leg, tracks[..|tracks| - 1]) + SegmentsDistance(leg, tracks[|tracks| - 1].segments)
  }

  /** Reference definition: the sum over all segments of all tracks of that
      segment's consecutive-pair sum. */
  function DocumentDistance(leg: Leg, gpx: Document): real {
    TracksDistance(leg, gpx.tracks)
  }

  /** The accumulation loop as the program writes it: one running total for
      the whole document and a previous point that starts out absent in
      every segment. It adds exactly the per-segment pair sums. */
  method TotalDistance(leg: Leg, gpx: Document) returns (total: real)
    ensures total == DocumentDistance(leg, gpx)
  {
    total := 0.0;
    for t := 0 to |gpx.tracks|
      invariant total == TracksDistance(leg, gpx.tracks[..t])
    {
      var track := gpx.tracks[t];
      for s := 0 to |track.segments|
        invariant total == TracksDistance(leg, gpx.tracks[..t]) + SegmentsDistance(leg, track.segments[..s])
      {
        var points := track.segments[s].points;
        ghost var before := total;
        var lastPoint: Option<Position> := None;
        for i := 0 to |points|
          invariant total == before + PairSum(leg, Positions(points[..i]))
          invariant lastPoint == if i == 0 then None else Some(points[i - 1].pos)
        {
          var current := points[i].pos;
          assert Positions(points[..i + 1]) == Positions(points[..i]) + [current];
          PairSumSnoc(leg, Positions(points[..i]), current);
          if lastPoint.Some? {
            total := total + leg(lastPoint.value, current);
          }
          lastPoint := Some(current);
        }
        assert points[..|points|] == points;
        assert track.segments[..s + 1][..s] == track.segments[..s];
      }
      assert track.segments[..|track.segments|] == track.segments;
      assert gpx.tracks[..t + 1][..t] == gpx.tracks[..t];
    }
    assert gpx.tracks[..|gpx.tracks|] == gpx.tracks;
  }

  /** Segments are independent: the distance of a concatenation of segment
      lists is the sum of their distances. */
  lemma {:induction false} SegmentsDistanceAppend(leg: Leg, a: seq<Segment>, b: seq<Segment>)
    ensures SegmentsDistance(leg, a + b) == SegmentsDistance(leg, a) + SegmentsDistance(leg, b)
    decreases |b|
  {
    if |b| == 0 {
      assert a + b == a;
    } else {
      SegmentsDistanceAppend(leg, a, b[..|b| - 1]);
      assert (a + b)[..|a + b| - 1] == a + b[..|b| - 1];
    }
  }

  /** Tracks are independent: no leg joins the end of one track to the start
      of the next. */
  lemma {:induction false} TracksDistanceAppend(leg: Leg, a: seq<Track>, b: seq<Track>)
    ensures TracksDistance(leg, a + b) == TracksDistance(leg, a) + TracksDistance(leg, b)
    decreases |b|
  {
    if |b| == 0 {
      assert a + b == a;
    } else {
      TracksDistanceAppend(leg, a, b[..|b| - 1]);
      assert (a + b)[..|a + b| - 1] == a + b[..|b| - 1];
    }
  }

  lemma {:induction false} SegmentsDistanceNonNegative(leg: Leg, segments: seq<Segment>)
    requires NonNegative(leg)
    ensures SegmentsDistance(leg, segments) >= 0.0
    decreases |segments|
  {
    if |segments| > 0 {
      SegmentsDistanceNonNegative(leg, segments[..|segments| - 1]);
      PairSumNonNegative(leg, Positions(segments[|segments| - 1].points));
    }
  }

  lemma {:induction false} TracksDistanceNonNegative(leg: Leg, tracks: seq<Track>)
    requires NonNegative(leg)
    ensures TracksDistance(leg, tracks) >= 0.0
    decreases |tracks|
  {
    if |tracks| > 0 {
      TracksDistanceNonNegative(leg, tracks[..|tracks| - 1]);
      SegmentsDistanceNonNegative(leg, tracks[|tracks| - 1].segments);
    }
  }

  /** With a non-negative leg distance the total is never negative. */
  lemma DistanceNonNegative(leg: Leg, gpx: Document)
    requires NonNegative(leg)
    ensures DocumentDistance(leg, gpx) >= 0.0
  {
    TracksDistanceNonNegative(leg, gpx.tracks);
  }

  /** Replacing one segment changes the sum by exactly the change in that
      segment's own distance. */
  lemma {:induction false} SegmentsDistanceUpdate(leg: Leg, segments: seq<Segment>, k: nat, segment: Segment)
    requires k < |segments|
    ensures SegmentsDistance(leg, segments[k := segment])
            == SegmentsDistance(leg, segments) - SegmentDistance(leg, segments[k]) + SegmentDistance(leg, segment)
    decreases |segments|
  {
    var n := |segments| - 1;
    if k < n {
      SegmentsDistanceUpdate(leg, segments[..n], k, segment);
      assert segments[k := segment][..n] == segments[..n][k := segment];
    } else {
      assert segments[k := segment][..n] == segments[..n];
    }
  }

  lemma {:induction false} TracksDistanceUpdate(leg: Leg, tracks: seq<Track>, k: nat, track: Track)
    requires k < |tracks|
    ensures TracksDistance(leg, tracks[k := track])
            == TracksDistance(leg, tracks) - SegmentsDistance(leg, tracks[k].segments) + SegmentsDistance(leg, track.segments)
    decreases |tracks|
  {
    var n := |tracks| - 1;
    if k < n {
      TracksDistanceUpdate(leg, tracks[..n], k, track);
      assert tracks[k := track][..n] == tracks[..n][k := track];
    } else {
      assert tracks[k := track][..n] == tracks[..n];
    }
  }

  lemma SingleSegmentDistance(leg: Leg, segment: Segment)
    ensures SegmentsDistance(leg, [segment]) == SegmentDistance(leg, segment)
  {
    assert [segment][..0] == [];
  }

  /** A segment of fewer than two points has no leg. */
  lemma ShortSegmentHasNoLegs(leg: Leg, segment: Segment)
    requires |segment.points| < 2
    ensures SegmentDistance(leg, segment) == 0.0
  {
    assert |Positions(segment.points)| < 2;
  }

  /** A segment of fewer than two points contributes nothing: inserting it
      anywhere among the segments of a track leaves the distance unchanged. */
  lemma {:induction false} ShortSegmentContributesNothing(leg: Leg, segments: seq<Segment>, k: nat, short: Segment)
    requires k <= |segments|
    requires |short.points| < 2
    ensures SegmentsDistance(leg, segments[..k] + [short] + segments[k..]) == SegmentsDistance(leg, segments)
  {
    var prefix, suffix := segments[..k], segments[k..];
    var extended := prefix + [short];
    assert SegmentsDistance(leg, extended) == SegmentsDistance(leg, prefix) by {
      assert extended[..|extended| - 1] == prefix;
      ShortSegmentHasNoLegs(leg, short);
    }
    calc {
      SegmentsDistance(leg, extended + suffix);
      { SegmentsDistanceAppend(leg, extended, suffix); }
      SegmentsDistance(leg, prefix) + SegmentsDistance(leg, suffix);
      { SegmentsDistanceAppend(leg, prefix, suffix); }
      SegmentsDistance(leg, prefix + suffix);
      { assert prefix + suffix == segments; }
      SegmentsDistance(leg, segments);
    }
  }

  /** No leg spans a segment boundary: recording the points `a + b` as two
      segments `a` and `b` instead of one loses exactly the leg from the last
      point of `a` to the first point of `b`. */
  lemma SegmentBoundaryDropsBridgingLeg(leg: Leg, a: seq<Point>, b: seq<Point>)
    requires |a| > 0 && |b| > 0
    ensures SegmentDistance(leg, Segment(a + b))
            == SegmentsDistance(leg, [Segment(a), Segment(b)]) + leg(a[|a| - 1].pos, b[0].pos)
  {
    assert Positions(a + b) == Positions(a) + Positions(b);
    PairSumSplit(leg, Positions(a), Positions(b));
    assert [Segment(a), Segment(b)][..1] == [Segment(a)];
    SingleSegmentDistance(leg, Segment(a));
  }

  /** The document with the points of segment `s` of track `t` in reverse order. */
  function ReverseSegment(gpx: Document, t: nat, s: nat): Document
    requires t < |gpx.tracks| && s < |gpx.tracks[t].segments|
  {
    var track := gpx.tracks[t];
    var reversed := Segment(Reverse(track.segments[s].points));
    Document(gpx.tracks[t := track.(segments := track.segments[s := reversed])])
  }

  /** With a symmetric leg distance, reversing the point order of any one
      segment leaves the total distance unchanged. */
  lemma ReverseSegmentKeepsDistance(leg: Leg, gpx: Document, t: nat, s: nat)
    requires Symmetric(leg)
    requires t < |gpx.tracks| && s < |gpx.tracks[t].segments|
    ensures DocumentDistance(leg, ReverseSegment(gpx, t, s)) == DocumentDistance(leg, gpx)
  {
    var track := gpx.tracks[t];
    var points := track.segments[s].points;
    var reversed := Segment(Reverse(points));
    assert Positions(Reverse(points)) == Reverse(Positions(points));
    PairSumReverse(leg, Positions(points));
    SegmentsDistanceUpdate(leg, track.segments, s, reversed);
    TracksDistanceUpdate(leg, gpx.tracks, t, track.(segments := track.segments[s := reversed]));
  }
}
