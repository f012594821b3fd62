/** Start and end of a recording (`gpx_start_end_date`): the earliest and
    latest timestamp over every point of every segment of every track, or
    nothing when no point carries a timestamp. Instants are integers; their
    order is the order of the absolute instants, whatever the UTC offset. */
module TimeRange {
  import opened Wrappers
  import opened Gpx

  /** The timestamps of a run of points, in order, absent ones dropped. */
  function PointTimes(points: seq<Point>): seq<int>
    decreases |points|
  {
    if |points| == 0 then []
    else
      var last := points[|points| - 1];
      PointTimes(points[..|points| - 1]) + (if last.time.Some? then [last.time.value] else [])
  }

  function SegmentsTimes(segments: seq<Segment>): seq<int>
    decreases |segments|
  {
    if |segments| == 0 then []
    else SegmentsTimes(segments[..|segments| - 1]) + PointTimes(segments[|segments| - 1].points)
  }

  function TracksTimes(tracks: seq<Track>): seq<int>
    decreases |tracks|
  {
    if |tracks| == 0 then []
    else TracksTimes(tracks[..|tracks| - 1]) + SegmentsTimes(tracks[|tracks| - 1].segments)
  }

  /** Every timestamp of the document, all tracks and segments mixed together. */
  function DocumentTimes(gpx: Document): seq<int> {
    TracksTimes(gpx.tracks)
  }

  ghost predicate PointsStamped(points: seq<Point>, t: int) {
    exists k :: 0 <= k < |points| && points[k].time == Some(t)
  }

  ghost predicate SegmentsStamped(segments: seq<Segment>, t: int) {
    exists j :: 0 <= j < |segments| && PointsStamped(segments[j].points, t)
  }

  /** Some point of some segment of some track of the document is stamped `t`. */
  ghost predicate Stamped(gpx: Document, t: int) {
    exists i :: 0 <= i < |gpx.tracks| && SegmentsStamped(gpx.tracks[i].segments, t)
  }

  /** Some point of the document carries a timestamp. */
  ghost predicate HasTimestamp(gpx: Document) {
    exists i, j, k ::
      && 0 <= i < |gpx.tracks|
      && 0 <= j < |gpx.tracks[i].segments|
      && 0 <= k < |gpx.tracks[i].segments[j].points|
      && gpx.tracks[i].segments[j].points[k].time.Some?
  }

  lemma {:induction false} PointTimesExact(points: seq<Point>, t: int)
    ensures t in PointTimes(points) <==> PointsStamped(points, t)
    decreases |points|
  {
    if |points| > 0 {
      var init := points[..|points| - 1];
      PointTimesExact(init, t);
      if PointsStamped(init, t) {
        var k :| 0 <= k < |init| && init[k].time == Some(t);
        assert points[k] == init[k];
      }
      if PointsStamped(points, t) && !PointsStamped(init, t) {
        var k :| 0 <= k < |points| && points[k].time == Some(t);
        assert k == |init|;
      }
    }
  }

  lemma {:induction false} SegmentsTimesExact(segments: seq<Segment>, t: int)
    ensures t in SegmentsTimes(segments) <==> SegmentsStamped(segments, t)
    decreases |segments|
  {
    if |segments| > 0 {
      var init := segments[..|segments| - 1];
      SegmentsTimesExact(init, t);
      PointTimesExact(segments[|segments| - 1].points, t);
      if SegmentsStamped(init, t) {
        var j :| 0 <= j < |init| && PointsStamped(init[j].points, t);
        assert segments[j] == init[j];
      }
      if SegmentsStamped(segments, t) && !SegmentsStamped(init, t) {
        var j :| 0 <= j < |segments| && PointsStamped(segments[j].points, t);
        assert j == |init|;
      }
    }
  }

  lemma {:induction false} TracksTimesExact(tracks: seq<Track>, t: int)
    ensures t in TracksTimes(tracks) <==> Stamped(Document(tracks), t)
    decreases |tracks|
  {
    if |tracks| > 0 {
      var init := tracks[..|tracks| - 1];
      TracksTimesExact(init, t);
      SegmentsTimesExact(tracks[|tracks| - 1].segments, t);
      if Stamped(Document(init), t) {
        var i :| 0 <= i < |init| && SegmentsStamped(init[i].segments, t);
        assert tracks[i] == init[i];
      }
      if Stamped(Document(tracks), t) && !Stamped(Document(init), t) {
        var i :| 0 <= i < |tracks| && SegmentsStamped(tracks[i].segments, t);
        assert i == |init|;
      }
    }
  }

  /** The collected timestamps are exactly the timestamps of the document's
      points: nothing is lost and nothing is invented. */
  lemma DocumentTimesExact(gpx: Document, t: int)
    ensures t in DocumentTimes(gpx) <==> Stamped(gpx, t)
  {
    TracksTimesExact(gpx.tracks, t);
  }

  /** Nothing is collected exactly when no point carries a timestamp. */
  lemma NoTimesIffUnstamped(gpx: Document)
    ensures |DocumentTimes(gpx)| == 0 <==> !HasTimestamp(gpx)
  {
    var times := DocumentTimes(gpx);
    if |times| > 0 {
      DocumentTimesExact(gpx, times[0]);
      var i :| 0 <= i < |gpx.tracks| && SegmentsStamped(gpx.tracks[i].segments, times[0]);
      var j :| 0 <= j < |gpx.tracks[i].segments| && PointsStamped(gpx.tracks[i].segments[j].points, times[0]);
      var k :| 0 <= k < |gpx.tracks[i].segments[j].points| && gpx.tracks[i].segments[j].points[k].time == Some(times[0]);
      assert gpx.tracks[i].segments[j].points[k].time.Some?;
    }
    if HasTimestamp(gpx) {
      var i, j, k :|
        && 0 <= i < |gpx.tracks|
        && 0 <= j < |gpx.tracks[i].segments|
        && 0 <= k < |gpx.tracks[i].segments[j].points|
        && gpx.tracks[i].segments[j].points[k].time.Some?;
      var t := gpx.tracks[i].segments[j].points[k].time.value;
      assert PointsStamped(gpx.tracks[i].segments[j].points, t);
      assert SegmentsStamped(gpx.tracks[i].segments, t);
      DocumentTimesExact(gpx, t);
    }
  }

  function Min(s: seq<int>): (m: int)
    requires |s| > 0
    ensures m in s
    ensures forall x :: x in s ==> m <= x
    decreases |s|
  {
    if |s| == 1 then s[0]
    else
      var rest := Min(s[1..]);
      assert forall x :: x in s ==> x == s[0] || x in s[1..];
      if s[0] <= rest then s[0] else rest
  }

  function Max(s: seq<int>): (m: int)
    requires |s| > 0
    ensures m in s
    ensures forall x :: x in s ==> x <= m
    decreases |s|
  {
    if |s| == 1 then s[0]
    else
      var rest := Max(s[1..]);
      assert forall x :: x in s ==> x == s[0] || x in s[1..];
      if s[0] >= rest then s[0] else rest
  }

  /** The earliest and latest instant of the document, or None when no point
      is stamped. Both ends are real timestamps of the document and every
      timestamp lies between them. */
  function StartEnd(gpx: Document): (r: Option<(int, int)>)
    ensures r.None? <==> !HasTimestamp(gpx)
    ensures r.Some? ==> r.value.0 <= r.value.1
    ensures r.Some? ==> Stamped(gpx, r.value.0) && Stamped(gpx, r.value.1)
    ensures r.Some? ==> forall t :: Stamped(gpx, t) ==> r.value.0 <= t <= r.value.1
  {
    var times := DocumentTimes(gpx);
    NoTimesIffUnstamped(gpx);
    if |times| == 0 then None
    else
      var start, end := Min(times), Max(times);
      DocumentTimesExact(gpx, start);
      DocumentTimesExact(gpx, end);
      assert forall t :: Stamped(gpx, t) ==> t in times by {
        forall t | Stamped(gpx, t) {
          DocumentTimesExact(gpx, t);
        }
      }
      Some((start, end))
  }
}
