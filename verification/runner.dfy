/** The per-file fold of the program's run loop: every path pattern is
    expanded, every matching file is opened and parsed, and each parsed
    document becomes one record (distance in kilometres, display name, date,
    rounded elevation gain) while its kilometres are added to a grand total
    that starts at zero. The first failure of any kind ends the whole run
    and no record survives it.

    Pattern expansion, file reading and parsing are outside the model: their
    outcomes are the input. */
module Runner {
  import opened Wrappers
  import opened Gpx
  import opened Pairs
  import opened Distance
  import opened Elevation
  import opened Naming
  import opened TimeRange

  /** The four ways the loop can stop: a malformed pattern, a directory entry
      the expansion cannot list, a file that cannot be opened, a file that
      does not parse. */
  datatype Failure = PatternError | GlobError | IoError | ParseError

  /** What opening and parsing one listed file yields. */
  datatype Read = CannotOpen | Unparsable | Parsed(gpx: Document)

  /** One item produced by expanding a pattern. */
  datatype Entry = Unlisted | Listed(path: string, contents: Read)

  /** One command-line argument after expansion. */
  datatype Pattern = Malformed | Matches(entries: seq<Entry>)

  datatype LoadedFile = LoadedFile(path: string, gpx: Document)

  /** One line of the activity list. */
  datatype FileItem = FileItem(fileName: string, distance: real, name: string, date: string, elevation: int)

  /** The records in input order and the sum of their kilometres. */
  datatype Summary = Summary(items: seq<FileItem>, grandTotalKm: real)

  /** The name shown for a document whose first track is unnamed. */
  const DefaultName: string := "Activity"

  /** The grand total before any file is read. */
  const InitialTotalKm: real := 0.0

  function Load(entry: Entry): Result<LoadedFile, Failure> {
    match entry
    case Unlisted => Failure(GlobError)
    case Listed(path, CannotOpen) => Failure(IoError)
    case Listed(path, Unparsable) => Failure(ParseError)
    case Listed(path, Parsed(gpx)) => Success(LoadedFile(path, gpx))
  }

  /** The documents of one pattern's entries in order, or the first failure. */
  function LoadEntries(entries: seq<Entry>): Result<seq<LoadedFile>, Failure>
    decreases |entries|
  {
    if |entries| == 0 then Success([])
    else
      match LoadEntries(entries[..|entries| - 1])
      case Failure(e) => Failure(e)
      case Success(files) =>
        match Load(entries[|entries| - 1])
        case Failure(e) => Failure(e)
        case Success(file) => Success(files + [file])
  }

  /** The documents of all patterns in order, or the first failure. */
  function LoadAll(patterns: seq<Pattern>): Result<seq<LoadedFile>, Failure>
    decreases |patterns|
  {
    if |patterns| == 0 then Success([])
    else
      match LoadAll(patterns[..|patterns| - 1])
      case Failure(e) => Failure(e)
      case Success(files) =>
        match patterns[|patterns| - 1]
        case Malformed => Failure(PatternError)
        case Matches(entries) =>
          match LoadEntries(entries)
          case Failure(e) => Failure(e)
          case Success(more) => Success(files + more)
  }

  /** `f64::round`: to the nearest integer, halfway cases away from zero. */
  function Round(x: real): (r: int)
    ensures x - 0.5 <= r as real <= x + 0.5
    ensures r as real - x == 0.5 ==> x >= 0.0
    ensures x - r as real == 0.5 ==> x < 0.0
  {
    if x >= 0.0 then (x + 0.5).Floor else -((-x + 0.5).Floor)
  }

  function SumKm(items: seq<FileItem>): real
    decreases |items|
  {
    if |items| == 0 then InitialTotalKm
    else SumKm(items[..|items| - 1]) + items[|items| - 1].distance
  }

  /** The record the loop builds for one document. */
  ghost predicate Describes(leg: Leg, item: FileItem, file: LoadedFile) {
    && item.fileName == file.path
    && item.distance * 1000.0 == DocumentDistance(leg, file.gpx)
    && (TrackName(file.gpx).Some? ==> item.name == TrackName(file.gpx).value)
    && (TrackName(file.gpx).None? ==> item.name == DefaultName)
    && item.date == ""
    && item.elevation == Round(DocumentGain(file.gpx))
  }

  lemma {:induction false} EntriesFailurePersists(entries: seq<Entry>, k: nat)
    requires k <= |entries|
    requires LoadEntries(entries[..k]).Failure?
    ensures LoadEntries(entries) == LoadEntries(entries[..k])
    decreases |entries|
  {
    if k < |entries| {
      var init := entries[..|entries| - 1];
      assert init[..k] == entries[..k];
      EntriesFailurePersists(init, k);
    } else {
      assert entries[..k] == entries;
    }
  }

  lemma {:induction false} PatternsFailurePersists(patterns: seq<Pattern>, k: nat)
    requires k <= |patterns|
    requires LoadAll(patterns[..k]).Failure?
    ensures LoadAll(patterns) == LoadAll(patterns[..k])
    decreases |patterns|
  {
    if k < |patterns| {
      var init := patterns[..|patterns| - 1];
      assert init[..k] == patterns[..k];
      PatternsFailurePersists(init, k);
    } else {
      assert patterns[..k] == patterns;
    }
  }

  /** An entry that cannot be loaded, met after everything before it loaded,
      is the failure of the whole run. */
  lemma EntryFailureEndsRun(patterns: seq<Pattern>, p: nat, e: nat)
    requires p < |patterns| && patterns[p].Matches? && e < |patterns[p].entries|
    requires LoadAll(patterns[..p]).Success?
    requires LoadEntries(patterns[p].entries[..e]).Success?
    requires Load(patterns[p].entries[e]).Failure?
    ensures LoadAll(patterns) == Failure(Load(patterns[p].entries[e]).error)
  {
    var entries := patterns[p].entries;
    assert entries[..e + 1][..e] == entries[..e];
    EntriesFailurePersists(entries, e + 1);
    assert patterns[..p + 1][..p] == patterns[..p];
    PatternsFailurePersists(patterns, p + 1);
  }

  /** The record for one parsed document: its distance in kilometres, its
      first track's name or the fallback, an empty date and its elevation
      gain rounded to whole metres. */
  method Record(leg: Leg, path: string, gpx: Document) returns (item: FileItem)
    ensures Describes(leg, item, LoadedFile(path, gpx))
  {
    var distanceM := TotalDistance(leg, gpx);
    var distanceKm := distanceM / 1000.0;
    var name := TrackName(gpx).GetOr(DefaultName);
    var elevation := ElevationGain(gpx);
    item := FileItem(path, distanceKm, name, "", Round(elevation));
  }

  /** Record i describes file i, for every i. */
  ghost predicate Built(leg: Leg, items: seq<FileItem>, files: seq<LoadedFile>) {
    && |items| == |files|
    && forall i :: 0 <= i < |items| ==> Describes(leg, items[i], files[i])
  }

  lemma BuiltSnoc(leg: Leg, items: seq<FileItem>, files: seq<LoadedFile>, item: FileItem, file: LoadedFile)
    requires Built(leg, items, files) && Describes(leg, item, file)
    ensures Built(leg, items + [item], files + [file])
    ensures SumKm(items + [item]) == SumKm(items) + item.distance
  {
    assert (items + [item])[..|items|] == items;
  }

  /** The run as the program writes it: nested loops over patterns and their
      entries, one record appended and its kilometres added per parsed
      document, and an early return on the first failure. */
  method Run(leg: Leg, patterns: seq<Pattern>) returns (r: Result<Summary, Failure>)
    ensures LoadAll(patterns).Failure? ==> r == Failure(LoadAll(patterns).error)
    ensures LoadAll(patterns).Success? ==>
              && r.Success?
              && |r.value.items| == |LoadAll(patterns).value|
              && forall i :: 0 <= i < |r.value.items| ==> Describes(leg, r.value.items[i], LoadAll(patterns).value[i])
    ensures r.Success? ==> r.value.grandTotalKm == SumKm(r.value.items)
    ensures r.Success? && NonNegative(leg) ==> r.value.grandTotalKm >= 0.0
  {
    var items: seq<FileItem> := [];
    var total := InitialTotalKm;
    ghost var files: seq<LoadedFile> := [];
    for p := 0 to |patterns|
      invariant LoadAll(patterns[..p]) == Success(files)
      invariant Built(leg, items, files)
      invariant total == SumKm(items)
    {
      assert patterns[..p + 1][..p] == patterns[..p];
      match patterns[p]
      case Malformed =>
        PatternsFailurePersists(patterns, p + 1);
        return Failure(PatternError);
      case Matches(entries) =>
        ghost var more: seq<LoadedFile> := [];
        ghost var earlier := files;
        for e := 0 to |entries|
          invariant LoadEntries(entries[..e]) == Success(more)
          invariant files == earlier + more
          invariant Built(leg, items, files)
          invariant total == SumKm(items)
        {
          assert entries[..e + 1][..e] == entries[..e];
          match entries[e]
          case Unlisted =>
            EntryFailureEndsRun(patterns, p, e);
            return Failure(GlobError);
          case Listed(path, CannotOpen) =>
            EntryFailureEndsRun(patterns, p, e);
            return Failure(IoError);
          case Listed(path, Unparsable) =>
            EntryFailureEndsRun(patterns, p, e);
            return Failure(ParseError);
          case Listed(path, Parsed(gpx)) =>
            var item := Record(leg, path, gpx);
            BuiltSnoc(leg, items, files, item, LoadedFile(path, gpx));
            items := items + [item];
            total := total + item.distance;
            more := more + [LoadedFile(path, gpx)];
            files := files + [LoadedFile(path, gpx)];
        }
        assert entries[..|entries|] == entries;
    }
    assert patterns[..|patterns|] == patterns;
    if NonNegative(leg) {
      GrandTotalNonNegative(leg, items, files);
    }
    return Success(Summary(items, total));
  }

  /** A pattern stops the run when it is malformed or one of its entries
      cannot be loaded. */
  ghost predicate PatternFails(pattern: Pattern) {
    pattern.Malformed? || exists j :: 0 <= j < |pattern.entries| && Load(pattern.entries[j]).Failure?
  }

  lemma {:induction false} EntriesFailIffSomeEntryFails(entries: seq<Entry>)
    ensures LoadEntries(entries).Failure? <==> exists j :: 0 <= j < |entries| && Load(entries[j]).Failure?
    decreases |entries|
  {
    if |entries| > 0 {
      var init := entries[..|entries| - 1];
      EntriesFailIffSomeEntryFails(init);
      if exists j :: 0 <= j < |init| && Load(init[j]).Failure? {
        var j :| 0 <= j < |init| && Load(init[j]).Failure?;
        assert entries[j] == init[j];
      }
    }
  }

  /** Any failure anywhere aborts the run, and the run fails only for one. */
  lemma {:induction false} RunFailsIffSomeInputFails(patterns: seq<Pattern>)
    ensures LoadAll(patterns).Failure? <==> exists i :: 0 <= i < |patterns| && PatternFails(patterns[i])
    decreases |patterns|
  {
    if |patterns| > 0 {
      var init := patterns[..|patterns| - 1];
      var last := patterns[|patterns| - 1];
      RunFailsIffSomeInputFails(init);
      if last.Matches? {
        EntriesFailIffSomeEntryFails(last.entries);
      }
      if exists i :: 0 <= i < |init| && PatternFails(init[i]) {
        var i :| 0 <= i < |init| && PatternFails(init[i]);
        assert patterns[i] == init[i];
      }
    }
  }

  /** Within a pattern, one document per entry, in the order the expansion
      listed them. */
  lemma {:induction false} EntriesKeepOrder(entries: seq<Entry>)
    requires LoadEntries(entries).Success?
    ensures |LoadEntries(entries).value| == |entries|
    ensures forall j :: 0 <= j < |entries| ==>
              var file := LoadEntries(entries).value[j];
              entries[j] == Listed(file.path, Parsed(file.gpx))
    decreases |entries|
  {
    if |entries| > 0 {
      EntriesKeepOrder(entries[..|entries| - 1]);
    }
  }

  /** Across patterns, the documents of earlier arguments come first: the
      documents of `a + b` are those of `a` followed by those of `b`. */
  lemma {:induction false} PatternsKeepOrder(a: seq<Pattern>, b: seq<Pattern>)
    ensures LoadAll(a + b).Success? <==> LoadAll(a).Success? && LoadAll(b).Success?
    ensures LoadAll(a + b).Success? ==> LoadAll(a + b).value == LoadAll(a).value + LoadAll(b).value
    decreases |b|
  {
    if |b| == 0 {
      assert a + b == a;
    } else {
      var b' := b[..|b| - 1];
      PatternsKeepOrder(a, b');
      assert (a + b)[..|a + b| - 1] == a + b';
      assert (a + b)[|a + b| - 1] == b[|b| - 1];
      if LoadAll(a + b).Success? {
        var last := b[|b| - 1];
        var more := LoadEntries(last.entries).value;
        assert LoadAll(a + b).value == LoadAll(a + b').value + more;
        assert LoadAll(b).value == LoadAll(b').value + more;
        assert (LoadAll(a).value + LoadAll(b').value) + more == LoadAll(a).value + (LoadAll(b').value + more);
      }
    }
  }

  /** With a non-negative leg distance every record's distance, and so the
      grand total, is non-negative. */
  lemma {:induction false} GrandTotalNonNegative(leg: Leg, items: seq<FileItem>, files: seq<LoadedFile>)
    requires NonNegative(leg)
    requires |items| == |files|
    requires forall i :: 0 <= i < |items| ==> Describes(leg, items[i], files[i])
    ensures SumKm(items) >= 0.0
    decreases |items|
  {
    if |items| > 0 {
      var n := |items| - 1;
      GrandTotalNonNegative(leg, items[..n], files[..n]);
      DistanceNonNegative(leg, files[n].gpx);
    }
  }

  /** A document without tracks has no name, no distance, no gain and no
      time range. */
  lemma EmptyDocumentMetrics(leg: Leg)
    ensures TrackName(Document([])).None?
    ensures DocumentDistance(leg, Document([])) == 0.0
    ensures DocumentGain(Document([])) == 0.0
    ensures StartEnd(Document([])).None?
  {
  }

  /** A pattern that matches no file is not a failure: it adds no record
      and leaves the outcome of the rest of the run unchanged. */
  lemma {:induction false} UnmatchedPatternSkipped(a: seq<Pattern>, b: seq<Pattern>)
    ensures LoadAll(a + [Matches([])] + b) == LoadAll(a + b)
    decreases |b|
  {
    if |b| == 0 {
      assert a + [Matches([])] + b == a + [Matches([])];
      assert (a + [Matches([])])[..|a|] == a;
      assert LoadEntries([]) == Success([]);
      if LoadAll(a).Success? {
        assert LoadAll(a).value + [] == LoadAll(a).value;
      }
      assert a + b == a;
    } else {
      var b' := b[..|b| - 1];
      UnmatchedPatternSkipped(a, b');
      assert (a + [Matches([])] + b)[..|a| + |b|] == a + [Matches([])] + b';
      assert (a + [Matches([])] + b)[|a| + |b|] == b[|b| - 1];
      assert (a + b)[..|a + b| - 1] == a + b';
      assert (a + b)[|a + b| - 1] == b[|b| - 1];
    }
  }

  /** Two files of 5000 m and 3200 m, each matched by its own pattern, load
      in argument order; records built from them are in that order, carry
      5.0 km and 3.2 km, and add up to a grand total of 8.2 km. */
  lemma TwoFileScenario(leg: Leg, p1: string, d1: Document, p2: string, d2: Document, items: seq<FileItem>)
    requires DocumentDistance(leg, d1) == 5000.0 && DocumentDistance(leg, d2) == 3200.0
    requires Built(leg, items, [LoadedFile(p1, d1), LoadedFile(p2, d2)])
    ensures LoadAll([Matches([Listed(p1, Parsed(d1))]), Matches([Listed(p2, Parsed(d2))])])
            == Success([LoadedFile(p1, d1), LoadedFile(p2, d2)])
    ensures items[0].fileName == p1 && items[1].fileName == p2
    ensures items[0].distance == 5.0 && items[1].distance == 3.2
    ensures SumKm(items) == 8.2
  {
    var first := Matches([Listed(p1, Parsed(d1))]);
    var second := Matches([Listed(p2, Parsed(d2))]);
    assert [Listed(p1, Parsed(d1))][..0] == [];
    assert [Listed(p2, Parsed(d2))][..0] == [];
    assert Load(Listed(p1, Parsed(d1))) == Success(LoadedFile(p1, d1));
    assert [] + [LoadedFile(p1, d1)] == [LoadedFile(p1, d1)];
    assert LoadEntries(first.entries) == Success([LoadedFile(p1, d1)]);
    assert Load(Listed(p2, Parsed(d2))) == Success(LoadedFile(p2, d2));
    assert [] + [LoadedFile(p2, d2)] == [LoadedFile(p2, d2)];
    assert LoadEntries(second.entries) == Success([LoadedFile(p2, d2)]);
    assert [first, second][..1] == [first];
    assert [first][..0] == [];
    assert LoadAll([]) == Success([]);
    assert [] + [LoadedFile(p1, d1)] == [LoadedFile(p1, d1)];
    assert LoadAll([first]) == Success([LoadedFile(p1, d1)]);
    assert [LoadedFile(p1, d1)] + [LoadedFile(p2, d2)] == [LoadedFile(p1, d1), LoadedFile(p2, d2)];
    assert LoadAll([first, second]) == Success([LoadedFile(p1, d1), LoadedFile(p2, d2)]);
    assert items[..1] == [items[0]];
    assert [items[0]][..0] == [];
    assert SumKm([items[0]]) == InitialTotalKm + 5.0;
  }
}
