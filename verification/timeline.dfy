/** Ingestion of a location-history file (the `timelineFile` handler, src.js
    lines 92-99): every segment that has a `timelinePath` contributes, in
    order, the entries whose `point` text splits into exactly two
    coordinates; the points are pushed onto the end of `path`.

    `parseNumber` stands for `v => parseFloat(v.trim())` and `parseDate` for
    `Date.parse`; both are library parsers and stay uninterpreted. */
module Timeline {
  import opened Wrappers
  import opened Points
  import opened Strings

  /** The degree sign U+00B0 that decorates the coordinates of a `point`. */
  const Degree: char := '\U{00B0}'

  /** One element of a `timelinePath`: `{ point: "<lat>°, <lon>°", time: "<date-time>" }`. */
  datatype Entry = Entry(point: string, time: string)

  /** One element of `semanticSegments`; `timelinePath` may be absent. */
  datatype Segment = Segment(timelinePath: Option<seq<Entry>>)

  /** `entry.point.replace('°', '').split(',')`. */
  function Parts(e: Entry): seq<string>
  {
    Split(RemoveFirst(e.point, Degree), ',')
  }

  /** The body of the inner `forEach`, as written: the parsed coordinates and
      time become a point when there are exactly two coordinates and the time
      passes the guard `time != NaN`. Since `x != NaN` holds for every number
      (NaN included), the guard never rejects: the entry is kept exactly when
      its `point` text has one comma, and an unparsable time is stored as NaN. */
  function AcceptEntry(e: Entry, parseNumber: string -> Double, parseDate: string -> Millis): (r: Option<Point>)
    ensures r.Some? <==> Count(e.point, ',') == 1
    ensures r.Some? ==> r.value.time == parseDate(e.time)
    ensures r.Some? ==> |Parts(e)| == 2 && r.value.lat == parseNumber(Parts(e)[0]) && r.value.lon == parseNumber(Parts(e)[1])
  {
    var parts := Parts(e);
    var point := seq(|parts|, i requires 0 <= i < |parts| => parseNumber(parts[i]));
    var time := parseDate(e.time);
    SplitLength(RemoveFirst(e.point, Degree), ',');
    RemoveFirstKeepsCount(e.point, Degree, ',');
    if |point| == 2 && NotEqual(time, NaN) then Some(Point(point[0], point[1], time)) else None
  }

  /** The evidently intended test `!isNaN(time)`: an entry whose time does not
      parse is dropped rather than stored with a NaN time. */
  function AcceptEntryChecked(e: Entry, parseNumber: string -> Double, parseDate: string -> Millis): (r: Option<Point>)
    ensures r.Some? <==> Count(e.point, ',') == 1 && parseDate(e.time) != NaN
    ensures r.Some? ==> r.value.time != NaN && r.value.time == parseDate(e.time)
    ensures r.Some? ==> |Parts(e)| == 2 && r.value.lat == parseNumber(Parts(e)[0]) && r.value.lon == parseNumber(Parts(e)[1])
  {
    if parseDate(e.time) == NaN then None else AcceptEntry(e, parseNumber, parseDate)
  }

  /** The entry test of the script as written, as a value for the loops below. */
  function Accepter(parseNumber: string -> Double, parseDate: string -> Millis): Entry -> Option<Point>
  {
    e => AcceptEntry(e, parseNumber, parseDate)
  }

  /** The entry test with the intended NaN check. */
  function CheckedAccepter(parseNumber: string -> Double, parseDate: string -> Millis): Entry -> Option<Point>
  {
    e => AcceptEntryChecked(e, parseNumber, parseDate)
  }

  /** The points `accept` keeps from `entries`, in entry order. */
  function EntryPoints(entries: seq<Entry>, accept: Entry -> Option<Point>): (r: seq<Point>)
    ensures |r| <= |entries|
  {
    if |entries| == 0 then []
    else
      var n := |entries| - 1;
      EntryPoints(entries[..n], accept)
      + (match accept(entries[n])
         case Some(p) => [p]
         case None => [])
  }

  /** The entries a segment offers: none when `timelinePath` is absent
      (`if (!segment.timelinePath) return;`). */
  function SegmentEntries(segment: Segment): seq<Entry>
  {
    match segment.timelinePath
    case Some(entries) => entries
    case None => []
  }

  /** The entries of a file in visiting order: segment by segment, then entry
      by entry within a segment. */
  function FileEntries(segments: seq<Segment>): seq<Entry>
  {
    if |segments| == 0 then []
    else
      var n := |segments| - 1;
      FileEntries(segments[..n]) + SegmentEntries(segments[n])
  }

  /** The inner `forEach` of src.js lines 94-100: each kept entry is pushed
      onto `path`, in entry order. */
  method IngestEntries(path0: seq<Point>, entries: seq<Entry>, accept: Entry -> Option<Point>)
    returns (path: seq<Point>)
    ensures path == path0 + EntryPoints(entries, accept)
  {
    path := path0;
    var j := 0;
    while j < |entries|
      invariant 0 <= j <= |entries|
      invariant path == path0 + EntryPoints(entries[..j], accept)
    {
      assert entries[..j + 1][..j] == entries[..j];
      match accept(entries[j]) {
        case Some(p) => path := path + [p];
        case None =>
      }
      j := j + 1;
    }
    assert entries[..|entries|] == entries;
  }

  /** The outer `forEach` of src.js lines 92-101 over `semanticSegments`: the
      points of the file's entries, in visiting order, are appended after the
      points already in `path`, which stay in place. */
  method IngestSegments(path0: seq<Point>, segments: seq<Segment>, accept: Entry -> Option<Point>)
    returns (path: seq<Point>)
    ensures path == path0 + EntryPoints(FileEntries(segments), accept)
  {
    path := path0;
    var i := 0;
    while i < |segments|
      invariant 0 <= i <= |segments|
      invariant path == path0 + EntryPoints(FileEntries(segments[..i]), accept)
    {
      // A segment without `timelinePath` offers no entries, as its early `return` does.
      ghost var done := path;
      path := IngestEntries(path, SegmentEntries(segments[i]), accept);
      IngestStep(path0, segments, i, accept, done, path);
      i := i + 1;
    }
    assert segments[..|segments|] == segments;
  }

  /** One iteration of the outer loop keeps its invariant: the segment's points
      follow the points of the segments before it. */
  lemma IngestStep(path0: seq<Point>, segments: seq<Segment>, i: int, accept: Entry -> Option<Point>, before: seq<Point>, after: seq<Point>)
    requires 0 <= i < |segments|
    requires before == path0 + EntryPoints(FileEntries(segments[..i]), accept)
    requires after == before + EntryPoints(SegmentEntries(segments[i]), accept)
    ensures after == path0 + EntryPoints(FileEntries(segments[..i + 1]), accept)
  {
    var seen, next := FileEntries(segments[..i]), SegmentEntries(segments[i]);
    calc {
      after;
      before + EntryPoints(next, accept);
      (path0 + EntryPoints(seen, accept)) + EntryPoints(next, accept);
      { AppendAssociates(path0, EntryPoints(seen, accept), EntryPoints(next, accept)); }
      path0 + (EntryPoints(seen, accept) + EntryPoints(next, accept));
      { EntryPointsAppend(seen, next, accept); }
      path0 + EntryPoints(seen + next, accept);
      { FileEntriesStep(segments, i); }
      path0 + EntryPoints(FileEntries(segments[..i + 1]), accept);
    }
  }

  /** One more segment adds its entries at the end. */
  lemma FileEntriesStep(segments: seq<Segment>, i: int)
    requires 0 <= i < |segments|
    ensures FileEntries(segments[..i + 1]) == FileEntries(segments[..i]) + SegmentEntries(segments[i])
  {
    var prefix := segments[..i + 1];
    assert prefix[..i] == segments[..i];
    assert prefix[i] == segments[i];
  }

  /** Concatenation is associative. */
  lemma AppendAssociates<T>(a: seq<T>, b: seq<T>, c: seq<T>)
    ensures (a + b) + c == a + (b + c)
  {
  }

  /** The `timelineFile` handler's ingestion with the entry test as written. */
  method IngestTimeline(path0: seq<Point>, segments: seq<Segment>, parseNumber: string -> Double, parseDate: string -> Millis)
    returns (path: seq<Point>)
    ensures path == path0 + EntryPoints(FileEntries(segments), Accepter(parseNumber, parseDate))
  {
    path := IngestSegments(path0, segments, Accepter(parseNumber, parseDate));
  }

  /** The same ingestion with the intended guard: the appended points are the
      checked entry points, and none of them has a NaN time. */
  method IngestTimelineChecked(path0: seq<Point>, segments: seq<Segment>, parseNumber: string -> Double, parseDate: string -> Millis)
    returns (path: seq<Point>)
    ensures path == path0 + EntryPoints(FileEntries(segments), CheckedAccepter(parseNumber, parseDate))
    ensures forall i :: |path0| <= i < |path| ==> path[i].time != NaN
  {
    path := IngestSegments(path0, segments, CheckedAccepter(parseNumber, parseDate));
    CheckedIngestionHasTimes(segments, parseNumber, parseDate);
    assert forall i :: |path0| <= i < |path| ==> path[i] == path[|path0|..][i - |path0|];
  }

  /** Entry points distribute over concatenation of entry lists. */
  lemma {:induction false} EntryPointsAppend(a: seq<Entry>, b: seq<Entry>, accept: Entry -> Option<Point>)
    ensures EntryPoints(a + b, accept) == EntryPoints(a, accept) + EntryPoints(b, accept)
  {
    if |b| > 0 {
      var n := |b| - 1;
      EntryPointsAppend(a, b[..n], accept);
      assert (a + b)[..|a + b| - 1] == a + b[..n];
    } else {
      assert a + b == a;
    }
  }

  /** File entries distribute over concatenation of segment lists. */
  lemma {:induction false} FileEntriesAppend(a: seq<Segment>, b: seq<Segment>)
    ensures FileEntries(a + b) == FileEntries(a) + FileEntries(b)
  {
    if |b| > 0 {
      var n := |b| - 1;
      FileEntriesAppend(a, b[..n]);
      assert (a + b)[..|a + b| - 1] == a + b[..n];
    } else {
      assert a + b == a;
    }
  }

  /** With the test as written, a single entry contributes its point exactly
      when its `point` text has one comma, and nothing otherwise. */
  lemma EntryPointsSingle(e: Entry, parseNumber: string -> Double, parseDate: string -> Millis)
    ensures Count(e.point, ',') == 1
            ==> EntryPoints([e], Accepter(parseNumber, parseDate)) == [AcceptEntry(e, parseNumber, parseDate).value]
    ensures Count(e.point, ',') != 1 ==> EntryPoints([e], Accepter(parseNumber, parseDate)) == []
  {
    assert [e][..0] == [];
  }

  /** A malformed entry (say `"35.0°"`, one coordinate) contributes nothing and
      does not disturb its siblings. */
  lemma MalformedEntrySkipped(before: seq<Entry>, bad: Entry, after: seq<Entry>, parseNumber: string -> Double, parseDate: string -> Millis)
    requires Count(bad.point, ',') != 1
    ensures EntryPoints(before + [bad] + after, Accepter(parseNumber, parseDate))
            == EntryPoints(before + after, Accepter(parseNumber, parseDate))
  {
    var accept := Accepter(parseNumber, parseDate);
    calc {
      EntryPoints(before + [bad] + after, accept);
    == { EntryPointsAppend(before + [bad], after, accept); }
      EntryPoints(before + [bad], accept) + EntryPoints(after, accept);
    == { EntryPointsAppend(before, [bad], accept); EntryPointsSingle(bad, parseNumber, parseDate); }
      EntryPoints(before, accept) + EntryPoints(after, accept);
    == { EntryPointsAppend(before, after, accept); }
      EntryPoints(before + after, accept);
    }
  }

  /** A segment without `timelinePath` is skipped. */
  lemma SegmentWithoutPathSkipped(before: seq<Segment>, after: seq<Segment>)
    ensures FileEntries(before + [Segment(None)] + after) == FileEntries(before + after)
  {
    var none := [Segment(None)];
    calc {
      FileEntries(before + none + after);
    == { FileEntriesAppend(before + none, after); }
      FileEntries(before + none) + FileEntries(after);
    == { FileEntriesAppend(before, none); assert none[..0] == []; }
      FileEntries(before) + FileEntries(after);
    == { FileEntriesAppend(before, after); }
      FileEntries(before + after);
    }
  }

  /** Ingesting two files one after the other is ingesting their segments in
      sequence: earlier points are never reordered or removed. */
  lemma IngestionComposes(path: seq<Point>, a: seq<Segment>, b: seq<Segment>, accept: Entry -> Option<Point>)
    ensures (path + EntryPoints(FileEntries(a), accept)) + EntryPoints(FileEntries(b), accept)
            == path + EntryPoints(FileEntries(a + b), accept)
  {
    var pa, pb := EntryPoints(FileEntries(a), accept), EntryPoints(FileEntries(b), accept);
    calc {
      (path + pa) + pb;
      { AppendAssociates(path, pa, pb); }
      path + (pa + pb);
      { EntryPointsAppend(FileEntries(a), FileEntries(b), accept); }
      path + EntryPoints(FileEntries(a) + FileEntries(b), accept);
      { FileEntriesAppend(a, b); }
      path + EntryPoints(FileEntries(a + b), accept);
    }
  }

  /** The guard `time != NaN` holds for every time, NaN included. */
  lemma NaNGuardNeverRejects(t: Millis)
    ensures NotEqual(t, NaN)
  {
  }

  /** A `point` text of the shape `<lat>°,<lon>` with no degree sign or comma
      in `lat` and no comma in `lon` splits into `lat` and `lon`. */
  lemma PairParts(e: Entry, lat: string, lon: string)
    requires Degree !in lat && ',' !in lat && ',' !in lon
    requires e.point == lat + [Degree] + ([','] + lon)
    ensures Parts(e) == [lat, lon]
  {
    calc {
      Parts(e);
      Split(RemoveFirst(e.point, Degree), ',');
      { RemoveFirstAt(lat, Degree, [','] + lon); }
      Split(lat + ([','] + lon), ',');
      { AppendAssociates(lat, [','], lon); }
      Split(lat + [','] + lon, ',');
      { SplitAt(lat, ',', lon); }
      [lat] + Split(lon, ',');
      { SplitFree(lon, ','); }
      [lat, lon];
    }
  }

  /** Such a `point` text has exactly one comma. */
  lemma PairCount(e: Entry, lat: string, lon: string)
    requires Degree !in lat && ',' !in lat && ',' !in lon
    requires e.point == lat + [Degree] + ([','] + lon)
    ensures Count(e.point, ',') == 1
  {
    CountConcat(lat + [Degree], [','] + lon, ',');
    CountConcat(lat, [Degree], ',');
    CountConcat([','], lon, ',');
    CountAbsent(lat, ',');
    CountAbsent(lon, ',');
    assert Count([Degree], ',') == 0;
  }

  /** An entry whose `point` text is `"35.0°, 139.0°"`: the first
      degree sign is removed, the comma splits the text into `"35.0"` and
      `" 139.0°"`, and both halves go to the number parser. */
  lemma ExampleEntry(e: Entry, parseNumber: string -> Double, parseDate: string -> Millis)
    requires e.point == "35.0\U{00B0}, 139.0\U{00B0}"
    ensures AcceptEntry(e, parseNumber, parseDate)
            == Some(Point(parseNumber("35.0"), parseNumber(" 139.0\U{00B0}"), parseDate(e.time)))
  {
    var lat, lon := "35.0", " 139.0\U{00B0}";
    assert e.point == lat + [Degree] + ([','] + lon);
    PairParts(e, lat, lon);
    PairCount(e, lat, lon);
  }

  /** The discrepancy of the guard on that entry: when its time does not
      parse, it is still stored, with a NaN time. */
  lemma NaNTimeIsStored(e: Entry, parseNumber: string -> Double, parseDate: string -> Millis)
    requires e.point == "35.0\U{00B0}, 139.0\U{00B0}"
    requires parseDate(e.time) == NaN
    ensures EntryPoints(FileEntries([Segment(Some([e]))]), Accepter(parseNumber, parseDate))
            == [Point(parseNumber("35.0"), parseNumber(" 139.0\U{00B0}"), NaN)]
  {
    ExampleEntry(e, parseNumber, parseDate);
    EntryPointsSingle(e, parseNumber, parseDate);
    assert [Segment(Some([e]))][..0] == [];
    assert FileEntries([Segment(Some([e]))]) == [e];
  }

  /** No point that passes `CheckedAccepter` has a NaN time. */
  ghost predicate NoNaNTimes(points: seq<Point>)
  {
    forall i :: 0 <= i < |points| ==> points[i].time != NaN
  }

  lemma {:induction false} CheckedEntriesHaveTimes(entries: seq<Entry>, parseNumber: string -> Double, parseDate: string -> Millis)
    ensures NoNaNTimes(EntryPoints(entries, CheckedAccepter(parseNumber, parseDate)))
  {
    if |entries| > 0 {
      CheckedEntriesHaveTimes(entries[..|entries| - 1], parseNumber, parseDate);
    }
  }

  /** With the intended guard, ingestion never stores a NaN time. */
  lemma CheckedIngestionHasTimes(segments: seq<Segment>, parseNumber: string -> Double, parseDate: string -> Millis)
    ensures NoNaNTimes(EntryPoints(FileEntries(segments), CheckedAccepter(parseNumber, parseDate)))
  {
    CheckedEntriesHaveTimes(FileEntries(segments), parseNumber, parseDate);
  }

}
