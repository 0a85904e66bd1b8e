/** The `<coordinates>` text of the KML export (src.js lines 130-133): for each
    visible point in order, `lon + ',' + lat + ',0.0 '`. */
module Kml {
  import opened Points
  import opened Strings

  /** One vertex without its trailing space: longitude, latitude, altitude 0.
      `show` is JavaScript's number-to-string conversion. */
  function VertexText(p: Point, show: Double -> string): string
  {
    show(p.lon) + "," + show(p.lat) + ",0.0"
  }

  /** What one iteration appends: the vertex and a separating space. */
  function Line(p: Point, show: Double -> string): string
  {
    VertexText(p, show) + " "
  }

  /** The text after the `forEach` has appended every point of `drawPath`. */
  function Coordinates(drawPath: seq<Point>, show: Double -> string): (text: string)
    ensures |drawPath| == 0 ==> text == ""
  {
    if |drawPath| == 0 then ""
    else
      var n := |drawPath| - 1;
      Coordinates(drawPath[..n], show) + Line(drawPath[n], show)
  }

  /** The loop itself: `textContent` starts empty and grows by one vertex per
      point. */
  method BuildCoordinates(drawPath: seq<Point>, show: Double -> string) returns (textContent: string)
    ensures textContent == Coordinates(drawPath, show)
  {
    textContent := "";
    var i := 0;
    while i < |drawPath|
      invariant 0 <= i <= |drawPath|
      invariant textContent == Coordinates(drawPath[..i], show)
    {
      var latlng := drawPath[i];
      assert drawPath[..i + 1][..i] == drawPath[..i];
      textContent := textContent + (show(latlng.lon) + "," + show(latlng.lat) + ",0.0 ");
      i := i + 1;
    }
    assert drawPath[..|drawPath|] == drawPath;
  }

  /** The text of a concatenation is the concatenation of the texts: the
      export is built point by point in path order. */
  lemma {:induction false} CoordinatesAppend(a: seq<Point>, b: seq<Point>, show: Double -> string)
    ensures Coordinates(a + b, show) == Coordinates(a, show) + Coordinates(b, show)
    decreases |b|
  {
    if |b| == 0 {
      assert a + b == a;
    } else {
      var n := |b| - 1;
      var tail := Line(b[n], show);
      assert (a + b)[..|a + b| - 1] == a + b[..n];
      assert (a + b)[|a + b| - 1] == b[n];
      calc {
        Coordinates(a + b, show);
        Coordinates(a + b[..n], show) + tail;
        { CoordinatesAppend(a, b[..n], show); }
        Coordinates(a, show) + Coordinates(b[..n], show) + tail;
        Coordinates(a, show) + (Coordinates(b[..n], show) + tail);
        Coordinates(a, show) + Coordinates(b, show);
      }
    }
  }

  /** The text of the vertices, one string per point. */
  function VertexTexts(drawPath: seq<Point>, show: Double -> string): seq<string>
  {
    if |drawPath| == 0 then [] else [VertexText(drawPath[0], show)] + VertexTexts(drawPath[1..], show)
  }

  /** When no number prints with a space or a comma, the text reads back: split
      on spaces, it gives one vertex per point in order, then an empty tail
      after the final space. */
  lemma {:induction false} CoordinatesReadBack(drawPath: seq<Point>, show: Double -> string)
    requires forall d :: ' ' !in show(d) && ',' !in show(d)
    ensures Split(Coordinates(drawPath, show), ' ') == VertexTexts(drawPath, show) + [""]
  {
    if |drawPath| == 0 {
      assert Coordinates(drawPath, show) == "";
    } else {
      var head, rest := drawPath[0], drawPath[1..];
      var v := VertexText(head, show);
      calc {
        Coordinates(drawPath, show);
        { assert drawPath == [head] + rest; CoordinatesAppend([head], rest, show); }
        Coordinates([head], show) + Coordinates(rest, show);
        { assert [head][..0] == []; }
        v + [' '] + Coordinates(rest, show);
      }
      VertexHasNoSpace(head, show);
      SplitAt(v, ' ', Coordinates(rest, show));
      CoordinatesReadBack(rest, show);
    }
  }

  /** A vertex has no space when neither printed number has one. */
  lemma VertexHasNoSpace(p: Point, show: Double -> string)
    requires ' ' !in show(p.lon) && ' ' !in show(p.lat)
    ensures ' ' !in VertexText(p, show)
  {
  }

  /** Each vertex splits on commas into longitude, latitude and `0.0`. */
  lemma VertexFields(p: Point, show: Double -> string)
    requires ',' !in show(p.lon) && ',' !in show(p.lat)
    ensures Split(VertexText(p, show), ',') == [show(p.lon), show(p.lat), "0.0"]
  {
    var lon, lat := show(p.lon), show(p.lat);
    calc {
      Split(VertexText(p, show), ',');
      { assert VertexText(p, show) == lon + [','] + (lat + [','] + "0.0"); SplitAt(lon, ',', lat + [','] + "0.0"); }
      [lon] + Split(lat + [','] + "0.0", ',');
      { SplitAt(lat, ',', "0.0"); }
      [lon] + ([lat] + Split("0.0", ','));
      { SplitFree("0.0", ','); }
      [lon, lat, "0.0"];
    }
  }
}
