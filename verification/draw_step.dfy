/** The state step of `draw` (src.js lines 18-51 and 74-77), with the Leaflet
    rendering left out. The page's globals and controls are gathered into one
    record, and `draw` becomes a pure transition on it. */
module DrawStep {
  import opened Wrappers
  import opened Points
  import opened WindowFilter
  import opened UrlParams

  /** `path` and `drawPath` are the two globals. `filterOn`, `startText` and
      `endText` are the checkbox and the two datetime fields. `params` is
      `url.searchParams`, and `history` lists the parameter sets pushed with
      `history.pushState`, oldest first. */
  datatype View = View(
    path: seq<Point>,
    drawPath: seq<Point>,
    filterOn: bool,
    startText: string,
    endText: string,
    params: Params,
    history: seq<Params>)

  /** The window `draw` parses from the two fields. */
  function WindowOf(v: View, parseDate: string -> Millis): Window
  {
    Window(parseDate(v.startText), parseDate(v.endText))
  }

  /** The path `draw` works on: the argument if one is given, else the global. */
  function ChosenPath(v: View, specifyPath: Option<seq<Point>>): seq<Point>
  {
    if specifyPath.Some? then specifyPath.value else v.path
  }

  /** One call `draw(specifyPath)`. `parseDate` is `Date.parse`, and `encode`
      is `compress(JSON.stringify(_))`. The call never touches the controls or
      any parameter other than `s`, `e` and `p`. It pushes at most one
      history entry, and that entry is the new parameter set. */
  function Draw(v: View, specifyPath: Option<seq<Point>>, parseDate: string -> Millis,
                encode: seq<Point> -> string): (r: View)
    ensures r.path == ChosenPath(v, specifyPath)
    ensures r.filterOn == v.filterOn && r.startText == v.startText && r.endText == v.endText
    ensures SameOutsideView(r.params, v.params)
    ensures r.history == v.history || r.history == v.history + [r.params]
  {
    var path := ChosenPath(v, specifyPath);
    if |path| == 0 then v.(path := path)
    else
      var drawPath := if v.filterOn then Filter(path, WindowOf(v, parseDate)) else path;
      var params := if v.filterOn then v.params["s" := v.startText]["e" := v.endText] else v.params;
      if |drawPath| == 0 then v.(path := path, drawPath := drawPath, params := params)
      else
        var pushed := params["p" := encode(drawPath)];
        v.(path := path, drawPath := drawPath, params := pushed, history := v.history + [pushed])
  }

  /** An empty path returns at once: only `path` takes the (empty) argument.
      `drawPath` keeps whatever it held before. */
  lemma DrawEmptyPath(v: View, specifyPath: Option<seq<Point>>, parseDate: string -> Millis,
                      encode: seq<Point> -> string)
    requires ChosenPath(v, specifyPath) == []
    ensures Draw(v, specifyPath, parseDate, encode) == v.(path := [])
  {
  }

  /** With filtering off, a non-empty path is drawn whole. `s` and `e` are
      left as they were. */
  lemma DrawUnfiltered(v: View, specifyPath: Option<seq<Point>>, parseDate: string -> Millis,
                       encode: seq<Point> -> string)
    requires !v.filterOn
    ensures var r := Draw(v, specifyPath, parseDate, encode);
            |r.path| > 0 ==>
              && r.drawPath == r.path
              && ("s" in r.params <==> "s" in v.params)
              && ("s" in v.params ==> r.params["s"] == v.params["s"])
              && ("e" in r.params <==> "e" in v.params)
              && ("e" in v.params ==> r.params["e"] == v.params["e"])
  {
  }

  /** With filtering on, a non-empty path is drawn through the window parsed
      from the fields. `s` and `e` then hold the raw field text, whether or
      not it parses. */
  lemma DrawFiltered(v: View, specifyPath: Option<seq<Point>>, parseDate: string -> Millis,
                     encode: seq<Point> -> string)
    requires v.filterOn
    ensures var r := Draw(v, specifyPath, parseDate, encode);
            |r.path| > 0 ==>
              && r.drawPath == Filter(r.path, WindowOf(v, parseDate))
              && "s" in r.params && r.params["s"] == v.startText
              && "e" in r.params && r.params["e"] == v.endText
  {
  }

  /** `p` is written, and a history entry pushed, exactly when both the path and
      the visible path are non-empty. The value is the encoding of the visible
      path, not of the whole path. Otherwise `p` and the history stay as they
      were. */
  lemma DrawWritesToken(v: View, specifyPath: Option<seq<Point>>, parseDate: string -> Millis,
                        encode: seq<Point> -> string)
    ensures var r := Draw(v, specifyPath, parseDate, encode);
            if |r.path| > 0 && |r.drawPath| > 0 then
              && "p" in r.params && r.params["p"] == encode(r.drawPath)
              && r.history == v.history + [r.params]
            else
              && ("p" in r.params <==> "p" in v.params)
              && ("p" in v.params ==> r.params["p"] == v.params["p"])
              && r.history == v.history
  {
  }

  /** With filtering on, every point the shared token encodes lies strictly
      inside the window. */
  lemma TokenHoldsOnlyVisiblePoints(v: View, specifyPath: Option<seq<Point>>, parseDate: string -> Millis,
                                    encode: seq<Point> -> string, p: Point)
    requires v.filterOn
    requires |ChosenPath(v, specifyPath)| > 0
    ensures var r := Draw(v, specifyPath, parseDate, encode);
            p in r.drawPath <==> p in ChosenPath(v, specifyPath) && InWindow(WindowOf(v, parseDate), p.time)
  {
    FilterMembership(ChosenPath(v, specifyPath), WindowOf(v, parseDate), p);
  }

  /** Redrawing without an argument changes nothing but possibly pushes a
      duplicate of the current parameters. */
  lemma DrawIdempotent(v: View, specifyPath: Option<seq<Point>>, parseDate: string -> Millis,
                       encode: seq<Point> -> string)
    ensures var r1 := Draw(v, specifyPath, parseDate, encode);
            var r2 := Draw(r1, None, parseDate, encode);
            && r2.path == r1.path && r2.drawPath == r1.drawPath && r2.params == r1.params
            && (r2.history == r1.history || r2.history == r1.history + [r1.params])
  {
    var r1 := Draw(v, specifyPath, parseDate, encode);
    var r2 := Draw(r1, None, parseDate, encode);
    if |r1.path| > 0 {
      if v.filterOn {
        assert r1.params["s"] == v.startText && r1.params["e"] == v.endText;
      }
      if |r1.drawPath| > 0 {
        assert r1.params["p"] == encode(r1.drawPath);
      }
    }
  }

  /** `url.searchParams.get(key)` is truthy: the parameter is present and is
      not the empty string. */
  predicate Given(params: Params, key: string)
  {
    key in params && params[key] != ""
  }

  /** The field restore of `init` (src.js lines 206-218), read from the page's
      own parameters. A truthy `s` or `e` turns filtering on and fills its
      field. An absent or empty value leaves the controls alone. Nothing else
      changes. */
  function Restore(v: View): (r: View)
    ensures r.filterOn <==> v.filterOn || Given(v.params, "s") || Given(v.params, "e")
    ensures r.startText == (if Given(v.params, "s") then v.params["s"] else v.startText)
    ensures r.endText == (if Given(v.params, "e") then v.params["e"] else v.endText)
    ensures r.path == v.path && r.drawPath == v.drawPath && r.params == v.params && r.history == v.history
  {
    var started := if Given(v.params, "s") then v.(filterOn := true, startText := v.params["s"]) else v;
    if Given(v.params, "e") then started.(filterOn := true, endText := v.params["e"]) else started
  }

  /** A page opened on the parameters of a filtered `draw` gets back the
      checkbox and both field texts, provided neither text was empty. */
  lemma RestoreAfterFilteredDraw(v: View, specifyPath: Option<seq<Point>>, parseDate: string -> Millis,
                                 encode: seq<Point> -> string, page: View)
    requires v.filterOn && v.startText != "" && v.endText != ""
    requires |ChosenPath(v, specifyPath)| > 0
    requires page.params == Draw(v, specifyPath, parseDate, encode).params
    ensures var r := Restore(page);
            r.filterOn && r.startText == v.startText && r.endText == v.endText
  {
    DrawFiltered(v, specifyPath, parseDate, encode);
  }

  /** An empty field is written to the URL but not restored: the page keeps
      whatever the field held. */
  lemma EmptyFieldNotRestored(v: View, specifyPath: Option<seq<Point>>, parseDate: string -> Millis,
                              encode: seq<Point> -> string, page: View)
    requires v.filterOn && v.startText == ""
    requires |ChosenPath(v, specifyPath)| > 0
    requires page.params == Draw(v, specifyPath, parseDate, encode).params
    ensures "s" in page.params && page.params["s"] == ""
    ensures Restore(page).startText == page.startText
  {
    DrawFiltered(v, specifyPath, parseDate, encode);
  }

  /** `clear` after any `draw` leaves the same parameters as `clear` before it. */
  lemma ClearUndoesDraw(v: View, specifyPath: Option<seq<Point>>, parseDate: string -> Millis,
                        encode: seq<Point> -> string)
    ensures Clear(Draw(v, specifyPath, parseDate, encode).params) == Clear(v.params)
  {
    ClearForgetsOnlyView(Draw(v, specifyPath, parseDate, encode).params, v.params);
  }
}
