/** The two chart-dispatch loops of analyze_dataset: one over the oracle's
    per-column suggestions, one over its suggested column pairs. Each entry is
    filtered, turned into a figure by the label's if/elif chain, and handed to
    the renderer; an entry whose rendering raises is skipped and nothing else
    changes. */
module Dispatch {
  import opened Common
  import opened Tables
  import opened JsonValues

  /** What a branch of the if/elif chains draws on the canvas. */
  datatype Plot =
    | Blank                                             // no branch matched the label
    | HistogramOf(col: string, bins: nat)               // with a density curve
    | BoxOf(col: string)
    | TopBars(col: string, top: nat)                    // the `top` most frequent values
    | TopPie(col: string, top: nat)                     // the `top` most frequent values
    | LineOf(col: string)                               // values against row position
    | ScatterOf(x: string, y: string)
    | BoxBy(x: string, y: string)
    | ViolinBy(x: string, y: string)
    | StackedBars(x: string, y: string, headRows: nat)  // first rows of the cross-tabulation

  /** A figure as handed to the renderer: the plot, the title set on the axes,
      and the axis labels set explicitly (None where the code sets none). */
  datatype Figure = Figure(plot: Plot, title: string, xLabel: Option<string>, yLabel: Option<string>)

  /** One report entry {id, title, image}. */
  datatype Graph = Graph(id: string, title: string, image: string)

  /** The renderer: draws the figure for the entry with the given key from the
      table and returns the Base64 text of the PNG, or None when drawing or
      encoding raises. */
  type Renderer = (Table, string, Figure) -> Option<string>

  /** One suggestion entry, a key of the decoded object and its value. */
  type Entry = (string, Json)

  const NoVisualization: string := "No Visualization Needed"
  const ImagePrefix: string := "data:image/png;base64,"

  // ---------------------------------------------------------------------------
  // Collecting graphs over the entries of a suggestion object, in order

  function Collect(item: Entry -> seq<Graph>, entries: seq<Entry>): seq<Graph>
  {
    if entries == [] then []
    else Collect(item, entries[..|entries| - 1]) + item(entries[|entries| - 1])
  }

  lemma {:induction false} CollectAtMostOneEach(item: Entry -> seq<Graph>, entries: seq<Entry>)
    requires forall k :: 0 <= k < |entries| ==> |item(entries[k])| <= 1
    ensures |Collect(item, entries)| <= |entries|
  {
    if entries != [] {
      var init := entries[..|entries| - 1];
      assert forall k :: 0 <= k < |init| ==> init[k] == entries[k];
      CollectAtMostOneEach(item, init);
    }
  }

  lemma {:induction false} CollectMembers(item: Entry -> seq<Graph>, entries: seq<Entry>, g: Graph)
    ensures g in Collect(item, entries) <==> exists k :: 0 <= k < |entries| && g in item(entries[k])
  {
    if entries != [] {
      var init := entries[..|entries| - 1];
      CollectMembers(item, init, g);
      assert forall k :: 0 <= k < |init| ==> init[k] == entries[k];
      if exists k :: 0 <= k < |entries| && g in item(entries[k]) {
        var k :| 0 <= k < |entries| && g in item(entries[k]);
        if k < |init| {
          assert g in item(init[k]);
        }
      }
    }
  }

  lemma {:induction false} CollectAgree(item: Entry -> seq<Graph>, item': Entry -> seq<Graph>, entries: seq<Entry>)
    requires forall k :: 0 <= k < |entries| ==> item(entries[k]) == item'(entries[k])
    ensures Collect(item, entries) == Collect(item', entries)
  {
    if entries != [] {
      var init := entries[..|entries| - 1];
      assert forall k :: 0 <= k < |init| ==> init[k] == entries[k];
      CollectAgree(item, item', init);
    }
  }

  /** An entry that yields nothing under item', where item' agrees with item on
      every other entry, is as good as absent. */
  lemma {:induction false} CollectDrop(item: Entry -> seq<Graph>, item': Entry -> seq<Graph>, entries: seq<Entry>, k: nat)
    requires k < |entries|
    requires forall j :: 0 <= j < |entries| && j != k ==> item'(entries[j]) == item(entries[j])
    requires item'(entries[k]) == []
    ensures Collect(item', entries) == Collect(item, entries[..k] + entries[k + 1..])
  {
    var init, last := entries[..|entries| - 1], entries[|entries| - 1];
    assert forall j :: 0 <= j < |init| ==> init[j] == entries[j];
    if k == |init| {
      assert entries[..k] + entries[k + 1..] == init;
      CollectAgree(item', item, init);
    } else {
      CollectDrop(item, item', init, k);
      var rest := init[..k] + init[k + 1..];
      var s := entries[..k] + entries[k + 1..];
      assert s == rest + [last];
      assert s[..|s| - 1] == rest;
    }
  }

  // ---------------------------------------------------------------------------
  // Univariate stage: for col, plot_type in suggestions.items()

  /** The if/elif chain on the label; a label it does not name draws nothing. */
  function UniPlot(kind: Json, col: string): Plot
  {
    if kind == JString("Histogram") then HistogramOf(col, 20)
    else if kind == JString("Box Plot") then BoxOf(col)
    else if kind == JString("Bar Chart") then TopBars(col, 15)
    else if kind == JString("Pie Chart") then TopPie(col, 5)
    else if kind == JString("Line Chart") then LineOf(col)
    else Blank
  }

  /** The figure: titled "<label>: <col>"; a pie chart's y label is cleared. */
  function UniFigure(kind: Json, col: string): Figure
  {
    Figure(UniPlot(kind, col), Str(kind) + ": " + col, None,
           if kind == JString("Pie Chart") then Some("") else None)
  }

  /** The record's title, "<label> of <col>". */
  function UniTitle(kind: Json, col: string): string
  {
    Str(kind) + " of " + col
  }

  /** An entry is skipped before rendering: "No Visualization Needed", or a key that is not a column. */
  predicate UniSkipped(t: Table, e: Entry)
  {
    e.1 == JString(NoVisualization) || e.0 !in Names(t)
  }

  /** The graphs one suggestion contributes: none if skipped or if rendering raised. */
  function UniGraphs(t: Table, render: Renderer, e: Entry): (g: seq<Graph>)
    ensures |g| <= 1
  {
    if UniSkipped(t, e) then []
    else match render(t, e.0, UniFigure(e.1, e.0))
      case None => []
      case Some(image) => [Graph(e.0, UniTitle(e.1, e.0), ImagePrefix + image)]
  }

  function Univariate(t: Table, suggestions: seq<Entry>, render: Renderer): seq<Graph>
  {
    Collect(e => UniGraphs(t, render, e), suggestions)
  }

  /** The loop of analyze_dataset that fills univariate_graphs. */
  method RenderUnivariate(t: Table, suggestions: seq<Entry>, render: Renderer) returns (graphs: seq<Graph>)
    ensures graphs == Univariate(t, suggestions, render)
  {
    graphs := [];
    for i := 0 to |suggestions|
      invariant graphs == Univariate(t, suggestions[..i], render)
    {
      assert suggestions[..i + 1][..i] == suggestions[..i];
      var (col, kind) := suggestions[i];
      if kind == JString(NoVisualization) || col !in Names(t) {
        continue;
      }
      var image := render(t, col, UniFigure(kind, col));
      if image.None? {
        continue;
      }
      graphs := graphs + [Graph(col, UniTitle(kind, col), ImagePrefix + image.value)];
    }
    assert suggestions[..|suggestions|] == suggestions;
  }

  /** g is the record entry e yields when the renderer succeeds on it. */
  predicate UniRecordFor(t: Table, render: Renderer, e: Entry, g: Graph)
  {
    && !UniSkipped(t, e)
    && render(t, e.0, UniFigure(e.1, e.0)).Some?
    && g == Graph(e.0, UniTitle(e.1, e.0), ImagePrefix + render(t, e.0, UniFigure(e.1, e.0)).value)
  }

  /** At most one record per suggestion. */
  lemma UnivariateAtMostOneEach(t: Table, suggestions: seq<Entry>, render: Renderer)
    ensures |Univariate(t, suggestions, render)| <= |suggestions|
  {
    CollectAtMostOneEach(e => UniGraphs(t, render, e), suggestions);
  }

  /** The records are exactly those of the entries that pass the filter and render:
      id the column, title "<label> of <col>", image the data URI of the PNG. */
  lemma UnivariateRecords(t: Table, suggestions: seq<Entry>, render: Renderer, g: Graph)
    ensures g in Univariate(t, suggestions, render)
        <==> exists k :: 0 <= k < |suggestions| && UniRecordFor(t, render, suggestions[k], g)
  {
    var item := e => UniGraphs(t, render, e);
    CollectMembers(item, suggestions, g);
    assert forall k :: 0 <= k < |suggestions| ==>
             (g in item(suggestions[k]) <==> UniRecordFor(t, render, suggestions[k], g));
  }

  /** Every univariate record is about a column of the table and carries a PNG data URI. */
  lemma UnivariateIdsAreColumns(t: Table, suggestions: seq<Entry>, render: Renderer)
    ensures forall g :: g in Univariate(t, suggestions, render) ==>
              g.id in Names(t) && ImagePrefix <= g.image
  {
    forall g | g in Univariate(t, suggestions, render)
      ensures g.id in Names(t) && ImagePrefix <= g.image
    {
      UnivariateRecords(t, suggestions, render, g);
    }
  }

  /** The keys of the entries that pass the filter, in mapping order. */
  function UniKept(t: Table, suggestions: seq<Entry>): seq<string>
  {
    if suggestions == [] then []
    else
      var e := suggestions[|suggestions| - 1];
      UniKept(t, suggestions[..|suggestions| - 1]) + (if UniSkipped(t, e) then [] else [e.0])
  }

  function Ids(graphs: seq<Graph>): seq<string>
  {
    seq(|graphs|, i requires 0 <= i < |graphs| => graphs[i].id)
  }

  /** With a renderer that never raises, there is exactly one record per kept
      entry (an unrecognised label included), in mapping order. */
  lemma {:induction false} UnivariateOnePerKeptEntry(t: Table, suggestions: seq<Entry>, render: Renderer)
    requires forall k :: 0 <= k < |suggestions| && !UniSkipped(t, suggestions[k]) ==>
               render(t, suggestions[k].0, UniFigure(suggestions[k].1, suggestions[k].0)).Some?
    ensures Ids(Univariate(t, suggestions, render)) == UniKept(t, suggestions)
  {
    if suggestions != [] {
      var init, e := suggestions[..|suggestions| - 1], suggestions[|suggestions| - 1];
      assert forall k :: 0 <= k < |init| ==> init[k] == suggestions[k];
      UnivariateOnePerKeptEntry(t, init, render);
      var before := Univariate(t, init, render);
      var mine := UniGraphs(t, render, e);
      assert Univariate(t, suggestions, render) == before + mine;
      assert Ids(before + mine) == Ids(before) + Ids(mine);
    }
  }

  lemma UniGraphsAgree(t: Table, render: Renderer, render': Renderer, e: Entry)
    requires render'(t, e.0, UniFigure(e.1, e.0)) == render(t, e.0, UniFigure(e.1, e.0))
    ensures UniGraphs(t, render', e) == UniGraphs(t, render, e)
  {
  }

  /** Failure isolation: if rendering entry k raises, the result is what the
      suggestions without entry k would give; every other record is unchanged. */
  lemma UnivariateFailureIsolated(t: Table, suggestions: seq<Entry>, render: Renderer, render': Renderer, k: nat)
    requires k < |suggestions|
    requires forall j :: 0 <= j < |suggestions| && j != k ==>
               render'(t, suggestions[j].0, UniFigure(suggestions[j].1, suggestions[j].0))
               == render(t, suggestions[j].0, UniFigure(suggestions[j].1, suggestions[j].0))
    requires render'(t, suggestions[k].0, UniFigure(suggestions[k].1, suggestions[k].0)).None?
    ensures Univariate(t, suggestions, render')
         == Univariate(t, suggestions[..k] + suggestions[k + 1..], render)
  {
    var item: Entry -> seq<Graph> := e => UniGraphs(t, render, e);
    var item': Entry -> seq<Graph> := e => UniGraphs(t, render', e);
    forall j | 0 <= j < |suggestions| && j != k
      ensures item'(suggestions[j]) == item(suggestions[j])
    {
      UniGraphsAgree(t, render, render', suggestions[j]);
    }
    CollectDrop(item, item', suggestions, k);
  }

  /** The record's title is not the title drawn on the chart ("of" against ":"). */
  lemma UniTitlesDiffer(kind: Json, col: string)
    ensures UniTitle(kind, col) != UniFigure(kind, col).title
  {
    var n := |Str(kind)|;
    assert UniTitle(kind, col)[n] == ' ';
    assert UniFigure(kind, col).title[n] == ':';
  }

  // ---------------------------------------------------------------------------
  // Pairwise stage: for key, val in pairs.items()

  /** Python's len(val); None where len raises (a number, a bool, None). */
  function Len(j: Json): Option<nat>
  {
    match j
    case JString(s) => Some(|s|)
    case JArray(items) => Some(|items|)
    case JObject(entries) => Some(|entries|)
    case _ => None
  }

  /** Python's val[i]; None where it raises. A string yields its i-th character;
      an object raises KeyError, since decoded JSON keys are never integers. */
  function At(j: Json, i: nat): Option<Json>
  {
    match j
    case JString(s) => if i < |s| then Some(JString([s[i]])) else None
    case JArray(items) => if i < |items| then Some(items[i]) else None
    case _ => None
  }

  /** `feature in df.columns`; a value that is not a string is never a column
      name (an unhashable one raises, which skips the entry just the same). */
  predicate IsColumn(t: Table, j: Json)
  {
    j.JString? && j.s in Names(t)
  }

  /** The (x, y, label) a pair entry is drawn with, or None when it is skipped. */
  function PairFields(t: Table, val: Json): Option<(string, string, Json)>
  {
    match Len(val)
    case None => None
    case Some(n) =>
      if n < 3 then None
      else match (At(val, 0), At(val, 1), At(val, 2))
        case (Some(x), Some(y), Some(kind)) =>
          if IsColumn(t, x) && IsColumn(t, y) then Some((x.s, y.s, kind)) else None
        case _ => None
  }

  /** The if/elif chain on the pair's label; a label it does not name draws nothing. */
  function PairPlot(kind: Json, x: string, y: string): Plot
  {
    if kind == JString("Scatter Plot") then ScatterOf(x, y)
    else if kind == JString("Box Plot") then BoxBy(x, y)
    else if kind == JString("Violin Plot") then ViolinBy(x, y)
    else if kind == JString("Stacked Bar Chart") then StackedBars(x, y, 10)
    else Blank
  }

  /** "<label>: <x> vs <y>", on the chart and in the record alike. */
  function PairTitle(kind: Json, x: string, y: string): string
  {
    Str(kind) + ": " + x + " vs " + y
  }

  function PairFigure(kind: Json, x: string, y: string): Figure
  {
    Figure(PairPlot(kind, x, y), PairTitle(kind, x, y), Some(x), Some(y))
  }

  function PairGraphs(t: Table, render: Renderer, e: Entry): (g: seq<Graph>)
    ensures |g| <= 1
  {
    match PairFields(t, e.1)
    case None => []
    case Some((x, y, kind)) =>
      match render(t, e.0, PairFigure(kind, x, y))
      case None => []
      case Some(image) => [Graph(e.0, PairTitle(kind, x, y), ImagePrefix + image)]
  }

  function Pairwise(t: Table, pairs: seq<Entry>, render: Renderer): seq<Graph>
  {
    Collect(e => PairGraphs(t, render, e), pairs)
  }

  /** The loop of analyze_dataset that fills pairwise_graphs. Everything in its
      body is inside `try ... except Exception`, so every failure skips the
      entry; the loop itself never fails, so the ResourceExhausted handler
      after it is never reached. */
  method RenderPairwise(t: Table, pairs: seq<Entry>, render: Renderer) returns (graphs: seq<Graph>)
    ensures graphs == Pairwise(t, pairs, render)
  {
    graphs := [];
    for i := 0 to |pairs|
      invariant graphs == Pairwise(t, pairs[..i], render)
    {
      assert pairs[..i + 1][..i] == pairs[..i];
      var (key, val) := pairs[i];
      var n := Len(val);
      if n.None? || n.value < 3 {
        continue;
      }
      var x, y, kind := At(val, 0), At(val, 1), At(val, 2);
      if x.None? || y.None? || kind.None? {
        continue;
      }
      if !IsColumn(t, x.value) || !IsColumn(t, y.value) {
        continue;
      }
      var image := render(t, key, PairFigure(kind.value, x.value.s, y.value.s));
      if image.None? {
        continue;
      }
      graphs := graphs + [Graph(key, PairTitle(kind.value, x.value.s, y.value.s), ImagePrefix + image.value)];
    }
    assert pairs[..|pairs|] == pairs;
  }

  /** For a list value: kept iff it has at least three items and the first two
      name columns; then drawn from those two columns with the third as label. */
  lemma PairFieldsOfList(t: Table, items: seq<Json>)
    ensures PairFields(t, JArray(items)).Some?
        <==> |items| >= 3 && IsColumn(t, items[0]) && IsColumn(t, items[1])
    ensures PairFields(t, JArray(items)).Some? ==>
              PairFields(t, JArray(items)).value == (items[0].s, items[1].s, items[2])
  {
  }

  /** g is the record pair entry e yields when the renderer succeeds on it. */
  predicate PairRecordFor(t: Table, render: Renderer, e: Entry, g: Graph)
  {
    && PairFields(t, e.1).Some?
    && var (x, y, kind) := PairFields(t, e.1).value;
    && render(t, e.0, PairFigure(kind, x, y)).Some?
    && g == Graph(e.0, PairTitle(kind, x, y), ImagePrefix + render(t, e.0, PairFigure(kind, x, y)).value)
  }

  lemma PairwiseAtMostOneEach(t: Table, pairs: seq<Entry>, render: Renderer)
    ensures |Pairwise(t, pairs, render)| <= |pairs|
  {
    CollectAtMostOneEach(e => PairGraphs(t, render, e), pairs);
  }

  /** The records are exactly those of the kept pairs that render: id the pair
      key, title "<label>: <x> vs <y>". */
  lemma PairwiseRecords(t: Table, pairs: seq<Entry>, render: Renderer, g: Graph)
    ensures g in Pairwise(t, pairs, render)
        <==> exists k :: 0 <= k < |pairs| && PairRecordFor(t, render, pairs[k], g)
  {
    var item := e => PairGraphs(t, render, e);
    CollectMembers(item, pairs, g);
    assert forall k :: 0 <= k < |pairs| ==>
             (g in item(pairs[k]) <==> PairRecordFor(t, render, pairs[k], g));
  }

  /** Every pairwise record is keyed by one of the pair keys and carries a PNG data URI. */
  lemma PairwiseIdsAreKeys(t: Table, pairs: seq<Entry>, render: Renderer)
    ensures forall g :: g in Pairwise(t, pairs, render) ==>
              (exists k :: 0 <= k < |pairs| && pairs[k].0 == g.id) && ImagePrefix <= g.image
  {
    forall g | g in Pairwise(t, pairs, render)
      ensures (exists k :: 0 <= k < |pairs| && pairs[k].0 == g.id) && ImagePrefix <= g.image
    {
      PairwiseRecords(t, pairs, render, g);
    }
  }

  /** The keys of the pairs that pass the arity and membership checks, in order. */
  function PairKept(t: Table, pairs: seq<Entry>): seq<string>
  {
    if pairs == [] then []
    else
      var e := pairs[|pairs| - 1];
      PairKept(t, pairs[..|pairs| - 1]) + (if PairFields(t, e.1).None? then [] else [e.0])
  }

  /** The figure the renderer is asked for on a kept pair entry. */
  function PairFigureOf(t: Table, e: Entry): Figure
    requires PairFields(t, e.1).Some?
  {
    var (x, y, kind) := PairFields(t, e.1).value;
    PairFigure(kind, x, y)
  }

  /** With a renderer that never raises, exactly one record per kept pair, in order. */
  lemma {:induction false} PairwiseOnePerKeptEntry(t: Table, pairs: seq<Entry>, render: Renderer)
    requires forall k :: 0 <= k < |pairs| && PairFields(t, pairs[k].1).Some? ==>
               render(t, pairs[k].0, PairFigureOf(t, pairs[k])).Some?
    ensures Ids(Pairwise(t, pairs, render)) == PairKept(t, pairs)
  {
    if pairs != [] {
      var init, e := pairs[..|pairs| - 1], pairs[|pairs| - 1];
      assert forall k :: 0 <= k < |init| ==> init[k] == pairs[k];
      PairwiseOnePerKeptEntry(t, init, render);
      var before := Pairwise(t, init, render);
      var mine := PairGraphs(t, render, e);
      assert Pairwise(t, pairs, render) == before + mine;
      assert Ids(before + mine) == Ids(before) + Ids(mine);
    }
  }

  lemma PairGraphsAgree(t: Table, render: Renderer, render': Renderer, e: Entry)
    requires PairFields(t, e.1).Some? ==>
               render'(t, e.0, PairFigureOf(t, e)) == render(t, e.0, PairFigureOf(t, e))
    ensures PairGraphs(t, render', e) == PairGraphs(t, render, e)
  {
  }

  /** Failure isolation for pairs: if rendering pair k raises, the result is
      what the pairs without entry k would give. */
  lemma PairwiseFailureIsolated(t: Table, pairs: seq<Entry>, render: Renderer, render': Renderer, k: nat)
    requires k < |pairs|
    requires forall j :: 0 <= j < |pairs| && j != k && PairFields(t, pairs[j].1).Some? ==>
               render'(t, pairs[j].0, PairFigureOf(t, pairs[j])) == render(t, pairs[j].0, PairFigureOf(t, pairs[j]))
    requires PairFields(t, pairs[k].1).Some? ==> render'(t, pairs[k].0, PairFigureOf(t, pairs[k])).None?
    ensures Pairwise(t, pairs, render') == Pairwise(t, pairs[..k] + pairs[k + 1..], render)
  {
    var item: Entry -> seq<Graph> := e => PairGraphs(t, render, e);
    var item': Entry -> seq<Graph> := e => PairGraphs(t, render', e);
    forall j | 0 <= j < |pairs| && j != k
      ensures item'(pairs[j]) == item(pairs[j])
    {
      PairGraphsAgree(t, render, render', pairs[j]);
    }
    CollectDrop(item, item', pairs, k);
  }
}
