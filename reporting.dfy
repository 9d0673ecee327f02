/** The /api/analyze request (analyze_dataset): load the upload, cap it at
    5000 sampled rows, ask the oracle for a summary, per-column chart types and
    column pairs, draw the charts, and assemble the report. The collaborators
    the handler calls (the pandas reader, df.sample, the language model, the
    JSON decoder and the chart renderer) are parameters. */
module Reporting {
  import opened Common
  import opened Tables
  import opened JsonValues
  import opened Loading
  import opened Recovery
  import opened ColumnMetadata
  import opened Dispatch

  /** The uploaded file: its name and its bytes. */
  datatype Upload = Upload(filename: string, contents: seq<byte>)

  /** What the handler asks the oracle, by the data each prompt is filled with. */
  datatype Prompt =
    | SummaryPrompt(head: Table)                               // df.head(10)
    | ColumnPrompt(metadata: map<string, ColumnMeta>)          // the column metadata
    | PairPrompt(columns: seq<string>, summary: string)        // df.columns and the summary

  /** Why an oracle call raised: the quota is exhausted, or any other failure. */
  datatype OracleFault = QuotaExhausted | ServiceError(message: string)

  /** The collaborators of one request. `sample(n)` is the list of row indices
      df.sample(5000) picks from n rows; `ask` answers a prompt with the
      model's text or raises. */
  datatype Services = Services(
    read: (Format, seq<byte>) -> Result<Table, string>,
    sample: nat -> seq<nat>,
    ask: Prompt -> Result<string, OracleFault>,
    decode: string -> Option<Json>,
    render: Renderer)

  /** df.sample(5000) picks 5000 distinct rows of any larger frame. */
  ghost predicate SoundSampler(sample: nat -> seq<nat>)
  {
    forall n: nat :: n > MaxRows ==> IsSample(sample(n), n, MaxRows)
  }

  /** One entry of column_details. */
  datatype ColumnDetail = ColumnDetail(name: string, dtype: string, missingValues: nat, uniqueValues: nat)

  /** The response body. numerical_stats is not modelled. */
  datatype Report = Report(
    filename: string,
    rows: nat,
    columns: nat,
    summary: string,
    columnDetails: seq<ColumnDetail>,
    preview: seq<seq<(string, string)>>,
    univariateGraphs: seq<Graph>,
    pairwiseGraphs: seq<Graph>)

  datatype Response = Completed(report: Report) | Failed(error: HttpError)

  /** What the server answers when the handler raises something it does not catch. */
  const InternalError := HttpError(500, "Internal Server Error")

  // ---------------------------------------------------------------------------
  // Pieces of the report

  /** The table after the row cap: a sample of 5000 rows when there are more. */
  function Sampled(loaded: Table, sample: nat -> seq<nat>): (t: Table)
    requires SoundSampler(sample)
    ensures t.rows == Min(loaded.rows, MaxRows)
    ensures Names(t) == Names(loaded)
    ensures loaded.rows <= MaxRows ==> t == loaded
  {
    CapRows(loaded, sample(loaded.rows))
  }

  /** A column's entry: the number of its null cells and of its distinct
      values, which together never exceed its length; it has no missing value
      exactly when no cell is null. */
  function DetailOf(c: Column): (d: ColumnDetail)
    ensures d.name == c.name && d.dtype == c.dtype
    ensures d.missingValues == |set k | 0 <= k < |c.cells| && c.cells[k].Missing?|
    ensures d.uniqueValues == |Distinct(c.cells)|
    ensures d.missingValues + d.uniqueValues <= |c.cells|
    ensures d.missingValues == 0 <==> forall k :: 0 <= k < |c.cells| ==> !c.cells[k].Missing?
  {
    CountMissingIsNullCount(c.cells);
    DistinctBound(c.cells);
    NoMissingIff(c.cells);
    ColumnDetail(c.name, c.dtype, CountMissing(c.cells), |Distinct(c.cells)|)
  }

  function Details(t: Table): seq<ColumnDetail>
  {
    seq(|t.columns|, i requires 0 <= i < |t.columns| => DetailOf(t.columns[i]))
  }

  /** The loop that fills column_details, one entry per column in order. */
  method ColumnDetails(t: Table) returns (details: seq<ColumnDetail>)
    ensures |details| == |t.columns|
    ensures forall i :: 0 <= i < |t.columns| ==> details[i] == DetailOf(t.columns[i])
  {
    details := [];
    for i := 0 to |t.columns|
      invariant |details| == i
      invariant forall j :: 0 <= j < i ==> details[j] == DetailOf(t.columns[j])
    {
      details := details + [DetailOf(t.columns[i])];
    }
  }

  /** The entries of column_details agree with the metadata sent to the oracle. */
  lemma DetailsAgreeWithMetadata(t: Table)
    ensures forall i :: 0 <= i < |t.columns| ==>
              && Details(t)[i].uniqueValues == Metadata(t)[t.columns[i].name].uniqueValues
              && (Metadata(t)[t.columns[i].name].kind == Categorical <==> Details(t)[i].dtype == "object")
  {
  }

  /** fillna(""): a missing cell shows as the empty text, any other as its value. */
  function Fill(c: Cell): string
  {
    match c
    case Missing => ""
    case Present(v) => v
    case Unhashable(v) => v
  }

  /** df.head().fillna("").to_dict(orient='records'): the first five rows, each
      a record mapping every column name, in order, to that row's filled cell. */
  function Preview(t: Table): (p: seq<seq<(string, string)>>)
    ensures |p| == Min(5, t.rows)
    ensures forall k :: 0 <= k < |p| ==> |p[k]| == |t.columns|
    ensures forall k, i :: 0 <= k < |p| && 0 <= i < |t.columns| ==>
              p[k][i] == (t.columns[i].name, Fill(t.columns[i].cells[k]))
  {
    var h := Head(t, 5);
    seq(h.rows, k requires 0 <= k < h.rows =>
      seq(|h.columns|, i requires 0 <= i < |h.columns| => (h.columns[i].name, Fill(h.columns[i].cells[k]))))
  }

  /** suggestions.items(): the entries of the recovered object, or None when the
      recovered value is not an object, where .items() raises. An undecodable
      reply was replaced by {}, which has no entries. The decoder yields an
      object's entries once per key, as a dict holds them. */
  function Items(reply: string, decode: string -> Option<Json>): (r: Option<seq<Entry>>)
    ensures decode(Cleaned(reply)).None? ==> r == Some([])
    ensures r.None? <==> !CleanJsonResponse(reply, decode).JObject?
    ensures r.Some? ==> r.value == CleanJsonResponse(reply, decode).entries
  {
    match CleanJsonResponse(reply, decode)
    case JObject(entries) => Some(entries)
    case _ => None
  }

  // ---------------------------------------------------------------------------
  // The request

  /** Everything after loading and the row cap. Any oracle failure, a cell
      that cannot be hashed (where nunique() in the metadata raises), either
      recovered reply that is not an object, and a table without columns (where
      df.describe() raises) end the request with the server's own 500. */
  function AnalyzeTable(filename: string, t: Table, env: Services): (out: Response)
    ensures out.Failed? ==> out == Failed(InternalError)
    ensures out.Completed? ==>
              && out.report.filename == filename
              && out.report.rows == t.rows
              && out.report.columns == |t.columns| > 0
              && out.report.columnDetails == Details(t)
              && out.report.preview == Preview(t)
  {
    match env.ask(SummaryPrompt(Head(t, 10)))
    case Err(_) => Failed(InternalError)
    case Ok(summary) =>
      if !Hashable(t) then Failed(InternalError) else
      match env.ask(ColumnPrompt(Metadata(t)))
      case Err(_) => Failed(InternalError)
      case Ok(columnReply) =>
        match Items(columnReply, env.decode)
        case None => Failed(InternalError)
        case Some(suggestions) =>
          match env.ask(PairPrompt(Names(t), summary))
          case Err(_) => Failed(InternalError)
          case Ok(pairReply) =>
            match Items(pairReply, env.decode)
            case None => Failed(InternalError)
            case Some(pairs) =>
              if |t.columns| == 0 then Failed(InternalError)
              else Completed(Report(filename, t.rows, |t.columns|, summary, Details(t), Preview(t),
                                    Univariate(t, suggestions, env.render),
                                    Pairwise(t, pairs, env.render)))
  }

  /** analyze_dataset. Every failure the client sees has status 500: the
      loader's own, or the server's for anything raised afterwards. */
  function Analyze(u: Upload, env: Services): (out: Response)
    requires SoundSampler(env.sample)
    ensures out.Failed? ==> out.error.status == 500
    ensures LoadData(u.filename, u.contents, env.read).Err? ==>
              out == Failed(LoadData(u.filename, u.contents, env.read).error)
    ensures out.Completed? ==>
              && LoadData(u.filename, u.contents, env.read).Ok?
              && var loaded := LoadData(u.filename, u.contents, env.read).value;
              && out.report.filename == u.filename
              && out.report.rows == Min(loaded.rows, MaxRows)
              && out.report.columns == |loaded.columns|
              && |out.report.columnDetails| == |loaded.columns|
              && (forall i :: 0 <= i < |loaded.columns| ==>
                    out.report.columnDetails[i].name == loaded.columns[i].name)
              && |out.report.preview| == Min(5, out.report.rows)
  {
    match LoadData(u.filename, u.contents, env.read)
    case Err(e) => Failed(e)
    case Ok(loaded) => AnalyzeTable(u.filename, Sampled(loaded, env.sample), env)
  }

  /** The handler, step by step: load, cap the rows, then the rest of the request. */
  method AnalyzeDataset(u: Upload, env: Services) returns (out: Response)
    requires SoundSampler(env.sample)
    ensures out == Analyze(u, env)
  {
    var loaded := LoadData(u.filename, u.contents, env.read);
    if loaded.Err? {
      return Failed(loaded.error);
    }
    var df := loaded.value;
    if df.rows > MaxRows {
      df := SelectRows(df, env.sample(df.rows));
    }
    assert df == Sampled(loaded.value, env.sample);
    out := AnalyzeSampled(u.filename, df, env);
  }

  /** The rest of the handler: each oracle call, recovery and chart loop in the
      order the source performs them. */
  method AnalyzeSampled(filename: string, df: Table, env: Services) returns (out: Response)
    ensures out == AnalyzeTable(filename, df, env)
  {
    var summary := env.ask(SummaryPrompt(Head(df, 10)));
    if summary.Err? {
      return Failed(InternalError);
    }

    if !Hashable(df) {
      return Failed(InternalError);
    }
    var columnReply := env.ask(ColumnPrompt(Metadata(df)));
    if columnReply.Err? {
      return Failed(InternalError);
    }
    var suggestions := Items(columnReply.value, env.decode);
    if suggestions.None? {
      return Failed(InternalError);
    }
    var univariate := RenderUnivariate(df, suggestions.value, env.render);

    var pairReply := env.ask(PairPrompt(Names(df), summary.value));
    if pairReply.Err? {
      return Failed(InternalError);
    }
    var pairs := Items(pairReply.value, env.decode);
    if pairs.None? {
      return Failed(InternalError);
    }
    var pairwise := RenderPairwise(df, pairs.value, env.render);

    var details := ColumnDetails(df);
    if |df.columns| == 0 {
      return Failed(InternalError);
    }
    assert details == Details(df);
    out := Completed(Report(filename, df.rows, |df.columns|, summary.value, details, Preview(df),
                            univariate, pairwise));
    assert out == AnalyzeTable(filename, df, env) by {
      assert Items(columnReply.value, env.decode) == suggestions;
      assert Items(pairReply.value, env.decode) == pairs;
    }
  }

  // ---------------------------------------------------------------------------
  // Properties of the whole request

  /** The request completes exactly when the table has columns, all its cells
      hash, all three oracle calls answer, and both recovered replies are objects. */
  lemma CompletesIff(filename: string, t: Table, env: Services)
    ensures AnalyzeTable(filename, t, env).Completed? <==>
              && |t.columns| > 0
              && Hashable(t)
              && env.ask(SummaryPrompt(Head(t, 10))).Ok?
              && env.ask(ColumnPrompt(Metadata(t))).Ok?
              && CleanJsonResponse(env.ask(ColumnPrompt(Metadata(t))).value, env.decode).JObject?
              && env.ask(PairPrompt(Names(t), env.ask(SummaryPrompt(Head(t, 10))).value)).Ok?
              && CleanJsonResponse(env.ask(PairPrompt(Names(t), env.ask(SummaryPrompt(Head(t, 10))).value)).value,
                                   env.decode).JObject?
  {
  }

  /** An exhausted quota never reaches the client as a 429: when the oracle
      refuses, a loaded upload ends in the server's 500. */
  lemma QuotaExhaustedIs500(u: Upload, env: Services)
    requires SoundSampler(env.sample)
    requires LoadData(u.filename, u.contents, env.read).Ok?
    requires forall p :: env.ask(p) == Err(QuotaExhausted)
    ensures Analyze(u, env) == Failed(InternalError)
  {
  }

  /** An upload with an unaccepted extension fails with the 500 that wraps the 400. */
  lemma UnsupportedUploadIs500(u: Upload, env: Services)
    requires SoundSampler(env.sample)
    requires Extension(u.filename) !in ["csv", "xls", "xlsx", "json", "parquet"]
    ensures Analyze(u, env) == Failed(HttpError(500, "Error reading file: " + "400: " + "Unsupported file format"))
  {
    UnsupportedExtensionIs500(u.filename, u.contents, env.read);
  }

  /** An undecodable reply to the column prompt does not stop the request: it
      completes exactly when it would whatever that reply, and then has no
      univariate graph. */
  lemma UndecodableSuggestionsDrawNothing(filename: string, t: Table, env: Services, reply: string)
    requires env.ask(ColumnPrompt(Metadata(t))) == Ok(reply)
    requires env.decode(Cleaned(reply)).None?
    ensures AnalyzeTable(filename, t, env).Completed? <==>
              && |t.columns| > 0
              && Hashable(t)
              && env.ask(SummaryPrompt(Head(t, 10))).Ok?
              && env.ask(PairPrompt(Names(t), env.ask(SummaryPrompt(Head(t, 10))).value)).Ok?
              && CleanJsonResponse(env.ask(PairPrompt(Names(t), env.ask(SummaryPrompt(Head(t, 10))).value)).value,
                                   env.decode).JObject?
    ensures AnalyzeTable(filename, t, env).Completed? ==>
              AnalyzeTable(filename, t, env).report.univariateGraphs == []
  {
    assert Items(reply, env.decode) == Some([]);
  }

  /** Every univariate graph in a completed report is about a column of the
      table and every graph carries a PNG data URI. */
  lemma GraphsOfReport(filename: string, t: Table, env: Services)
    requires AnalyzeTable(filename, t, env).Completed?
    ensures forall g :: g in AnalyzeTable(filename, t, env).report.univariateGraphs ==>
              g.id in Names(t) && ImagePrefix <= g.image
    ensures forall g :: g in AnalyzeTable(filename, t, env).report.pairwiseGraphs ==>
              ImagePrefix <= g.image
  {
    var summary := env.ask(SummaryPrompt(Head(t, 10))).value;
    var suggestions := Items(env.ask(ColumnPrompt(Metadata(t))).value, env.decode).value;
    var pairs := Items(env.ask(PairPrompt(Names(t), summary)).value, env.decode).value;
    UnivariateIdsAreColumns(t, suggestions, env.render);
    PairwiseIdsAreKeys(t, pairs, env.render);
  }

  /** A table without missing cells reports zero missing values for every column. */
  lemma NoMissingCellsNoMissingValues(t: Table)
    requires forall i, k :: 0 <= i < |t.columns| && 0 <= k < t.rows ==> !t.columns[i].cells[k].Missing?
    ensures forall i :: 0 <= i < |t.columns| ==> Details(t)[i].missingValues == 0
  {
  }

  /** A list, dict or array cell anywhere in the table makes the metadata's
      nunique() raise after the summary call: the request ends in the server's 500
      whatever the oracle answers next. */
  lemma UnhashableCellIs500(filename: string, t: Table, env: Services, i: nat, k: nat)
    requires i < |t.columns| && k < t.rows
    requires t.columns[i].cells[k].Unhashable?
    ensures AnalyzeTable(filename, t, env) == Failed(InternalError)
  {
    assert !Hashable(t);
  }
}
