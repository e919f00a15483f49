/**
 * The user-path analysis endpoint: request parameters with their defaults,
 * the SQL conditions built from the selected options, and the pipeline
 * from the fetched rows to the four views of the response.
 */
module UserPath {
  import opened Wrappers
  import opened Text
  import Config
  import DataProcessor
  import Counters
  import PathAnalyzer
  import PathViews
  import PathReports

  // ---------------------------------------------------------------- query conditions

  /** One `WHERE` alternative and the value bound to its `%s`. */
  datatype Condition = Condition(clause: string, param: string)

  const EventClause: string := "event = %s"
  const PageClause: string := "JSON_UNQUOTE(JSON_EXTRACT(all_json, '$.properties.\"$url_path\"')) LIKE %s"
  const UrlClause: string := "url LIKE %s"
  const TitleClause: string := "JSON_UNQUOTE(JSON_EXTRACT(all_json, '$.properties.\"$title\"')) = %s"
  const ReferrerClause: string := "referrer LIKE %s"

  /** `%value%`, the `LIKE` pattern for "contains". */
  function Surround(v: string): string
  {
    "%" + v + "%"
  }

  /**
   * The condition one selected option contributes: the prefix is checked at
   * the start, then every occurrence of it is removed; an option without a
   * known prefix contributes nothing.
   */
  function ConditionOf(option: string): (r: Option<Condition>)
    ensures r.Some? <==> PathAnalyzer.HasOptionPrefix(option)
  {
    if "event_" <= option then Some(Condition(EventClause, ReplaceAll(option, "event_", "")))
    else if "page_" <= option then Some(Condition(PageClause, Surround(ReplaceAll(option, "page_", ""))))
    else if "url_" <= option then Some(Condition(UrlClause, Surround(ReplaceAll(option, "url_", ""))))
    else if "title_" <= option then Some(Condition(TitleClause, ReplaceAll(option, "title_", "")))
    else if "referrer_" <= option then Some(Condition(ReferrerClause, Surround(ReplaceAll(option, "referrer_", ""))))
    else None
  }

  /** The conditions of all options, in order. */
  function ConditionsOf(options: seq<string>): (r: seq<Condition>)
    ensures |r| <= |options|
    ensures forall c :: c in r ==> exists i :: 0 <= i < |options| && ConditionOf(options[i]) == Some(c)
  {
    if options == [] then []
    else
      var init := ConditionsOf(options[..|options| - 1]);
      match ConditionOf(options[|options| - 1])
      case None => init
      case Some(cond) => init + [cond]
  }

  /**
   * The value an option queries for is the key the path filters look for:
   * the event code whose label is the key, the key itself for a title, and
   * the key between `%` wildcards otherwise.
   */
  lemma ConditionMatchesOptionKey(option: string)
    requires PathAnalyzer.HasOptionPrefix(option)
    ensures var cond := ConditionOf(option).value;
            var key := PathAnalyzer.ExtractOptionKey(option);
            if "event_" <= option then DataProcessor.FormatEventName(cond.param) == key
            else if cond.clause == TitleClause then cond.param == key
            else cond.param == Surround(key)
  {
  }

  /** No condition at all exactly when no option carries a known prefix. */
  lemma {:induction false} ConditionsEmpty(options: seq<string>)
    ensures ConditionsOf(options) == [] <==> forall i :: 0 <= i < |options| ==> !PathAnalyzer.HasOptionPrefix(options[i])
  {
    if options != [] {
      var init := options[..|options| - 1];
      ConditionsEmpty(init);
      assert forall i :: 0 <= i < |init| ==> init[i] == options[i];
    }
  }

  /** One more option adds its condition, if it has one, to those of the options before it. */
  lemma ConditionsSnoc(options: seq<string>, k: nat)
    requires k < |options|
    ensures ConditionsOf(options[..k + 1]) ==
              ConditionsOf(options[..k]) + (match ConditionOf(options[k]) case None => [] case Some(c) => [c])
  {
    assert options[..k + 1][..k] == options[..k];
  }

  /** `build_query_conditions`: the clauses and their parameters, side by side. */
  method BuildQueryConditions(options: seq<string>) returns (clauses: seq<string>, params: seq<string>)
    ensures |clauses| == |params| == |ConditionsOf(options)|
    ensures forall i :: 0 <= i < |clauses| ==>
              clauses[i] == ConditionsOf(options)[i].clause && params[i] == ConditionsOf(options)[i].param
  {
    clauses, params := [], [];
    var k := 0;
    while k < |options|
      invariant 0 <= k <= |options|
      invariant SideBySide(clauses, params, ConditionsOf(options[..k]))
    {
      ConditionsSnoc(options, k);
      var conds := ConditionsOf(options[..k]);
      var option := options[k];
      if "event_" <= option {
        SideBySideSnoc(clauses, params, conds, ConditionOf(option).value);
        clauses, params := clauses + [EventClause], params + [ReplaceAll(option, "event_", "")];
      } else if "page_" <= option {
        SideBySideSnoc(clauses, params, conds, ConditionOf(option).value);
        clauses, params := clauses + [PageClause], params + [Surround(ReplaceAll(option, "page_", ""))];
      } else if "url_" <= option {
        SideBySideSnoc(clauses, params, conds, ConditionOf(option).value);
        clauses, params := clauses + [UrlClause], params + [Surround(ReplaceAll(option, "url_", ""))];
      } else if "title_" <= option {
        SideBySideSnoc(clauses, params, conds, ConditionOf(option).value);
        clauses, params := clauses + [TitleClause], params + [ReplaceAll(option, "title_", "")];
      } else if "referrer_" <= option {
        SideBySideSnoc(clauses, params, conds, ConditionOf(option).value);
        clauses, params := clauses + [ReferrerClause], params + [Surround(ReplaceAll(option, "referrer_", ""))];
      }
      k := k + 1;
    }
    assert options[..k] == options;
  }

  /** The clause and parameter lists spell out the conditions, one position each. */
  predicate SideBySide(clauses: seq<string>, params: seq<string>, conds: seq<Condition>)
  {
    |clauses| == |params| == |conds|
    && forall i :: 0 <= i < |clauses| ==> clauses[i] == conds[i].clause && params[i] == conds[i].param
  }

  lemma SideBySideSnoc(clauses: seq<string>, params: seq<string>, conds: seq<Condition>, c: Condition)
    requires SideBySide(clauses, params, conds)
    ensures SideBySide(clauses + [c.clause], params + [c.param], conds + [c])
  {
  }

  // ---------------------------------------------------------------- request

  /** The query string; an absent parameter is `None`. */
  datatype Request = Request(
    selectedOptions: Option<string>,
    pathType: Option<string>,
    startOption: Option<string>,
    endOption: Option<string>,
    pathLength: Option<string>,
    minConversions: Option<int>,
    timeRange: Option<string>,
    pageFilter: Option<string>)

  /** `request.args.get(name, default)`. */
  function Arg(o: Option<string>, default: string): string
  {
    match o
    case None => default
    case Some(v) => v
  }

  /** The selected options: none for an absent or empty parameter, else the comma-separated pieces. */
  function SelectedOptions(req: Request): (r: seq<string>)
    ensures (req.selectedOptions.None? || req.selectedOptions == Some("")) <==> r == []
    ensures req.selectedOptions.Some? && req.selectedOptions.value != "" ==>
              JoinOn(r, ',') == req.selectedOptions.value && forall i :: 0 <= i < |r| ==> ',' !in r[i]
  {
    match req.selectedOptions
    case None => []
    case Some(v) => if v == "" then [] else SplitOnJoin(v, ','); SplitOn(v, ',')
  }

  /** The anchors and length bucket of the request; an anchor counts only for its own path type. */
  function PathQueryOf(req: Request): (q: PathAnalyzer.PathQuery)
    ensures req.pathType.None? ==> q.pathType == "start"
    ensures req.pathLength.None? ==> q.pathLength == "all"
    ensures q.pathType == Arg(req.pathType, "start") && q.pathLength == Arg(req.pathLength, "all")
    ensures q.pathType == "start" ==> q.startOption == Arg(req.startOption, "")
    ensures q.pathType == "end" ==> q.endOption == Arg(req.endOption, "")
    ensures q.pathType != "start" ==> q.startOption == ""
    ensures q.pathType != "end" ==> q.endOption == ""
  {
    var pathType := Arg(req.pathType, "start");
    PathAnalyzer.PathQuery(
      pathType,
      if pathType == "start" then Arg(req.startOption, "") else "",
      if pathType == "end" then Arg(req.endOption, "") else "",
      Arg(req.pathLength, "all"))
  }

  function MinConversions(req: Request): int
  {
    match req.minConversions
    case None => Config.MinConversionsDefault
    case Some(n) => n
  }

  /** What the database is asked for: the time window, the `OR`ed option conditions and the row limit. */
  datatype Query = Query(timeRange: string, clauses: seq<string>, params: seq<string>, limit: nat)

  /**
   * The keyword filter on the step identifiers: `matches(identifier, keyword)`
   * stands for pandas' case-insensitive regular-expression search.
   */
  function KeywordFilter(events: seq<DataProcessor.Event>, keyword: string, matches: (string, string) -> bool)
    : (r: seq<DataProcessor.Event>)
    ensures |r| <= |events|
    ensures forall e :: e in r <==> e in events && matches(e.stepIdentifier, keyword)
  {
    if events == [] then []
    else
      var init := events[..|events| - 1];
      var last := events[|events| - 1];
      assert events == init + [last];
      KeywordFilter(init, keyword, matches) + (if matches(last.stepIdentifier, keyword) then [last] else [])
  }

  /** The events the paths are built from: preprocessed, then narrowed by a non-empty keyword. */
  function PipelineEvents(req: Request, rows: seq<DataProcessor.RawEvent>, parse: string -> DataProcessor.UrlParts,
                          matches: (string, string) -> bool): (r: seq<DataProcessor.Event>)
    ensures |r| <= |rows|
    ensures forall e :: e in r ==> e in DataProcessor.Preprocess(rows, parse)
    ensures Arg(req.pageFilter, "") == "" ==> r == DataProcessor.Preprocess(rows, parse)
    ensures forall e :: e in DataProcessor.Preprocess(rows, parse) ==>
              (e in r <==> Arg(req.pageFilter, "") == "" || matches(e.stepIdentifier, Arg(req.pageFilter, "")))
  {
    var events := DataProcessor.Preprocess(rows, parse);
    var keyword := Arg(req.pageFilter, "");
    if keyword != "" then KeywordFilter(events, keyword, matches) else events
  }

  /** The paths kept for the response: those counted at least `minConversions` times. */
  function FilteredPaths(req: Request, rows: seq<DataProcessor.RawEvent>, parse: string -> DataProcessor.UrlParts,
                         matches: (string, string) -> bool): (r: Counters.Table<string>)
    ensures forall e :: e in r <==>
              e in PathAnalyzer.UserPaths(PipelineEvents(req, rows, parse, matches), PathQueryOf(req))
              && e.count >= MinConversions(req)
  {
    var paths := PathAnalyzer.UserPaths(PipelineEvents(req, rows, parse, matches), PathQueryOf(req));
    Counters.AtLeast(paths, MinConversions(req))
  }

  // ---------------------------------------------------------------- response

  datatype AnalysisResult = AnalysisResult(
    nodes: seq<string>,
    links: seq<PathViews.Link>,
    steps: Counters.Table<string>,
    funnel: seq<PathReports.FunnelEntry>,
    totalUsers: Option<nat>,
    stats: seq<(string, PathReports.PathStat)>)

  datatype Response = Failure(status: nat, message: string) | Success(result: AnalysisResult)

  const NoOptionsMessage: string := "请至少选择一个分析选项"
  const InvalidOptionsMessage: string := "无效的选择选项"

  /** `get_empty_result`: empty views, and no `totalUsers` field at all. */
  const EmptyResult: AnalysisResult := AnalysisResult([], [], [], [], None, [])

  /**
   * What the full response states about the table it was computed from:
   * the Sankey view, the step distribution, the conversion funnel with its
   * `totalUsers`, and one statistics row per path.
   */
  ghost predicate Describes(r: AnalysisResult, t: Counters.Table<string>)
  {
    PathViews.IsSankey(t, r.nodes, r.links)
    && r.steps == Counters.Accumulate(PathReports.BucketItems(t))
    && r.totalUsers.Some? && PathReports.IsConversion(t, r.funnel, r.totalUsers.value)
    && |r.stats| == |t|
    && (forall i :: 0 <= i < |t| ==> r.stats[i] == (t[i].key, PathReports.StatOf(t[i].key, t[i].count, Counters.Total(t))))
  }

  /** `generate_analysis_result`: the four views of one table. */
  method GenerateAnalysisResult(t: Counters.Table<string>) returns (r: AnalysisResult)
    ensures Describes(r, t)
  {
    var nodes, links := PathViews.BuildSankey(t);
    var steps := PathReports.StepDistribution(t);
    var funnel, totalUsers := PathReports.PathConversion(t);
    var stats := PathReports.PathStats(t);
    r := AnalysisResult(nodes, links, steps, funnel, Some(totalUsers), stats);
  }

  /**
   * `user_path_analysis_api`: rejects a request without options or without
   * a usable option, answers with the empty result when no rows come back
   * or no path reaches `minConversions`, and otherwise describes the kept
   * paths.
   */
  method UserPathAnalysis(req: Request, fetch: Query -> seq<DataProcessor.RawEvent>,
                          parse: string -> DataProcessor.UrlParts, matches: (string, string) -> bool)
    returns (resp: Response)
    ensures var options := SelectedOptions(req);
            (options == [] || options == [""]) ==> resp == Failure(400, NoOptionsMessage)
    ensures var options := SelectedOptions(req);
            options != [] && options != [""] && ConditionsOf(options) == [] ==> resp == Failure(400, InvalidOptionsMessage)
    ensures var options := SelectedOptions(req);
            var conds := ConditionsOf(options);
            var query := Query(Arg(req.timeRange, "last7days"),
                               seq(|conds|, i requires 0 <= i < |conds| => conds[i].clause),
                               seq(|conds|, i requires 0 <= i < |conds| => conds[i].param),
                               Config.MaxQueryLimit);
            var rows := fetch(query);
            options != [] && options != [""] && conds != [] ==>
              (rows == [] ==> resp == Success(EmptyResult)) &&
              (rows != [] && FilteredPaths(req, rows, parse, matches) == [] ==> resp == Success(EmptyResult)) &&
              (rows != [] && FilteredPaths(req, rows, parse, matches) != [] ==>
                 resp.Success? && Describes(resp.result, FilteredPaths(req, rows, parse, matches)))
  {
    var options := SelectedOptions(req);
    if options == [] || options == [""] {
      return Failure(400, NoOptionsMessage);
    }
    var clauses, params := BuildQueryConditions(options);
    if clauses == [] {
      return Failure(400, InvalidOptionsMessage);
    }
    var conds := ConditionsOf(options);
    assert clauses == seq(|conds|, i requires 0 <= i < |conds| => conds[i].clause);
    assert params == seq(|conds|, i requires 0 <= i < |conds| => conds[i].param);
    var rows := fetch(Query(Arg(req.timeRange, "last7days"), clauses, params, Config.MaxQueryLimit));
    if rows == [] {
      return Success(EmptyResult);
    }
    var events := DataProcessor.Preprocess(rows, parse);
    var keyword := Arg(req.pageFilter, "");
    if keyword != "" {
      events := KeywordFilter(events, keyword, matches);
    }
    assert events == PipelineEvents(req, rows, parse, matches);
    var paths := PathAnalyzer.BuildUserPaths(events, PathQueryOf(req));
    var filtered := Counters.AtLeast(paths, MinConversions(req));
    assert filtered == FilteredPaths(req, rows, parse, matches);
    if filtered == [] {
      return Success(EmptyResult);
    }
    var result := GenerateAnalysisResult(filtered);
    return Success(result);
  }
}
