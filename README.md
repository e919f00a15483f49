# Mini-program path analysis, modelled in Dafny

This project models the path-analysis pipeline of a mini-program analytics
backend and proves properties about it. The pipeline turns a user's tracked
events into counted navigation paths and then summarises the path table.

1. **Event normalisation.** Each fetched row gets:
   - a display label for its event code;
   - a cleaned page path;
   - a composite *step identifier*: the label plus at most one context
     suffix, chosen by priority.
2. **Sessions and paths.** Events are ordered by user and time. A new session
   starts at a user's first event or after a gap of more than 30 minutes.
   Within a session, runs of equal step identifiers collapse to one step. The
   anchor and length filters then apply, and each surviving path adds one to
   the count of its key `step₁ → step₂ → …`.
3. **Minimum-count filter.** Only paths counted at least `minConversions`
   times are kept.
4. **Views** over the kept table:
   - the Sankey diagram: nodes ordered by mean step position, forward links
     only;
   - the path-length distribution;
   - the funnel of the six most frequent steps, with `totalUsers`;
   - per-path statistics;
   - the most popular paths;
   - summary metrics.

The model also covers the SQL condition builder behind the endpoint and the
operating-system label mapping of the dashboard.

Modules, one per source file, plus shared helpers:

- `Wrappers`, `Text` (`text.dfy`): Python string operations on `seq<char>`. These are `in`, `str.replace`, `split`, `strip`, slicing, ASCII `lower`/`title`, and code-point string order.
- `Config` (`config.dfy`): the constant tables of `config.py`.
- `Counters` (`counters.dfy`): Python's `Counter`/`dict` as an insertion-ordered sequence of `(key, count)` entries.
- `DataProcessor` (`data_processor.dfy`): `utils/data_processor.py`.
- `PathCodec` (`path_codec.dfy`): joining a path with `" → "` and splitting a key back into steps.
- `PathAnalyzer` (`path_analyzer.dfy`): option keys, sessions and path counting from `utils/path_analyzer.py`.
- `PathViews` (`path_views.dfy`): step positions and the Sankey builder.
- `PathReports` (`path_reports.dfy`): distribution, funnel, statistics, popular paths and metrics.
- `UserPath` (`user_path.dfy`): `api/user_path.py`.
- `Dashboard` (`dashboard.dfy`): `map_os_name` from `api/dashboard.py`.

Where the source mutates state in loops, the model uses methods with loops. Examples are the path builder, the position and transition accumulators, the Sankey links, the distribution and funnel counters, and the condition builder. Each method is proved equal to a specification function, and the properties are lemmas about that function. Expression-style code becomes functions.

Assumptions:
- Timestamps are integer seconds.
- `urlparse`, the domain extractor's network location and pandas' case-insensitive search are function parameters.
- The database is a function parameter from the query to the returned rows.

Places where the code and its design description differ; the model follows the code:
- A funnel display name keeps the text before the *first* `:`, and then before the first `(`. It does not strip only a trailing segment.
- The empty result has no `totalUsers` field at all (`api/user_path.py:160-167`). It is not a zero.
- The path builder hard-codes the 30-minute timeout (`utils/path_analyzer.py:51`). It does not read `SESSION_TIMEOUT`. `build_session_paths` takes the timeout in minutes as a parameter.

## Model

| member | source | states |
|---|---|---|
| Config.MappingLabelsProper | config.py:32-67 | every mapped event label is non-empty and differs from its code |
| DataProcessor.FormatEventName | utils/data_processor.py:13-35 | empty code gives `未知事件`; a mapped code gives exactly its label; an unmapped code gives the `$MP`/`$`/`_`-stripped title-cased fallback, or the code itself when that is empty; the result is never empty |
| DataProcessor.FallbackLabel | utils/data_processor.py:31 | the fallback label of an unmapped code contains no `$` and no `_` |
| DataProcessor.PageName | utils/data_processor.py:53-57 | the `pages/` branch result contains no `/` |
| DataProcessor.DropQuery | utils/data_processor.py:60-61 | the result is the input exactly when it has no `?`; otherwise it is the part before the first `?`, which holds none |
| DataProcessor.DropExtension | utils/data_processor.py:64-67 | the result is the input, or the input minus `.ext` for a page extension `ext`; an input without `.` is kept whole |
| DataProcessor.DropExtensionOnlyLast | utils/data_processor.py:64-67 | only the text after the last dot can be cut, and it holds no other dot |
| DataProcessor.CutTail | utils/data_processor.py:60-67 | dropping the query and then the extension leaves a prefix of the path, cut at a `?` or a `.`; a path with neither is kept whole |
| DataProcessor.CleanPagePath | utils/data_processor.py:37-73 | a null or excluded value (compared lowercased) gives `unknown`; any other result is non-empty, not `/` and has no `?`; it is a prefix of the page name in the `pages/` branch (with no `/`) and of the path otherwise, cut at a `?` or `.`; a path outside the `pages/` branch with no `?` and no `.` passes through unchanged |
| DataProcessor.ExtractDomain | utils/data_processor.py:75-99 | blank input or no network location gives `direct`; otherwise the host with one leading `www.` removed |
| DataProcessor.CategorizeReferrer | utils/data_processor.py:104-124 | blank gives `('direct','直接访问')`; else the first table key, in order, contained in the lowercased domain; else `(domain, '来源: '+domain)` |
| DataProcessor.FindFirstMatch | utils/data_processor.py:120-122 | the referrer scan stops at the first table entry, in order, whose key occurs in the lowercased domain, and finds none when no key occurs |
| DataProcessor.UrlSuffix | utils/data_processor.py:221-230 | the cleaned path is `urlparse(url).path`, or the network location when that path is empty or `/`; the suffix is that path cleaned, in parentheses, unless it is empty or cleans to `unknown`, in which case nothing is added |
| DataProcessor.StepSuffix | utils/data_processor.py:212-233 | exactly one suffix in priority order: title (20 chars), screen name (20), clean path, URL path, stripped element content (15) in brackets |
| DataProcessor.StepIdentifier | utils/data_processor.py:191-235 | the identifier starts with the event label, is non-empty, and the rest is the chosen suffix |
| DataProcessor.UrlShadowsElementContent | utils/data_processor.py:221-233 | with a non-blank URL the suffix is empty or parenthesised, so element content is never used |
| DataProcessor.PathLengthFilter | utils/data_processor.py:237-261 | `2-3`, `4-5`, `6-8` are inclusive ranges, `9+` is ≥ 9, anything else passes |
| DataProcessor.BucketsPartition | utils/data_processor.py:248-259 | a path of two or more steps passes exactly one of the four named buckets |
| DataProcessor.Normalize | utils/data_processor.py:277-282 | one row keeps its fields, gets its `createdAt` as timestamp, `clean_page_path` of its URL path, and the step identifier label + suffix built from that clean path |
| DataProcessor.Preprocess | utils/data_processor.py:263-284 | rows keep their order and count, and the i-th result is the i-th row normalised: its timestamp, its clean path `clean_page_path(url_path)` and its step identifier, which starts with its event label |
| PathCodec.SplitJoin | utils/path_analyzer.py:84 | splitting `' → '.join(p)` gives `p` back when no step contains `→` |
| PathCodec.JoinInjective | utils/path_analyzer.py:84 | distinct arrow-free paths get distinct keys |
| PathCodec.SeparatorFreeStepsCanCollide | utils/path_analyzer.py:84 | two different paths whose steps avoid `' → '` can share a key |
| PathAnalyzer.ExtractOptionKey | utils/path_analyzer.py:8-29 | an `event_` option never gives an empty key; an option without a known prefix comes back unchanged |
| PathAnalyzer.OptionKeyOfValue | utils/path_analyzer.py:21-28 | `prefix + v` names `v` when `v` does not contain the prefix text |
| PathAnalyzer.EventOptionKey | utils/path_analyzer.py:18-20 | `event_` + code names the display label of the code |
| PathAnalyzer.OptionKeyDropsInnerOccurrence | utils/path_analyzer.py:21-22 | `str.replace` removes inner occurrences too: `page_a_page_b` names `a_b` |
| PathAnalyzer.EventLeTotal | utils/path_analyzer.py:48 | the `(distinct_id, timestamp)` order is total |
| PathAnalyzer.EventLeTrans | utils/path_analyzer.py:48 | the `(distinct_id, timestamp)` order is transitive |
| PathAnalyzer.SortByUserTime | utils/path_analyzer.py:48 | the sorted events are a permutation of the input, ordered by user then time |
| PathAnalyzer.SessionNumber | utils/path_analyzer.py:49-52 | a session number is at least 1, and exactly 1 at a user's first event |
| PathAnalyzer.SessionNumberCountsFlags | utils/path_analyzer.py:52 | the session number is the running count of the user's new-session flags |
| PathAnalyzer.SessionNumberStep | utils/path_analyzer.py:49-51 | a gap strictly above the timeout opens the next session; a gap equal to or below it keeps the number |
| PathAnalyzer.SortedGapsNonNegative | utils/path_analyzer.py:48-49 | after sorting, a user's previous event is never later |
| PathAnalyzer.BuildSessionPaths | utils/path_analyzer.py:302-332 | the events sorted by user and time, each numbered with its session under `60 × minutes` seconds |
| PathAnalyzer.SessionKeys | utils/path_analyzer.py:53-55 | the `session_global` groups: distinct, and exactly the sessions that occur |
| PathAnalyzer.SessionStepsNonEmpty | utils/path_analyzer.py:55-61 | every session that occurs has at least one step |
| PathAnalyzer.Collapse | utils/path_analyzer.py:59-65 | collapsing keeps the first and last step and the set of steps, never lengthens, and leaves no equal adjacent steps |
| PathAnalyzer.CollapseIdentity | utils/path_analyzer.py:63-65 | a path without adjacent duplicates is its own collapse |
| PathAnalyzer.CollapseIdempotent | utils/path_analyzer.py:63-65 | collapsing twice equals collapsing once |
| PathAnalyzer.CollapseIsRunHeads | utils/path_analyzer.py:59-65 | collapsing keeps exactly the steps `s[i]` with `i == 0` or `s[i] != s[i-1]`, in order |
| PathAnalyzer.SessionPath | utils/path_analyzer.py:56-65 | the append loop builds exactly the run-collapse of the session's steps in time order |
| PathAnalyzer.FirstTwo | utils/path_analyzer.py:73 | `path[:2]` is the first two steps |
| PathAnalyzer.LastTwo | utils/path_analyzer.py:77 | `path[-2:]` is the last two steps |
| PathAnalyzer.StartAnchor | utils/path_analyzer.py:71-74 | a start anchor keeps a path iff its first or second step contains the extracted key |
| PathAnalyzer.EndAnchor | utils/path_analyzer.py:75-78 | an end anchor keeps a path iff one of its last two steps contains the extracted key |
| PathAnalyzer.PassesAnchor | utils/path_analyzer.py:71-78 | a query that is not `start` with a start option, nor `end` with an end option, lets every path through |
| PathAnalyzer.Survives | utils/path_analyzer.py:67-83 | a counted path has at least two steps and passes the length bucket; with no anchor and length `all` every path of two or more steps is counted |
| PathAnalyzer.BuildUserPaths | utils/path_analyzer.py:31-87 | the returned table is the tally of the keys of the surviving session paths |
| PathAnalyzer.CountSessionPaths | utils/path_analyzer.py:55-85 | the session loop adds one per surviving path to its key's count |
| PathAnalyzer.SurvivingKeysMeaning | utils/path_analyzer.py:67-85 | a key is counted iff it is the join of some session path that passes the length-2, anchor and length filters |
| PathAnalyzer.UserPathsMeaning | utils/path_analyzer.py:81-87 | the counts sum to the number of surviving sessions; each key joins a path of ≥ 2 steps with no adjacent duplicates that passes every filter |
| PathAnalyzer.UserPaths | utils/path_analyzer.py:31-87 | the path table has distinct keys, each counted at least once |
| PathViews.StepPositions | utils/path_analyzer.py:89-118 | one entry per step of the table, holding Σ index·count and Σ count over its occurrences |
| PathViews.AddPathPositions | utils/path_analyzer.py:104-111 | one path's occurrences added with the path's count |
| PathViews.PositionBound | utils/path_analyzer.py:114-116 | a mean position is at most the longest path length minus one |
| PathViews.CollectSteps | utils/path_analyzer.py:135-146 | the distinct steps of the table, and the transition counter: per adjacent pair, the count-weighted number of occurrences, with total Σ(len−1)·count |
| PathViews.AddPathTransitions | utils/path_analyzer.py:144-146 | one path's adjacent pairs added with the path's count |
| PathViews.PositionLeTrans | utils/path_analyzer.py:153 | comparing mean positions by cross-multiplying is transitive |
| PathViews.SortByPosition | utils/path_analyzer.py:153 | the nodes are a permutation of the steps, in non-decreasing mean position |
| PathViews.PermutationDistinct | utils/path_analyzer.py:153-155 | sorting the distinct steps keeps each step exactly once |
| PathViews.SankeyNodes | utils/path_analyzer.py:152-155 | nodes: every step exactly once, ordered by mean position |
| PathViews.IndexMap | utils/path_analyzer.py:156 | `step_to_index` maps each node to its own position |
| PathViews.PairSetSteps | utils/path_analyzer.py:139-146 | both ends of every transition are steps of the table |
| PathViews.LinksSound | utils/path_analyzer.py:159-172 | every link goes forward, names its two nodes and carries a transition's count |
| PathViews.LinksCover | utils/path_analyzer.py:159-172 | every forward transition between nodes gets a link |
| PathViews.LinksDistinct | utils/path_analyzer.py:159-172 | no two links join the same pair of nodes |
| PathViews.LinksWeight | utils/path_analyzer.py:159-172 | the links carry no more than the transitions' total count |
| PathViews.ForwardLinks | utils/path_analyzer.py:159-172 | the link loop builds exactly the forward links, in counter order |
| PathViews.BuildSankey | utils/path_analyzer.py:120-174 | empty input gives no nodes or links; nodes hold each step once in mean-position order; each link goes forward, names its two nodes and carries the pair's weighted count; every forward pair is linked, no pair twice; total link value ≤ Σ(len−1)·count |
| PathReports.StepDistribution | utils/path_analyzer.py:180-206 | the loop accumulates each path's count under its length label |
| PathReports.BucketOf | utils/path_analyzer.py:195-202 | `1-3`, `4-5`, `6-8` and `9+` steps get their own label, and each label is returned for exactly its range |
| PathReports.BucketItemsTotal | utils/path_analyzer.py:192-205 | the label totals sum to the table's total, and only the four labels occur |
| PathReports.BucketItemsMatchFilter | utils/path_analyzer.py:195-202 | the i-th label's total is the weight of the paths the i-th length bucket of the request filter lets through |
| PathReports.DistributionMeaning | utils/path_analyzer.py:180-207 | the distribution has only the four labels, the table's total, and per label the weight of its length bucket |
| PathReports.StepCounts | utils/path_analyzer.py:225-229 | each step's total is its count-weighted number of occurrences, so a repeated step counts per occurrence |
| PathReports.CountSteps | utils/path_analyzer.py:225-229 | the nested loop computes those step totals |
| PathReports.DisplayName | utils/path_analyzer.py:238-241 | the longest prefix of the step without `:` or `(` |
| PathReports.FunnelOf | utils/path_analyzer.py:235-246 | one funnel entry per top step: its count and display name |
| PathReports.FunnelStepsShape | utils/path_analyzer.py:232-235 | six steps, or all when fewer, with distinct keys, in non-increasing order, each with its step total |
| PathReports.FunnelStepsTop | utils/path_analyzer.py:232-235 | a step whose total exceeds the last funnel entry's is in the funnel |
| PathReports.FunnelLayout | utils/path_analyzer.py:232-246 | the funnel built from the top steps has min(6, #steps) entries in non-increasing order, and shows distinct steps, each with its total under its display name |
| PathReports.FunnelCovers | utils/path_analyzer.py:232-246 | every step whose total exceeds the funnel's last value is shown in the funnel |
| PathReports.PathConversion | utils/path_analyzer.py:209-253 | the funnel has min(6, #steps) entries, non-increasing, showing distinct steps each with its total under its display name, with every step above the cut-off present; `totalUsers` bounds every step total, is attained, is 0 without steps and heads the funnel |
| PathReports.ConversionTotal | utils/path_analyzer.py:248 | the maximum step total is attained, bounds all steps and is the first sorted entry |
| PathReports.NonEmptyHasSteps | utils/path_analyzer.py:225-229 | a non-empty table has at least one step |
| PathReports.ConversionRate | utils/path_analyzer.py:285-287 | the rate is the raw estimate `80 − 5·len + count mod 15` when that exceeds 10, else 10, so it is never below either |
| PathReports.ConversionRateBounds | utils/path_analyzer.py:285-287 | the rate lies in [10, 89], and in [10, 84] for paths of two or more steps |
| PathReports.ConversionRateMonotone | utils/path_analyzer.py:285-287 | a longer path never gets a higher rate for the same count |
| PathReports.ConversionRateFloor | utils/path_analyzer.py:285-287 | from 17 steps on the rate is 10 |
| PathReports.PageSteps | utils/path_analyzer.py:281 | the page steps number 0 iff no step contains `:`, and all the steps iff every one does |
| PathReports.DurationTenths | utils/path_analyzer.py:279-282 | the estimate is `15·n·(1 + 0.3·k) + count mod 20` seconds, in tenths, for `n` steps of which `k` are page steps |
| PathReports.StatOf | utils/path_analyzer.py:274-294 | one path's record: its count, its share of the total, the duration estimate and the conversion rate of its steps |
| PathReports.Percentage | utils/path_analyzer.py:272-276 | the share equals `100·count / total` over a positive denominator, is at most 100% when count ≤ total, and is 0 when there are no users |
| PathReports.PathStats | utils/path_analyzer.py:259-300 | one record per path in table order, with its count, share, duration estimate and rate |
| PathReports.SharesAddUp | utils/path_analyzer.py:272-276 | over a common positive total the share numerators add up to 100 × the table total, so the shares add up to exactly 100% |
| PathReports.ShareBound | utils/path_analyzer.py:272-276 | no path counts more than the table's total |
| PathReports.PopularPaths | utils/path_analyzer.py:334-345 | the first `topN` entries in non-increasing order, taken from the table without repeating any, none outranked by a left-out entry |
| PathReports.PathMetrics | utils/path_analyzer.py:347-372 | nothing for an empty table; otherwise the path count, total users, exact averages, and attained extremes of path length and count |
| Counters.AtLeast | api/user_path.py:69 | exactly the entries with count ≥ threshold, counts unchanged |
| Counters.AtLeastDistinct | api/user_path.py:69 | the filtered table keeps distinct keys and a subset of the keys |
| Counters.AtLeastCounts | api/user_path.py:69 | a key's filtered count is its count if that meets the threshold, else 0 |
| Counters.AtLeastIdempotent | api/user_path.py:69 | filtering twice with the same threshold changes nothing |
| Counters.Tally | utils/path_analyzer.py:84-85 | `user_paths[key] += 1`: distinct keys, each counted by its occurrences, total = number of keys counted |
| Counters.Accumulate | utils/path_analyzer.py:204 | `counter[key] += count` over items: distinct keys, per-key and total sums preserved |
| Counters.Add | utils/path_analyzer.py:85 | `counter[k] += n`: keys stay distinct, the count of `k` grows by `n` and no other count changes, `k` joins the keys, an existing key keeps the key order |
| Counters.SortByCountDesc | utils/path_analyzer.py:232 | a permutation in non-increasing count order |
| Counters.TopEntries | utils/path_analyzer.py:345 | the first n of the descending order are a sub-multiset of the table and are never outranked by an entry left out |
| UserPath.ConditionOf | api/user_path.py:97-117 | an option yields a condition iff it has one of the five prefixes |
| UserPath.ConditionsOf | api/user_path.py:94-119 | at most one condition per option, each the condition of one of the options |
| UserPath.ConditionMatchesOptionKey | api/user_path.py:98-117 | the bound parameter is the option's key: an event code whose label is the key, the key itself for a title, `%key%` for page, URL and referrer |
| UserPath.ConditionsEmpty | api/user_path.py:94-119 | no conditions iff no option has a known prefix |
| UserPath.BuildQueryConditions | api/user_path.py:84-119 | equal-length clause and parameter lists, one per recognised option, in input order |
| UserPath.SelectedOptions | api/user_path.py:24 | an absent or empty parameter selects nothing; otherwise the comma-separated pieces, which hold no comma and join back to the parameter |
| UserPath.PathQueryOf | api/user_path.py:25-28 | the path type and length are the parameters, defaulting to `start` and `all`; the start option is the parameter (default empty) for `start` and empty otherwise, and likewise the end option for `end` |
| UserPath.KeywordFilter | api/user_path.py:62-63 | keeps exactly the events whose step identifier matches the keyword |
| UserPath.PipelineEvents | api/user_path.py:58-63 | the preprocessed rows, all of them without a keyword, and otherwise exactly those whose step identifier matches it |
| UserPath.FilteredPaths | api/user_path.py:65-69 | exactly the entries of the path table counted at least `minConversions` times |
| UserPath.GenerateAnalysisResult | api/user_path.py:169-190 | the Sankey view, the step distribution, the conversion funnel with `totalUsers`, and the per-path statistics of the one table, each with the full contract of its builder |
| UserPath.UserPathAnalysis | api/user_path.py:19-78 | 400 for no options and for no usable option, before any query; the empty result when no rows come back or no path reaches `minConversions`; otherwise the four views of the filtered table, with their full contracts |
| Dashboard.MapOsName | api/dashboard.py:212-237 | the label of the first key in table order contained in the lowercased name; else the title-cased name up to 10 characters, `其他` beyond |
| Dashboard.AppleNames | api/dashboard.py:222-235 | a name containing `ios`, `iphone` or `ipad` in any case gives `iOS` |
| Dashboard.AndroidNames | api/dashboard.py:222-235 | a name containing `android` and no Apple key gives `Android` |
| Dashboard.OsNameRange | api/dashboard.py:222-237 | the result is a table label, `其他`, or the title-cased short name |
| Dashboard.NoKeyLetters | api/dashboard.py:232-235 | a lowercased name without the letters `i a w m l` matches no key of the table |
| Dashboard.LongUnknownName | api/dashboard.py:237 | a name that contains none of the keys in lower case and is longer than 10 characters gives `其他` |
| Dashboard.ShortUnknownName | api/dashboard.py:232-237 | a name that contains none of the keys in lower case and has at most 10 characters gives its title-cased form |
| Dashboard.FreeBsdServerIsOther | api/dashboard.py:232-237 | `FreeBSD-Server` matches no key and gives `其他` |
| Text.SplitOnJoin | api/user_path.py:24 | joining the comma pieces gives the parameter back |

## Left out

- I/O: database access (`database.py`) and the SQL text around the conditions. The database is a parameter from the query (time range, clauses, parameters, row limit 5000) to rows. `ORDER BY` and `LIMIT` are not enforced on the returned rows.
- The Flask app, blueprints, CORS and security headers (`app.py`, `api/__init__.py`, `utils/__init__.py`): wiring only.
- `api/analysis.py`: option lists produced by SQL queries.
- `api/dashboard.py` apart from `map_os_name`: SQL metrics, float averages and sample data.
- `get_time_condition`: it reads the wall clock. The time range is passed to the database parameter unevaluated.
- `extract_json_property`: it needs a JSON parser.
- `urlparse` and the network location used by `extract_domain_from_url`: function parameters.
- The `try`/`except` empty-structure fallbacks and the 500 response of the handler: exceptions are not modelled.
- Parsing `minConversions` with `int()`: the request carries it already as an integer, so the `ValueError` path is not modelled.
- The `event_duration` column (`utils/data_processor.py:279`): no modelled code uses it.
- Mock data generators (`utils/data_processor.py:286-327`, `api/user_path.py:193-244`).
- Environment-based config selection in `config.py`.
- String formatting of the statistics (`f"{x:.1f}%"`, `f"{d}s"`): the model keeps the numbers.
- Text.Lower, Text.Title: ASCII-only case mapping; Python's Unicode case mapping of non-ASCII letters is not modelled.
- UserPath.KeywordFilter: does not model the regular-expression, case-insensitive search itself. pandas' `str.contains(..., case=False)` is the `matches` parameter.
- PathReports.DurationTenths: the duration estimate is the exact value in tenths of a second. Floating-point error in `1 + 0.3·k` and Python's `round(…, 1)` are not modelled.
- PathReports.Percentage: the share is an exact ratio; the float division is not modelled.
- PathReports.PathMetrics: `avg_path_length` and `avg_users_per_path` are exact ratios, not floats.
- PathViews.StepPositions: mean positions are pairs (Σ index·count, Σ count) compared by cross-multiplication. Float division and the rounding ties it could cause are not modelled.
- PathAnalyzer.SortByUserTime, PathViews.SortByPosition, Counters.SortByCountDesc: the order among ties is not claimed. pandas' sort is unstable, and Sankey nodes come from a `set`. The model fixes one resolution of ties.
- PathAnalyzer.BuildUserPaths: sessions are visited in order of first appearance after sorting, not in `groupby`'s label order. So the order of entries in the table is not claimed; the counts are.
- PathCodec.SplitJoin: the source never checks that steps are free of `→`. This matters only where a key is read back as the path that produced it. The Sankey, funnel and statistics views work on the split pieces whatever they are.
