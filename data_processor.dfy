/**
 * Event normalisation: event labels, page-path cleaning, referrer
 * classification, the composite step identifier, the path-length buckets and
 * the per-record preprocessing of the fetched event table.
 */
module DataProcessor {
  import opened Wrappers
  import opened Text
  import Config

  /** Label of an event with no code. */
  const UnknownEvent: string := "未知事件"

  /** Sentinel of a path that carries no information. */
  const Unknown: string := "unknown"

  /** Extensions dropped from the end of a page path. */
  const PageExtensions: seq<string> := ["html", "htm", "php", "jsp", "asp"]

  // ---------------------------------------------------------------- labels

  /** The best-effort label of an unmapped code: drop `$MP`, then `$`, turn `_` into spaces, title-case. */
  function FallbackLabel(event: string): (r: string)
    ensures '$' !in r && '_' !in r
  {
    var a := ReplaceAll(event, "$MP", "");
    var b := ReplaceAll(a, "$", "");
    var c := ReplaceAll(b, "_", " ");
    ReplaceCharGone(a, '$', "");
    ReplaceCharGone(b, '_', " ");
    assert '$' !in c by {
      if '$' in c {
        ReplaceChars(b, "_", " ", '$');
      }
    }
    TitleKeepsUncased(c, '$');
    TitleKeepsUncased(c, '_');
    Title(c)
  }

  /** `format_event_name`: display label of an event code. */
  function FormatEventName(event: string): (r: string)
    ensures event == [] ==> r == UnknownEvent
    ensures event in Config.EventNameMapping ==> r == Config.EventNameMapping[event]
    ensures event != [] && event !in Config.EventNameMapping ==>
              || (FallbackLabel(event) == [] && r == event)
              || (r == FallbackLabel(event) && r != [] && '$' !in r && '_' !in r)
    ensures r != []
  {
    Config.MappingLabelsProper();
    if event == [] then UnknownEvent
    else
      var mapped := if event in Config.EventNameMapping then Config.EventNameMapping[event] else event;
      if mapped == event then
        var formatted := FallbackLabel(event);
        if formatted == [] then event else formatted
      else mapped
  }

  // ---------------------------------------------------------------- paths

  /** The `pages/` convention: drop every `pages/` and `tabBar/`, keep the last segment. */
  function PageName(s: string): (r: string)
    ensures '/' !in r
  {
    var t := ReplaceAll(ReplaceAll(s, "pages/", ""), "tabBar/", "");
    if '/' in t then AfterLast(t, '/') else t
  }

  /** Drops a query string: the text before the first `?`. */
  function DropQuery(s: string): (r: string)
    ensures '?' !in r && r <= s
    ensures forall c :: c !in s ==> c !in r
    ensures r == s <==> '?' !in s
    ensures r != s ==> |r| < |s| && s[|r|] == '?'
  {
    if '?' in s then
      var r := BeforeFirst(s, '?');
      assert r == s[..|r|];
      r
    else s
  }

  /** Drops the last `.ext` when `ext` is a page extension. */
  function DropExtension(s: string): (r: string)
    ensures r <= s
    ensures forall c :: c !in s ==> c !in r
    ensures r == s || exists ext :: ext in PageExtensions && s == r + "." + ext
    ensures r != s ==> |r| < |s| && s[|r|] == '.'
    ensures '.' !in s ==> r == s
  {
    if '.' in s && AfterLast(s, '.') in PageExtensions then
      var r := BeforeLast(s, '.');
      assert r == s[..|r|];
      r
    else s
  }

  /** Only an extension after the LAST dot can go: what is cut contains no other dot. */
  lemma DropExtensionOnlyLast(s: string)
    ensures DropExtension(s) == s || ('.' in s && s == DropExtension(s) + "." + AfterLast(s, '.')
                                        && AfterLast(s, '.') in PageExtensions && '.' !in AfterLast(s, '.'))
  {
  }

  lemma PrefixKeepsAbsence(r: string, s: string, c: char)
    requires r <= s && c !in s
    ensures c !in r
  {
    assert r == s[..|r|];
  }

  /** Dropping the query and then the extension keeps a prefix, cut only at a `?` or a `.`. */
  lemma CutTail(named: string)
    ensures var s := DropExtension(DropQuery(named));
            s <= named && (s == named || named[|s|] == '?' || named[|s|] == '.') &&
            ('?' !in named && '.' !in named ==> s == named)
  {
    var q := DropQuery(named);
    var s := DropExtension(q);
    if s != q {
      assert named[|s|] == q[|s|];
    }
  }

  /** `clean_page_path`: the sanitised path, or `unknown`. */
  function CleanPagePath(path: Option<string>): (r: string)
    ensures path.None? || Lower(path.value) in Config.ExcludedPaths ==> r == Unknown
    ensures r == Unknown || (r != [] && r != "/" && '?' !in r)
    ensures path.Some? && "pages/" <= path.value ==> '/' !in r
    ensures path.Some? && Lower(path.value) !in Config.ExcludedPaths && "pages/" <= path.value && r != Unknown ==>
              r <= PageName(path.value)
    ensures path.Some? && Lower(path.value) !in Config.ExcludedPaths && !("pages/" <= path.value) && r != Unknown ==>
              r <= path.value && (r == path.value || path.value[|r|] == '?' || path.value[|r|] == '.')
    ensures path.Some? && Lower(path.value) !in Config.ExcludedPaths && !("pages/" <= path.value)
            && '?' !in path.value && '.' !in path.value && path.value != [] && path.value != "/" ==>
              r == path.value
  {
    if path.None? || Lower(path.value) in Config.ExcludedPaths then Unknown
    else
      var p := path.value;
      var named := if "pages/" <= p then PageName(p) else p;
      var q := DropQuery(named);
      var s := DropExtension(q);
      PrefixKeepsAbsence(s, q, '?');
      CutTail(named);
      if s == [] || s == "/" then Unknown else s
  }

  // ---------------------------------------------------------------- referrers

  /** `extract_domain_from_url`, with `netloc` standing for the network location `urlparse` finds. */
  function ExtractDomain(url: string, netloc: string -> string): (r: string)
    ensures IsBlank(url) || netloc(url) == [] ==> r == "direct"
    ensures !IsBlank(url) && netloc(url) != [] ==>
              if "www." <= netloc(url) then netloc(url) == "www." + r else r == netloc(url)
  {
    if IsBlank(url) then "direct"
    else
      var domain := netloc(url);
      if domain == [] then "direct"
      else if "www." <= domain then domain[4..] else domain
  }

  /** The scan of `categorize_referrer`: the first entry, in table order, whose key occurs in `s`. */
  method FindFirstMatch<V>(table: seq<(string, V)>, s: string) returns (found: Option<nat>)
    ensures found == FirstMatch(table, s)
  {
    var i := 0;
    while i < |table|
      invariant 0 <= i <= |table|
      invariant forall j :: 0 <= j < i ==> !Contains(s, table[j].0)
    {
      if Contains(s, table[i].0) {
        FirstMatchIs(table, s, i);
        return Some(i);
      }
      i := i + 1;
    }
    FirstMatchIs(table, s, i);
    return None;
  }

  /**
   * `categorize_referrer`: the first referrer keyword, in table order,
   * contained in the lower-cased domain names the channel; otherwise the
   * domain itself is the channel.
   */
  method CategorizeReferrer(referrer: string, netloc: string -> string) returns (category: string, name: string)
    ensures IsBlank(referrer) ==> category == "direct" && name == "直接访问"
    ensures !IsBlank(referrer) ==>
              var domain := ExtractDomain(referrer, netloc);
              match FirstMatch(Config.ReferrerMapping, Lower(domain))
              case Some(i) => (category, name) == Config.ReferrerMapping[i]
              case None => category == domain && name == "来源: " + domain
  {
    if IsBlank(referrer) {
      return "direct", "直接访问";
    }
    var domain := ExtractDomain(referrer, netloc);
    var found := FindFirstMatch(Config.ReferrerMapping, Lower(domain));
    match found
    case Some(i) => return Config.ReferrerMapping[i].0, Config.ReferrerMapping[i].1;
    case None => return domain, "来源: " + domain;
  }

  // ---------------------------------------------------------------- step identifiers

  /** The parts of a URL that the step identifier reads; `urlparse` itself is not modelled. */
  datatype UrlParts = UrlParts(path: string, netloc: string)

  /** The URL branch: the parsed path (or, failing that, the host), cleaned, in parentheses. */
  function UrlSuffix(url: string, parse: string -> UrlParts): (r: string)
    ensures var parsed := parse(url);
            var path := if parsed.path != [] && parsed.path != "/" then parsed.path else parsed.netloc;
            if path != [] && CleanPagePath(Some(path)) != Unknown then r == "(" + CleanPagePath(Some(path)) + ")"
            else r == []
  {
    var parsed := parse(url);
    var path := if parsed.path != [] && parsed.path != "/" then parsed.path else parsed.netloc;
    if path != [] then
      var cleaned := CleanPagePath(Some(path));
      if cleaned != Unknown then "(" + cleaned + ")" else ""
    else ""
  }

  /**
   * The context suffix of a step identifier, chosen by priority: title,
   * screen name, cleaned path, URL path, element content; at most one is used.
   */
  function StepSuffix(cleanPath: string, pageTitle: string, url: string, screenName: string,
                      elementContent: string, parse: string -> UrlParts): (r: string)
    ensures !IsBlank(pageTitle) ==> r == "(" + Prefix(pageTitle, 20) + ")"
    ensures IsBlank(pageTitle) && !IsBlank(screenName) ==> r == "(" + Prefix(screenName, 20) + ")"
    ensures IsBlank(pageTitle) && IsBlank(screenName) && cleanPath != [] && cleanPath != Unknown ==>
              r == "(" + cleanPath + ")"
    ensures IsBlank(pageTitle) && IsBlank(screenName) && (cleanPath == [] || cleanPath == Unknown) && !IsBlank(url) ==>
              r == UrlSuffix(url, parse)
    ensures IsBlank(pageTitle) && IsBlank(screenName) && (cleanPath == [] || cleanPath == Unknown) && IsBlank(url) ==>
              r == if IsBlank(elementContent) then "" else "[" + Prefix(Strip(elementContent), 15) + "]"
  {
    if !IsBlank(pageTitle) then "(" + Prefix(pageTitle, 20) + ")"
    else if !IsBlank(screenName) then "(" + Prefix(screenName, 20) + ")"
    else if cleanPath != [] && cleanPath != Unknown then "(" + cleanPath + ")"
    else if !IsBlank(url) then UrlSuffix(url, parse)
    else if !IsBlank(elementContent) then "[" + Prefix(Strip(elementContent), 15) + "]"
    else ""
  }

  /** `build_comprehensive_step_identifier`: the event label followed by the context suffix. */
  function StepIdentifier(event: string, cleanPath: string, pageTitle: string, url: string,
                          screenName: string, elementContent: string, parse: string -> UrlParts): (r: string)
    ensures FormatEventName(event) <= r && r != []
    ensures r[|FormatEventName(event)|..] == StepSuffix(cleanPath, pageTitle, url, screenName, elementContent, parse)
  {
    FormatEventName(event) + StepSuffix(cleanPath, pageTitle, url, screenName, elementContent, parse)
  }

  /** A non-blank URL shuts out the element content, even when the URL branch adds nothing. */
  lemma UrlShadowsElementContent(cleanPath: string, pageTitle: string, url: string,
                                 screenName: string, elementContent: string, parse: string -> UrlParts)
    requires IsBlank(pageTitle) && IsBlank(screenName) && (cleanPath == [] || cleanPath == Unknown)
    requires !IsBlank(url)
    ensures var r := StepSuffix(cleanPath, pageTitle, url, screenName, elementContent, parse);
            r == [] || (r[0] == '(' && r[|r| - 1] == ')')
  {
  }

  // ---------------------------------------------------------------- length buckets

  /** `apply_path_length_filter`: whether a path of `length` steps passes the bucket `bucket`. */
  function PathLengthFilter(length: nat, bucket: string): (r: bool)
    ensures bucket == "2-3" ==> (r <==> 2 <= length <= 3)
    ensures bucket == "4-5" ==> (r <==> 4 <= length <= 5)
    ensures bucket == "6-8" ==> (r <==> 6 <= length <= 8)
    ensures bucket == "9+" ==> (r <==> length >= 9)
    ensures bucket !in {"2-3", "4-5", "6-8", "9+"} ==> r
  {
    if bucket == "all" then true
    else if bucket == "2-3" then 2 <= length <= 3
    else if bucket == "4-5" then 4 <= length <= 5
    else if bucket == "6-8" then 6 <= length <= 8
    else if bucket == "9+" then length >= 9
    else true
  }

  /** The four named buckets. */
  const LengthBuckets: seq<string> := ["2-3", "4-5", "6-8", "9+"]

  /** A path of two or more steps passes exactly one of the four named buckets. */
  lemma BucketsPartition(length: nat)
    requires length >= 2
    ensures forall b :: b in LengthBuckets ==>
              (PathLengthFilter(length, b) <==>
                 b == if length <= 3 then "2-3" else if length <= 5 then "4-5" else if length <= 8 then "6-8" else "9+")
  {
  }

  // ---------------------------------------------------------------- records

  /** One fetched event row; a missing text field is the empty string, a missing path is `None`. */
  datatype RawEvent = RawEvent(
    distinctId: string,
    event: string,
    createdAt: int,
    urlPath: Option<string>,
    url: string,
    pageTitle: string,
    referrer: string,
    screenName: string,
    elementContent: string)

  /** A preprocessed row: the raw fields plus the derived columns. */
  datatype Event = Event(raw: RawEvent, timestamp: int, cleanPath: string, stepIdentifier: string)

  function Normalize(row: RawEvent, parse: string -> UrlParts): (e: Event)
    ensures e.raw == row && e.timestamp == row.createdAt
    ensures e.cleanPath == CleanPagePath(row.urlPath)
    ensures e.cleanPath == Unknown || (e.cleanPath != [] && e.cleanPath != "/" && '?' !in e.cleanPath)
    ensures FormatEventName(row.event) <= e.stepIdentifier && e.stepIdentifier != []
    ensures e.stepIdentifier == FormatEventName(row.event)
              + StepSuffix(e.cleanPath, row.pageTitle, row.url, row.screenName, row.elementContent, parse)
  {
    var cleanPath := CleanPagePath(row.urlPath);
    Event(row, row.createdAt, cleanPath,
          StepIdentifier(row.event, cleanPath, row.pageTitle, row.url, row.screenName, row.elementContent, parse))
  }

  /**
   * `preprocess_dataframe`: every row gains its timestamp in seconds, its
   * cleaned path and its step identifier; rows keep their order.
   */
  function Preprocess(rows: seq<RawEvent>, parse: string -> UrlParts): (r: seq<Event>)
    ensures |r| == |rows|
    ensures forall i :: 0 <= i < |rows| ==> r[i] == Normalize(rows[i], parse)
    ensures forall i :: 0 <= i < |rows| ==> r[i].raw == rows[i] && r[i].timestamp == rows[i].createdAt
    ensures forall i :: 0 <= i < |rows| ==> r[i].cleanPath == CleanPagePath(rows[i].urlPath)
    ensures forall i :: 0 <= i < |rows| ==>
              FormatEventName(rows[i].event) <= r[i].stepIdentifier && r[i].stepIdentifier != []
    ensures forall i :: 0 <= i < |rows| ==>
              r[i].stepIdentifier == StepIdentifier(rows[i].event, r[i].cleanPath, rows[i].pageTitle, rows[i].url,
                                                    rows[i].screenName, rows[i].elementContent, parse)
  {
    if rows == [] then [] else seq(|rows|, i requires 0 <= i < |rows| => Normalize(rows[i], parse))
  }
}
