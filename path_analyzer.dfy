/**
 * Session segmentation and path building: events are ordered by user and
 * time, cut into sessions at a user's first event and after every gap
 * longer than the timeout, each session's step identifiers are collapsed
 * into a path, and the paths that pass the anchor and length filters are
 * counted by their `" → "` key.
 */
module PathAnalyzer {
  import opened Wrappers
  import opened Text
  import DataProcessor
  import Counters
  import PathCodec

  type Event = DataProcessor.Event

  // ---------------------------------------------------------------- option keys

  /** The option carries one of the prefixes that `extract_option_key` strips. */
  predicate HasOptionPrefix(option: string)
  {
    "event_" <= option || "page_" <= option || "url_" <= option || "title_" <= option || "referrer_" <= option
  }

  /**
   * `extract_option_key`: the text an option stands for. The prefix test
   * looks at the start only, but `str.replace` then removes every
   * occurrence of the prefix text; an event option is further turned into
   * its display label.
   */
  function ExtractOptionKey(option: string): (r: string)
    ensures "event_" <= option ==> r != []
    ensures !HasOptionPrefix(option) ==> r == option
  {
    if "event_" <= option then DataProcessor.FormatEventName(ReplaceAll(option, "event_", ""))
    else if "page_" <= option then ReplaceAll(option, "page_", "")
    else if "url_" <= option then ReplaceAll(option, "url_", "")
    else if "title_" <= option then ReplaceAll(option, "title_", "")
    else if "referrer_" <= option then ReplaceAll(option, "referrer_", "")
    else option
  }

  /**
   * An option built as `prefix + value` names `value` again, as long as the
   * value does not itself contain the prefix text.
   */
  lemma OptionKeyOfValue(prefix: string, v: string)
    requires prefix == "page_" || prefix == "url_" || prefix == "title_" || prefix == "referrer_"
    requires !Contains(v, prefix)
    ensures ExtractOptionKey(prefix + v) == v
  {
    var option := prefix + v;
    assert option[..|prefix|] == prefix && option[|prefix|..] == v;
    assert option[0] == prefix[0] && option[0] != 'e';
    assert !("event_" <= option);
    assert ExtractOptionKey(option) == ReplaceAll(option, prefix, "") by {
      if prefix != "page_" { assert option[0] != 'p'; }
      if prefix == "title_" || prefix == "referrer_" { assert option[0] != 'u'; }
      if prefix == "referrer_" { assert option[0] != 't'; }
    }
    assert ReplaceAll(option, prefix, "") == ReplaceAll(v, prefix, "");
    ReplaceAbsent(v, prefix, "");
  }

  /** An event option `event_` + code names the display label of the code. */
  lemma EventOptionKey(v: string)
    requires !Contains(v, "event_")
    ensures ExtractOptionKey("event_" + v) == DataProcessor.FormatEventName(v)
  {
    var option := "event_" + v;
    assert option[..6] == "event_" && option[6..] == v;
    assert ReplaceAll(option, "event_", "") == ReplaceAll(v, "event_", "");
    ReplaceAbsent(v, "event_", "");
  }

  /** An occurrence of the prefix text inside the value is removed as well. */
  lemma OptionKeyDropsInnerOccurrence()
    ensures ExtractOptionKey("page_a_page_b") == "a_b"
  {
    var s := "page_a_page_b";
    assert s[..5] == "page_" && s[0] != 'e';
    assert s[5..] == "a_page_b";
    assert "a_page_b"[1..] == "_page_b" && "_page_b"[1..] == "page_b" && "page_b"[5..] == "b";
    assert !("page_" <= "a_page_b") && !("page_" <= "_page_b") && "page_" <= "page_b";
    assert ReplaceAll("b", "page_", "") == "b";
  }

  // ---------------------------------------------------------------- ordering by user and time

  function User(e: Event): string
  {
    e.raw.distinctId
  }

  /** The sort key `(distinct_id, timestamp)`, compared as Python compares tuples. */
  predicate EventLe(x: Event, y: Event)
  {
    StrLt(User(x), User(y)) || (User(x) == User(y) && x.timestamp <= y.timestamp)
  }

  lemma EventLeTotal(x: Event, y: Event)
    ensures EventLe(x, y) || EventLe(y, x)
  {
    StrLtTrichotomy(User(x), User(y));
  }

  lemma EventLeTrans(x: Event, y: Event, z: Event)
    requires EventLe(x, y) && EventLe(y, z)
    ensures EventLe(x, z)
  {
    if StrLt(User(x), User(y)) && StrLt(User(y), User(z)) {
      StrLtTrans(User(x), User(y), User(z));
    }
  }

  predicate SortedByUserTime(r: seq<Event>)
  {
    forall i, j :: 0 <= i < j < |r| ==> EventLe(r[i], r[j])
  }

  /** `sort_values(['distinct_id', 'timestamp'])`, with one resolution of ties. */
  function SortByUserTime(es: seq<Event>): (r: seq<Event>)
    ensures multiset(r) == multiset(es) && |r| == |es|
    ensures SortedByUserTime(r)
  {
    if es == [] then []
    else
      assert es == [es[0]] + es[1..];
      InsertByUserTime(es[0], SortByUserTime(es[1..]))
  }

  /** An event ordered before the head of a sorted sequence can go in front of it. */
  lemma SortedByUserTimeCons(e: Event, s: seq<Event>)
    requires SortedByUserTime(s) && (s == [] || EventLe(e, s[0]))
    ensures SortedByUserTime([e] + s)
  {
    var r := [e] + s;
    forall i, j | 0 <= i < j < |r| ensures EventLe(r[i], r[j]) {
      assert r[j] == s[j - 1];
      if i > 0 {
        assert r[i] == s[i - 1];
      } else if j > 1 {
        EventLeTrans(e, s[0], s[j - 1]);
      }
    }
  }

  function InsertByUserTime(e: Event, s: seq<Event>): (r: seq<Event>)
    requires SortedByUserTime(s)
    ensures multiset(r) == multiset(s) + multiset{e} && |r| == |s| + 1
    ensures r[0] == e || (s != [] && r[0] == s[0])
    ensures SortedByUserTime(r)
  {
    if s == [] || EventLe(e, s[0]) then
      SortedByUserTimeCons(e, s);
      [e] + s
    else
      assert s == [s[0]] + s[1..];
      assert SortedByUserTime(s[1..]) by {
        forall i, j | 0 <= i < j < |s[1..]| ensures EventLe(s[1..][i], s[1..][j]) {
          assert s[1..][i] == s[i + 1] && s[1..][j] == s[j + 1];
        }
      }
      var tail := InsertByUserTime(e, s[1..]);
      EventLeTotal(e, s[0]);
      assert EventLe(s[0], tail[0]);
      SortedByUserTimeCons(s[0], tail);
      var r := [s[0]] + tail;
      assert multiset(r) == multiset{s[0]} + multiset(tail);
      r
  }

  // ---------------------------------------------------------------- sessions

  /** The last of the first `n` events that belongs to user `u`. */
  function LastEventOf(r: seq<Event>, n: nat, u: string): (p: Option<nat>)
    requires n <= |r|
    ensures p.Some? ==> p.value < n && User(r[p.value]) == u
    ensures p.Some? ==> forall m :: p.value < m < n ==> User(r[m]) != u
    ensures p.None? ==> forall m :: 0 <= m < n ==> User(r[m]) != u
    decreases n
  {
    if n == 0 then None
    else if User(r[n - 1]) == u then Some(n - 1)
    else LastEventOf(r, n - 1, u)
  }

  /** The row that `groupby('distinct_id')['timestamp'].diff()` subtracts from row `i`. */
  function PrevSameUser(r: seq<Event>, i: nat): Option<nat>
    requires i < |r|
  {
    LastEventOf(r, i, User(r[i]))
  }

  /** The new-session flag: a user's first event, or a gap strictly longer than the timeout. */
  predicate NewSession(r: seq<Event>, i: nat, timeoutSeconds: int)
    requires i < |r|
  {
    match PrevSameUser(r, i)
    case None => true
    case Some(j) => r[i].timestamp - r[j].timestamp > timeoutSeconds
  }

  /** The per-user running sum of new-session flags up to and including row `i`. */
  function SessionNumber(r: seq<Event>, i: nat, timeoutSeconds: int): (n: nat)
    requires i < |r|
    ensures n >= 1
    ensures PrevSameUser(r, i).None? ==> n == 1
    decreases i
  {
    (if NewSession(r, i, timeoutSeconds) then 1 else 0)
    + match PrevSameUser(r, i)
      case None => 0
      case Some(j) => SessionNumber(r, j, timeoutSeconds)
  }

  /** The number of new-session flags among user `u`'s events in the first `n` rows. */
  function NewSessionsBefore(r: seq<Event>, n: nat, u: string, timeoutSeconds: int): nat
    requires n <= |r|
    decreases n
  {
    if n == 0 then 0
    else NewSessionsBefore(r, n - 1, u, timeoutSeconds)
         + (if User(r[n - 1]) == u && NewSession(r, n - 1, timeoutSeconds) then 1 else 0)
  }

  lemma {:induction false} NewSessionsSkip(r: seq<Event>, lo: nat, hi: nat, u: string, timeoutSeconds: int)
    requires lo <= hi <= |r|
    requires forall m :: lo <= m < hi ==> User(r[m]) != u
    ensures NewSessionsBefore(r, hi, u, timeoutSeconds) == NewSessionsBefore(r, lo, u, timeoutSeconds)
    decreases hi
  {
    if hi > lo {
      NewSessionsSkip(r, lo, hi - 1, u, timeoutSeconds);
    }
  }

  /** The session number of a row counts the new-session flags of its user so far (the `cumsum`). */
  lemma {:induction false} SessionNumberCountsFlags(r: seq<Event>, i: nat, timeoutSeconds: int)
    requires i < |r|
    ensures SessionNumber(r, i, timeoutSeconds) == NewSessionsBefore(r, i + 1, User(r[i]), timeoutSeconds)
    decreases i
  {
    match PrevSameUser(r, i)
    case None =>
      NewSessionsSkip(r, 0, i, User(r[i]), timeoutSeconds);
    case Some(j) =>
      SessionNumberCountsFlags(r, j, timeoutSeconds);
      NewSessionsSkip(r, j + 1, i, User(r[i]), timeoutSeconds);
  }

  /**
   * Against the user's previous event a row opens a new session exactly
   * when the gap is strictly longer than the timeout; a gap equal to it
   * keeps the session number.
   */
  lemma SessionNumberStep(r: seq<Event>, i: nat, j: nat, timeoutSeconds: int)
    requires i < |r| && PrevSameUser(r, i) == Some(j)
    ensures r[i].timestamp - r[j].timestamp > timeoutSeconds ==>
              SessionNumber(r, i, timeoutSeconds) == SessionNumber(r, j, timeoutSeconds) + 1
    ensures r[i].timestamp - r[j].timestamp <= timeoutSeconds ==>
              SessionNumber(r, i, timeoutSeconds) == SessionNumber(r, j, timeoutSeconds)
  {
  }

  /** In the sorted order a user's previous event is never later: gaps are not negative. */
  lemma SortedGapsNonNegative(r: seq<Event>, i: nat, j: nat)
    requires SortedByUserTime(r) && i < |r| && PrevSameUser(r, i) == Some(j)
    ensures r[j].timestamp <= r[i].timestamp
  {
    assert EventLe(r[j], r[i]);
    StrLtAsymmetric(User(r[i]), User(r[i]));
  }

  /** The sorted events together with their per-user session numbers. */
  datatype Sessions = Sessions(events: seq<Event>, ids: seq<nat>)

  predicate ValidSessions(s: Sessions)
  {
    |s.ids| == |s.events|
  }

  /** The session timeout `build_session_paths` uses when its caller gives none. */
  const DefaultTimeoutMinutes: int := 30

  /** `build_session_paths`: sort by user and time, then number the sessions of each user. */
  function BuildSessionPaths(events: seq<Event>, timeoutMinutes: int): (s: Sessions)
    ensures ValidSessions(s)
    ensures multiset(s.events) == multiset(events) && SortedByUserTime(s.events)
    ensures forall i :: 0 <= i < |s.ids| ==> s.ids[i] == SessionNumber(s.events, i, 60 * timeoutMinutes)
  {
    var r := SortByUserTime(events);
    Sessions(r, seq(|r|, i requires 0 <= i < |r| => SessionNumber(r, i, 60 * timeoutMinutes)))
  }

  // ---------------------------------------------------------------- session paths

  /** A session: a user and that user's session number (the `session_global` label). */
  datatype SessionKey = SessionKey(user: string, number: nat)

  function KeyAt(s: Sessions, i: nat): SessionKey
    requires ValidSessions(s) && i < |s.events|
  {
    SessionKey(User(s.events[i]), s.ids[i])
  }

  /** The distinct sessions of the first `n` rows, in order of first appearance. */
  function SessionKeys(s: Sessions, n: nat): (ks: seq<SessionKey>)
    requires ValidSessions(s) && n <= |s.events|
    ensures forall a, b :: 0 <= a < b < |ks| ==> ks[a] != ks[b]
    ensures forall k :: k in ks <==> exists i :: 0 <= i < n && KeyAt(s, i) == k
    decreases n
  {
    if n == 0 then []
    else
      var prev := SessionKeys(s, n - 1);
      var k := KeyAt(s, n - 1);
      if k in prev then prev else prev + [k]
  }

  /** The step identifiers of session `k` among the first `n` rows, in row order. */
  function SessionSteps(s: Sessions, k: SessionKey, n: nat): seq<string>
    requires ValidSessions(s) && n <= |s.events|
    decreases n
  {
    if n == 0 then []
    else SessionSteps(s, k, n - 1) + (if KeyAt(s, n - 1) == k then [s.events[n - 1].stepIdentifier] else [])
  }

  lemma {:induction false} SessionStepsNonEmpty(s: Sessions, k: SessionKey, n: nat, i: nat)
    requires ValidSessions(s) && i < n <= |s.events| && KeyAt(s, i) == k
    ensures SessionSteps(s, k, n) != []
    decreases n
  {
    if i < n - 1 {
      SessionStepsNonEmpty(s, k, n - 1, i);
    }
  }

  predicate NoAdjacentDuplicates(p: seq<string>)
  {
    forall i :: 0 <= i < |p| - 1 ==> p[i] != p[i + 1]
  }

  /** Runs of equal consecutive steps collapsed to one step. */
  function Collapse(steps: seq<string>): (r: seq<string>)
    ensures |r| <= |steps| && (r == [] <==> steps == [])
    ensures steps != [] ==> r[0] == steps[0] && r[|r| - 1] == steps[|steps| - 1]
    ensures NoAdjacentDuplicates(r)
    ensures forall x :: x in r <==> x in steps
  {
    if steps == [] then []
    else
      var init := steps[..|steps| - 1];
      var last := steps[|steps| - 1];
      assert steps == init + [last];
      var c := Collapse(init);
      if c != [] && c[|c| - 1] == last then c else c + [last]
  }

  /** A path without adjacent duplicates is its own collapse, so collapsing twice changes nothing. */
  lemma {:induction false} CollapseIdentity(p: seq<string>)
    requires NoAdjacentDuplicates(p)
    ensures Collapse(p) == p
  {
    if p != [] {
      var init := p[..|p| - 1];
      assert NoAdjacentDuplicates(init) by {
        forall i | 0 <= i < |init| - 1 ensures init[i] != init[i + 1] {
          assert init[i] == p[i] && init[i + 1] == p[i + 1];
        }
      }
      CollapseIdentity(init);
      assert p == init + [p[|p| - 1]];
    }
  }

  /** The steps that start a run: the first one, and each that differs from the step before it. */
  function RunHeads(steps: seq<string>): seq<string>
  {
    if steps == [] then []
    else
      var n := |steps|;
      RunHeads(steps[..n - 1]) + (if n == 1 || steps[n - 1] != steps[n - 2] then [steps[n - 1]] else [])
  }

  /** Collapsing keeps exactly the steps at which a run starts, in order. */
  lemma {:induction false} CollapseIsRunHeads(steps: seq<string>)
    ensures Collapse(steps) == RunHeads(steps)
  {
    if steps != [] {
      var n := |steps|;
      var init := steps[..n - 1];
      CollapseIsRunHeads(init);
      if n > 1 {
        assert init[|init| - 1] == steps[n - 2];
      }
    }
  }

  lemma CollapseIdempotent(steps: seq<string>)
    ensures Collapse(Collapse(steps)) == Collapse(steps)
  {
    CollapseIdentity(Collapse(steps));
  }

  /** The collapsed path of session `k`. */
  function SessionPathOf(s: Sessions, k: SessionKey): seq<string>
    requires ValidSessions(s)
  {
    Collapse(SessionSteps(s, k, |s.events|))
  }

  /**
   * The loop of lines 59-65: walk the session's rows in order and append a
   * step unless it repeats the last one appended.
   */
  method SessionPath(s: Sessions, k: SessionKey) returns (path: seq<string>)
    requires ValidSessions(s)
    ensures path == SessionPathOf(s, k)
  {
    path := [];
    var i := 0;
    while i < |s.events|
      invariant 0 <= i <= |s.events|
      invariant path == Collapse(SessionSteps(s, k, i))
    {
      var steps := SessionSteps(s, k, i + 1);
      if KeyAt(s, i) == k {
        var step := s.events[i].stepIdentifier;
        assert steps == SessionSteps(s, k, i) + [step];
        assert steps[..|steps| - 1] == SessionSteps(s, k, i);
        if path == [] || step != path[|path| - 1] {
          path := path + [step];
        }
      } else {
        assert steps == SessionSteps(s, k, i);
      }
      i := i + 1;
    }
  }

  // ---------------------------------------------------------------- filters

  /** The request parameters the path builder reads. */
  datatype PathQuery = PathQuery(pathType: string, startOption: string, endOption: string, pathLength: string)

  /** Python's `any(key in step for step in steps)`. */
  predicate AnyStepContains(steps: seq<string>, key: string)
  {
    exists i :: 0 <= i < |steps| && Contains(steps[i], key)
  }

  /** `path[:2]`. */
  function FirstTwo(p: seq<string>): (r: seq<string>)
    ensures |p| >= 2 ==> r == [p[0], p[1]]
  {
    if |p| <= 2 then p else p[..2]
  }

  /** `path[-2:]`. */
  function LastTwo(p: seq<string>): (r: seq<string>)
    ensures |p| >= 2 ==> r == [p[|p| - 2], p[|p| - 1]]
  {
    if |p| <= 2 then p else p[|p| - 2..]
  }

  /** The anchor filter of lines 71-78: only a start or end query with a non-empty option filters. */
  predicate PassesAnchor(path: seq<string>, q: PathQuery)
    ensures (q.pathType != "start" || q.startOption == []) && (q.pathType != "end" || q.endOption == []) ==>
              PassesAnchor(path, q)
  {
    if q.pathType == "start" && q.startOption != [] then AnyStepContains(FirstTwo(path), ExtractOptionKey(q.startOption))
    else if q.pathType == "end" && q.endOption != [] then AnyStepContains(LastTwo(path), ExtractOptionKey(q.endOption))
    else true
  }

  /** The three filters a session path must pass to be counted. */
  predicate Survives(path: seq<string>, q: PathQuery)
    ensures Survives(path, q) ==> |path| >= 2 && DataProcessor.PathLengthFilter(|path|, q.pathLength)
    ensures (|path| >= 2 && q.pathLength == "all" && (q.pathType != "start" || q.startOption == [])
             && (q.pathType != "end" || q.endOption == [])) ==> Survives(path, q)
  {
    |path| >= 2 && PassesAnchor(path, q) && DataProcessor.PathLengthFilter(|path|, q.pathLength)
  }

  /** A start anchor keeps exactly the paths whose first or second step contains the key. */
  lemma StartAnchor(path: seq<string>, q: PathQuery)
    requires |path| >= 2 && q.pathType == "start" && q.startOption != []
    ensures PassesAnchor(path, q) <==>
              var key := ExtractOptionKey(q.startOption);
              Contains(path[0], key) || Contains(path[1], key)
  {
    var key := ExtractOptionKey(q.startOption);
    var two := FirstTwo(path);
    assert two[0] == path[0] && two[1] == path[1];
  }

  /** An end anchor keeps exactly the paths whose last or last-but-one step contains the key. */
  lemma EndAnchor(path: seq<string>, q: PathQuery)
    requires |path| >= 2 && q.pathType == "end" && q.endOption != []
    ensures PassesAnchor(path, q) <==>
              var key := ExtractOptionKey(q.endOption);
              Contains(path[|path| - 2], key) || Contains(path[|path| - 1], key)
  {
    var key := ExtractOptionKey(q.endOption);
    var two := LastTwo(path);
    assert two[0] == path[|path| - 2] && two[1] == path[|path| - 1];
  }

  // ---------------------------------------------------------------- counting

  /** The keys `' → '.join(path)` of the sessions in `ks` whose path survives, in session order. */
  function SurvivingKeys(s: Sessions, ks: seq<SessionKey>, q: PathQuery): seq<string>
    requires ValidSessions(s)
  {
    if ks == [] then []
    else
      var p := SessionPathOf(s, ks[|ks| - 1]);
      SurvivingKeys(s, ks[..|ks| - 1], q) + (if Survives(p, q) then [PathCodec.Join(p)] else [])
  }

  lemma SurvivingKeysNext(s: Sessions, ks: seq<SessionKey>, j: nat, q: PathQuery)
    requires ValidSessions(s) && j < |ks|
    ensures Survives(SessionPathOf(s, ks[j]), q) ==>
              SurvivingKeys(s, ks[..j + 1], q) == SurvivingKeys(s, ks[..j], q) + [PathCodec.Join(SessionPathOf(s, ks[j]))]
    ensures !Survives(SessionPathOf(s, ks[j]), q) ==> SurvivingKeys(s, ks[..j + 1], q) == SurvivingKeys(s, ks[..j], q)
  {
    assert ks[..j + 1][..j] == ks[..j];
    assert SurvivingKeys(s, ks[..j], q) + [] == SurvivingKeys(s, ks[..j], q);
  }

  /** `build_enhanced_user_paths` uses a fixed 30-minute session timeout. */
  const EnhancedTimeoutMinutes: int := 30

  /** The path table: one count per surviving session, keyed by its joined path. */
  function UserPaths(events: seq<Event>, q: PathQuery): (r: Counters.Table<string>)
    ensures Counters.DistinctKeys(r)
    ensures forall e :: e in r ==> e.count >= 1
  {
    var s := BuildSessionPaths(events, EnhancedTimeoutMinutes);
    Counters.TallyPositive(SurvivingKeys(s, SessionKeys(s, |s.events|), q));
    Counters.Tally(SurvivingKeys(s, SessionKeys(s, |s.events|), q))
  }

  /** `build_enhanced_user_paths`: build each session's path, filter it, and count its key. */
  method BuildUserPaths(events: seq<Event>, q: PathQuery) returns (table: Counters.Table<string>)
    ensures table == UserPaths(events, q)
  {
    var s := BuildSessionPaths(events, EnhancedTimeoutMinutes);
    var keys := SessionKeys(s, |s.events|);
    table := CountSessionPaths(s, keys, q);
  }

  /** The loop over the sessions (lines 55-85): each surviving path adds one to its key. */
  method CountSessionPaths(s: Sessions, keys: seq<SessionKey>, q: PathQuery) returns (table: Counters.Table<string>)
    requires ValidSessions(s)
    ensures table == Counters.Tally(SurvivingKeys(s, keys, q))
  {
    table := [];
    var j := 0;
    while j < |keys|
      invariant 0 <= j <= |keys|
      invariant table == Counters.Tally(SurvivingKeys(s, keys[..j], q))
    {
      var path := SessionPath(s, keys[j]);
      SurvivingKeysNext(s, keys, j, q);
      if Survives(path, q) {
        Counters.TallySnoc(SurvivingKeys(s, keys[..j], q), PathCodec.Join(path));
        table := Counters.Add(table, PathCodec.Join(path), 1);
      }
      j := j + 1;
    }
    assert keys[..|keys|] == keys;
  }

  /** Every key in the surviving list is the join of a surviving session path, and conversely. */
  lemma {:induction false} SurvivingKeysMeaning(s: Sessions, ks: seq<SessionKey>, q: PathQuery, x: string)
    requires ValidSessions(s)
    ensures x in SurvivingKeys(s, ks, q) <==>
              exists k :: k in ks && Survives(SessionPathOf(s, k), q) && x == PathCodec.Join(SessionPathOf(s, k))
  {
    if ks != [] {
      var init := ks[..|ks| - 1];
      var p := SessionPathOf(s, ks[|ks| - 1]);
      SurvivingKeysMeaning(s, init, q, x);
      assert SurvivingKeys(s, ks, q) == SurvivingKeys(s, init, q) + (if Survives(p, q) then [PathCodec.Join(p)] else []);
      assert ks == init + [ks[|ks| - 1]];
      forall k | k in ks ensures k in init || k == ks[|ks| - 1] {
      }
    }
  }

  /**
   * The table's counts add up to the number of sessions that pass every
   * filter, and each key is the join of such a session's path: at least two
   * steps, no two equal adjacent steps, and both filters passed.
   */
  lemma UserPathsMeaning(events: seq<Event>, q: PathQuery, x: string)
    ensures var s := BuildSessionPaths(events, EnhancedTimeoutMinutes);
            Counters.Total(UserPaths(events, q)) == |SurvivingKeys(s, SessionKeys(s, |s.events|), q)|
    ensures x in Counters.KeySet(UserPaths(events, q)) ==>
              exists p :: |p| >= 2 && NoAdjacentDuplicates(p) && Survives(p, q) && x == PathCodec.Join(p)
  {
    var s := BuildSessionPaths(events, EnhancedTimeoutMinutes);
    var ks := SessionKeys(s, |s.events|);
    if x in Counters.KeySet(UserPaths(events, q)) {
      SurvivingKeysMeaning(s, ks, q, x);
      var k :| k in ks && Survives(SessionPathOf(s, k), q) && x == PathCodec.Join(SessionPathOf(s, k));
      var p := SessionPathOf(s, k);
      assert |p| >= 2 && NoAdjacentDuplicates(p) && Survives(p, q);
    }
  }
}
