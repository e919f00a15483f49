/**
 * The summaries drawn from one `path → count` table: the length
 * distribution, the step funnel, the per-path statistics, the most popular
 * paths and the overall metrics.
 */
module PathReports {
  import opened Wrappers
  import opened Text
  import Counters
  import DataProcessor
  import PathViews

  type PathTable = Counters.Table<string>

  function Length(key: string): nat
  {
    |PathViews.StepsOf(key)|
  }

  // ---------------------------------------------------------------- step distribution

  /** The four labels of `analyze_step_distribution`. */
  const ShortPaths: string := "2-3步路径"
  const MediumPaths: string := "4-5步路径"
  const LongPaths: string := "6-8步路径"
  const VeryLongPaths: string := "9步以上"

  const DistributionLabels: seq<string> := [ShortPaths, MediumPaths, LongPaths, VeryLongPaths]

  /** The label for a path of `steps` steps; a one-step path falls in the first. */
  function BucketOf(steps: nat): (r: string)
    ensures r in DistributionLabels
    ensures r == ShortPaths <==> steps <= 3
    ensures r == MediumPaths <==> 4 <= steps <= 5
    ensures r == LongPaths <==> 6 <= steps <= 8
    ensures r == VeryLongPaths <==> steps >= 9
  {
    if steps <= 3 then ShortPaths
    else if steps <= 5 then MediumPaths
    else if steps <= 8 then LongPaths
    else VeryLongPaths
  }

  /** Each path's count, under its length label. */
  function BucketItems(t: PathTable): (r: seq<Counters.Entry<string>>)
    ensures |r| == |t|
  {
    if t == [] then []
    else BucketItems(t[..|t| - 1]) + [Counters.Entry(BucketOf(Length(t[|t| - 1].key)), t[|t| - 1].count)]
  }

  /** `analyze_step_distribution`: the counts of the paths added up per length label. */
  method StepDistribution(t: PathTable) returns (dist: Counters.Table<string>)
    ensures dist == Counters.Accumulate(BucketItems(t))
  {
    dist := [];
    var k := 0;
    assert t[..0] == [];
    while k < |t|
      invariant 0 <= k <= |t|
      invariant dist == Counters.Accumulate(BucketItems(t[..k]))
    {
      var item := Counters.Entry(BucketOf(Length(t[k].key)), t[k].count);
      assert t[..k + 1][..k] == t[..k];
      assert BucketItems(t[..k + 1]) == BucketItems(t[..k]) + [item];
      Counters.AccumulateSnoc(BucketItems(t[..k]), item);
      dist := Counters.Add(dist, item.key, item.count);
      k := k + 1;
    }
    assert t[..k] == t;
  }

  /** `Σ count` over the paths whose length passes the request's length filter `bucket`. */
  function FilteredWeight(t: PathTable, bucket: string): nat
  {
    if t == [] then 0
    else FilteredWeight(t[..|t| - 1], bucket)
         + (if DataProcessor.PathLengthFilter(Length(t[|t| - 1].key), bucket) then t[|t| - 1].count else 0)
  }

  /** Regrouping moves counts between labels but loses none. */
  lemma {:induction false} BucketItemsTotal(t: PathTable)
    ensures Counters.Total(BucketItems(t)) == Counters.Total(t)
    ensures Counters.KeySet(BucketItems(t)) <= set l | l in DistributionLabels
  {
    if t != [] {
      var init := t[..|t| - 1];
      var item := Counters.Entry(BucketOf(Length(t[|t| - 1].key)), t[|t| - 1].count);
      BucketItemsTotal(init);
      assert BucketItems(t)[..|t| - 1] == BucketItems(init);
      Counters.KeySetConcat(BucketItems(init), [item]);
      assert Counters.KeySet([item]) == {item.key};
    }
  }

  /** The i-th label is the one given to a path iff the i-th length bucket lets it through. */
  lemma BucketLabelMatch(steps: nat, i: nat)
    requires steps >= 2 && i < 4
    ensures BucketOf(steps) == DistributionLabels[i] <==> DataProcessor.PathLengthFilter(steps, DataProcessor.LengthBuckets[i])
  {
    DataProcessor.BucketsPartition(steps);
    assert DataProcessor.LengthBuckets[i] in DataProcessor.LengthBuckets;
  }

  /**
   * The label totals agree with the request's path-length filter: for paths
   * of two or more steps, the count under the i-th label is the weight of
   * the paths the i-th length bucket lets through.
   */
  lemma {:induction false} BucketItemsMatchFilter(t: PathTable, i: nat)
    requires i < 4
    requires forall e :: e in t ==> Length(e.key) >= 2
    ensures Counters.CountOf(BucketItems(t), DistributionLabels[i]) == FilteredWeight(t, DataProcessor.LengthBuckets[i])
  {
    if t != [] {
      var init := t[..|t| - 1];
      assert forall e :: e in init ==> e in t;
      BucketItemsMatchFilter(init, i);
      assert t[|t| - 1] in t;
      BucketLabelMatch(Length(t[|t| - 1].key), i);
      assert BucketItems(t)[..|t| - 1] == BucketItems(init);
    }
  }

  /** What the distribution states: its labels, its total, and each label's total. */
  lemma DistributionMeaning(t: PathTable)
    requires forall e :: e in t ==> Length(e.key) >= 2
    ensures var dist := Counters.Accumulate(BucketItems(t));
            Counters.KeySet(dist) <= (set l | l in DistributionLabels) &&
            Counters.Total(dist) == Counters.Total(t) &&
            forall i :: 0 <= i < 4 ==>
              Counters.CountOf(dist, DistributionLabels[i]) == FilteredWeight(t, DataProcessor.LengthBuckets[i])
  {
    BucketItemsTotal(t);
    forall i | 0 <= i < 4
      ensures Counters.CountOf(Counters.Accumulate(BucketItems(t)), DistributionLabels[i])
              == FilteredWeight(t, DataProcessor.LengthBuckets[i])
    {
      BucketItemsMatchFilter(t, i);
    }
  }

  // ---------------------------------------------------------------- conversion funnel

  /** One entry per step of one path, each carrying the path's count. */
  function PathItems(steps: seq<string>, c: nat): (r: seq<Counters.Entry<string>>)
    ensures |r| == |steps|
  {
    if steps == [] then []
    else PathItems(steps[..|steps| - 1], c) + [Counters.Entry(steps[|steps| - 1], c)]
  }

  /** The items `step_user_counts[step] += count` adds, path after path. */
  function StepItems(t: PathTable): seq<Counters.Entry<string>>
  {
    if t == [] then []
    else StepItems(t[..|t| - 1]) + PathItems(PathViews.StepsOf(t[|t| - 1].key), t[|t| - 1].count)
  }

  lemma {:induction false} PathItemsCount(steps: seq<string>, c: nat, x: string)
    ensures Counters.CountOf(PathItems(steps, c), x) == PathViews.Weighted(steps, x, c)
    ensures Counters.KeySet(PathItems(steps, c)) == PathViews.StepSetOf(steps)
  {
    if steps != [] {
      var init := steps[..|steps| - 1];
      var e := Counters.Entry(steps[|steps| - 1], c);
      PathItemsCount(init, c, x);
      assert PathItems(steps, c)[..|steps| - 1] == PathItems(init, c);
      Counters.KeySetConcat(PathItems(init, c), [e]);
      assert Counters.KeySet([e]) == {e.key};
      assert steps == init + [steps[|steps| - 1]];
    }
  }

  /** A step's accumulated count is its weighted number of occurrences. */
  lemma {:induction false} StepItemsCount(t: PathTable, x: string)
    ensures Counters.CountOf(StepItems(t), x) == PathViews.OccurrenceCount(t, x)
  {
    if t != [] {
      var init := t[..|t| - 1];
      var steps := PathViews.StepsOf(t[|t| - 1].key);
      StepItemsCount(init, x);
      PathItemsCount(steps, t[|t| - 1].count, x);
      Counters.CountOfConcat(StepItems(init), PathItems(steps, t[|t| - 1].count), x);
    }
  }

  /** The accumulated keys are the steps of the table. */
  lemma {:induction false} StepItemsKeys(t: PathTable)
    ensures Counters.KeySet(StepItems(t)) == PathViews.AllSteps(t)
  {
    if t != [] {
      var init := t[..|t| - 1];
      var steps := PathViews.StepsOf(t[|t| - 1].key);
      StepItemsKeys(init);
      PathItemsCount(steps, t[|t| - 1].count, "");
      Counters.KeySetConcat(StepItems(init), PathItems(steps, t[|t| - 1].count));
    }
  }

  /** `step_user_counts`: the count of every step, each path adding its count per occurrence. */
  function StepCounts(t: PathTable): (r: Counters.Table<string>)
    ensures Counters.DistinctKeys(r)
    ensures Counters.KeySet(r) == PathViews.AllSteps(t)
    ensures forall x :: Counters.CountOf(r, x) == PathViews.OccurrenceCount(t, x)
  {
    var r := Counters.Accumulate(StepItems(t));
    StepItemsKeys(t);
    forall x ensures Counters.CountOf(r, x) == PathViews.OccurrenceCount(t, x) {
      StepItemsCount(t, x);
    }
    r
  }

  /** The loop of lines 225-229. */
  method CountSteps(t: PathTable) returns (counts: Counters.Table<string>)
    ensures counts == Counters.Accumulate(StepItems(t))
  {
    counts := [];
    var k := 0;
    while k < |t|
      invariant 0 <= k <= |t|
      invariant counts == Counters.Accumulate(StepItems(t[..k]))
    {
      assert t[..k + 1][..k] == t[..k];
      counts := AddPathSteps(counts, StepItems(t[..k]), PathViews.StepsOf(t[k].key), t[k].count);
      k := k + 1;
    }
    assert t[..k] == t;
  }

  lemma AccumulateStep(items: seq<Counters.Entry<string>>, steps: seq<string>, j: nat, c: nat)
    requires j < |steps|
    ensures Counters.Accumulate(items + PathItems(steps[..j + 1], c))
            == Counters.Add(Counters.Accumulate(items + PathItems(steps[..j], c)), steps[j], c)
  {
    var e := Counters.Entry(steps[j], c);
    assert steps[..j + 1][..j] == steps[..j];
    assert items + PathItems(steps[..j + 1], c) == (items + PathItems(steps[..j], c)) + [e];
    Counters.AccumulateSnoc(items + PathItems(steps[..j], c), e);
  }

  /** The inner loop: every step of one path gets the path's count. */
  method AddPathSteps(counts: Counters.Table<string>, items: seq<Counters.Entry<string>>, steps: seq<string>, c: nat)
    returns (counts': Counters.Table<string>)
    requires counts == Counters.Accumulate(items)
    ensures counts' == Counters.Accumulate(items + PathItems(steps, c))
  {
    counts' := counts;
    var j := 0;
    assert items + PathItems(steps[..0], c) == items;
    while j < |steps|
      invariant 0 <= j <= |steps|
      invariant counts' == Counters.Accumulate(items + PathItems(steps[..j], c))
    {
      AccumulateStep(items, steps, j, c);
      counts' := Counters.Add(counts', steps[j], c);
      j := j + 1;
    }
    assert steps[..j] == steps;
  }

  /**
   * The funnel's display name: the step up to its first `:`, then up to
   * its first `(` — the longest prefix that contains neither.
   */
  function DisplayName(step: string): (r: string)
    ensures r <= step && ':' !in r && '(' !in r
    ensures r == step || step[|r|] == ':' || step[|r|] == '('
  {
    BeforeFirst(BeforeFirst(step, ':'), '(')
  }

  datatype FunnelEntry = FunnelEntry(value: nat, name: string)

  /** `max(...) if sorted_steps else 0`. */
  function MaxCount(t: Counters.Table<string>): (m: nat)
    ensures forall e :: e in t ==> e.count <= m
    ensures t != [] ==> exists e :: e in t && e.count == m
    ensures t == [] ==> m == 0
  {
    if t == [] then 0
    else
      var rest := MaxCount(t[..|t| - 1]);
      assert t == t[..|t| - 1] + [t[|t| - 1]];
      if t[|t| - 1].count > rest then t[|t| - 1].count else rest
  }

  /** One funnel entry per entry of `top`: its count under its display name. */
  predicate IsFunnelOf(funnel: seq<FunnelEntry>, top: Counters.Table<string>)
  {
    |funnel| == |top| && forall i :: 0 <= i < |top| ==> funnel[i] == FunnelEntry(top[i].count, DisplayName(top[i].key))
  }

  /** The loop of lines 235-246 over the first six entries. */
  method FunnelOf(top: Counters.Table<string>) returns (funnel: seq<FunnelEntry>)
    ensures IsFunnelOf(funnel, top)
  {
    funnel := [];
    var i := 0;
    while i < |top|
      invariant 0 <= i <= |top|
      invariant |funnel| == i
      invariant forall j :: 0 <= j < i ==> funnel[j] == FunnelEntry(top[j].count, DisplayName(top[j].key))
    {
      funnel := funnel + [FunnelEntry(top[i].count, DisplayName(top[i].key))];
      i := i + 1;
    }
  }

  /** The counts in descending order: one entry per step, with its count. */
  lemma SortedCounts(t: PathTable)
    ensures var sorted := Counters.SortByCountDesc(StepCounts(t));
            (forall e :: e in sorted ==> e.key in PathViews.AllSteps(t) && e.count == PathViews.OccurrenceCount(t, e.key)) &&
            (forall x :: x in PathViews.AllSteps(t) ==> exists e :: e in sorted && e.key == x) &&
            |sorted| == |PathViews.AllSteps(t)|
  {
    var counts := StepCounts(t);
    var sorted := Counters.SortByCountDesc(counts);
    Counters.DistinctKeysSize(counts);
    forall e | e in sorted ensures e.key in PathViews.AllSteps(t) && e.count == PathViews.OccurrenceCount(t, e.key) {
      assert e in multiset(counts);
      var m :| 0 <= m < |counts| && counts[m] == e;
      Counters.CountOfEntry(counts, m);
    }
    forall x | x in PathViews.AllSteps(t) ensures exists e :: e in sorted && e.key == x {
      var f :| f in counts && f.key == x;
      assert f in multiset(sorted);
    }
  }

  /** The steps in the funnel: the first six of the counts in descending order. */
  function FunnelSteps(t: PathTable): Counters.Table<string>
  {
    Counters.Take(Counters.SortByCountDesc(StepCounts(t)), 6)
  }

  /** The funnel holds six steps, or all of them when there are fewer, each with its count, in descending order. */
  lemma FunnelStepsShape(t: PathTable)
    ensures var r := FunnelSteps(t);
            |r| == (if |PathViews.AllSteps(t)| < 6 then |PathViews.AllSteps(t)| else 6) &&
            Counters.SortedDesc(r) && Counters.DistinctKeys(r) &&
            forall e :: e in r ==> e.key in PathViews.AllSteps(t) && e.count == PathViews.OccurrenceCount(t, e.key)
  {
    var sorted := Counters.SortByCountDesc(StepCounts(t));
    var r := FunnelSteps(t);
    SortedCounts(t);
    Counters.PermutationDistinctKeys(StepCounts(t), sorted);
    assert r == Counters.Take(sorted, 6);
    Counters.TakeSortedDesc(sorted, 6);
  }

  /** A step that counts more than the last step of the funnel is in the funnel. */
  lemma FunnelStepsTop(t: PathTable, x: string)
    requires x in PathViews.AllSteps(t)
    requires FunnelSteps(t) != [] && PathViews.OccurrenceCount(t, x) > FunnelSteps(t)[|FunnelSteps(t)| - 1].count
    ensures exists e :: e in FunnelSteps(t) && e.key == x
  {
    var counts := StepCounts(t);
    var sorted := Counters.SortByCountDesc(counts);
    var r := FunnelSteps(t);
    SortedCounts(t);
    Counters.TopEntries(counts, 6);
    var f :| f in sorted && f.key == x;
    assert f in multiset(counts);
    assert r[|r| - 1] in r;
    assert f in r;
  }

  /** `funnel` shows the distinct steps `steps`, in order, each with its total under its display name. */
  ghost predicate ShowsSteps(t: PathTable, funnel: seq<FunnelEntry>, steps: seq<string>)
  {
    |steps| == |funnel| && PathViews.DistinctSteps(steps)
    && forall i :: 0 <= i < |steps| ==>
         steps[i] in PathViews.AllSteps(t)
         && funnel[i] == FunnelEntry(PathViews.OccurrenceCount(t, steps[i]), DisplayName(steps[i]))
  }

  /**
   * What `analyze_path_conversion` returns: the funnel shows six distinct
   * steps (all of them when there are fewer) in non-increasing order of
   * total, leaving out no step that counts more than its last entry, and
   * `totalUsers` is the largest step total, 0 without steps, heading the funnel.
   */
  ghost predicate IsConversion(t: PathTable, funnel: seq<FunnelEntry>, totalUsers: nat)
  {
    var steps := PathViews.AllSteps(t);
    |funnel| == (if |steps| < 6 then |steps| else 6)
    && (forall i, j :: 0 <= i < j < |funnel| ==> funnel[i].value >= funnel[j].value)
    && (exists shown :: ShowsSteps(t, funnel, shown))
    && (forall x :: x in steps ==> PathViews.OccurrenceCount(t, x) <= totalUsers)
    && (steps == {} ==> totalUsers == 0)
    && (steps != {} ==> exists x :: x in steps && PathViews.OccurrenceCount(t, x) == totalUsers)
    && (forall x :: x in steps && funnel != [] && PathViews.OccurrenceCount(t, x) > funnel[|funnel| - 1].value ==>
          exists i :: 0 <= i < |funnel| && funnel[i] == FunnelEntry(PathViews.OccurrenceCount(t, x), DisplayName(x)))
    && (funnel != [] ==> funnel[0].value == totalUsers)
  }

  /** `analyze_path_conversion`: the funnel of the six most frequent steps and the largest step count. */
  method PathConversion(t: PathTable) returns (funnel: seq<FunnelEntry>, totalUsers: nat)
    ensures IsConversion(t, funnel, totalUsers)
  {
    var counts := CountSteps(t);
    var sorted := Counters.SortByCountDesc(counts);
    var top := Counters.Take(sorted, 6);
    assert counts == StepCounts(t);
    assert top == FunnelSteps(t);
    funnel := FunnelOf(top);
    totalUsers := MaxCount(sorted);
    FunnelLayout(t, funnel);
    FunnelCovers(t, funnel);
    ConversionTotal(t);
    FunnelHead(t, funnel);
  }

  /** The funnel built from the top six steps has their size and order, and shows each under its display name. */
  lemma FunnelLayout(t: PathTable, funnel: seq<FunnelEntry>)
    requires IsFunnelOf(funnel, FunnelSteps(t))
    ensures |funnel| == if |PathViews.AllSteps(t)| < 6 then |PathViews.AllSteps(t)| else 6
    ensures forall i, j :: 0 <= i < j < |funnel| ==> funnel[i].value >= funnel[j].value
    ensures exists shown :: ShowsSteps(t, funnel, shown)
  {
    var top := FunnelSteps(t);
    FunnelStepsShape(t);
    var shown := seq(|top|, i requires 0 <= i < |top| => top[i].key);
    forall i | 0 <= i < |shown|
      ensures shown[i] in PathViews.AllSteps(t)
      ensures funnel[i] == FunnelEntry(PathViews.OccurrenceCount(t, shown[i]), DisplayName(shown[i]))
    {
      assert top[i] in top;
    }
    assert ShowsSteps(t, funnel, shown);
  }

  /** Every step counting more than the funnel's last entry is shown in the funnel. */
  lemma FunnelCovers(t: PathTable, funnel: seq<FunnelEntry>)
    requires IsFunnelOf(funnel, FunnelSteps(t))
    ensures forall x :: x in PathViews.AllSteps(t) && funnel != [] && PathViews.OccurrenceCount(t, x) > funnel[|funnel| - 1].value ==>
              exists i :: 0 <= i < |funnel| && funnel[i] == FunnelEntry(PathViews.OccurrenceCount(t, x), DisplayName(x))
  {
    var top := FunnelSteps(t);
    forall x | x in PathViews.AllSteps(t) && funnel != [] && PathViews.OccurrenceCount(t, x) > funnel[|funnel| - 1].value
      ensures exists i :: 0 <= i < |funnel| && funnel[i] == FunnelEntry(PathViews.OccurrenceCount(t, x), DisplayName(x))
    {
      FunnelStepsTop(t, x);
      FunnelStepsShape(t);
      var e :| e in top && e.key == x;
      var i :| 0 <= i < |top| && top[i] == e;
      assert funnel[i] == FunnelEntry(PathViews.OccurrenceCount(t, x), DisplayName(x));
    }
  }

  /** The funnel's first entry is the largest step count. */
  lemma FunnelHead(t: PathTable, funnel: seq<FunnelEntry>)
    requires IsFunnelOf(funnel, FunnelSteps(t))
    ensures funnel != [] ==> funnel[0].value == MaxCount(Counters.SortByCountDesc(StepCounts(t)))
  {
    var sorted := Counters.SortByCountDesc(StepCounts(t));
    if funnel != [] {
      ConversionTotal(t);
      assert sorted[0] == FunnelSteps(t)[0];
    }
  }

  /** The largest step count belongs to a step, bounds every step, and heads the descending order. */
  lemma ConversionTotal(t: PathTable)
    ensures var counts := StepCounts(t);
            var sorted := Counters.SortByCountDesc(counts);
            var m := MaxCount(sorted);
            (forall x :: x in PathViews.AllSteps(t) ==> PathViews.OccurrenceCount(t, x) <= m) &&
            (PathViews.AllSteps(t) == {} ==> m == 0) &&
            (PathViews.AllSteps(t) != {} ==> exists x :: x in PathViews.AllSteps(t) && PathViews.OccurrenceCount(t, x) == m) &&
            (sorted != [] ==> sorted[0].count == m)
  {
    var counts := StepCounts(t);
    var sorted := Counters.SortByCountDesc(counts);
    var m := MaxCount(sorted);
    SortedCounts(t);
    forall x | x in PathViews.AllSteps(t) ensures PathViews.OccurrenceCount(t, x) <= m {
      var f :| f in sorted && f.key == x;
    }
    if sorted != [] {
      SortedHeadIsMax(sorted);
    }
  }

  /** In descending order, the first count is the largest. */
  lemma SortedHeadIsMax(s: Counters.Table<string>)
    requires Counters.SortedDesc(s) && s != []
    ensures s[0].count == MaxCount(s)
  {
    var m := MaxCount(s);
    var e :| e in s && e.count == m;
    var k :| 0 <= k < |s| && s[k] == e;
    assert k == 0 || s[0].count >= s[k].count;
    assert s[0] in s;
  }

  /** A non-empty table has at least one step, so an empty funnel means an empty table. */
  lemma NonEmptyHasSteps(t: PathTable)
    requires t != []
    ensures PathViews.AllSteps(t) != {}
  {
    var steps := PathViews.StepsOf(t[|t| - 1].key);
    assert steps[0] in PathViews.StepSetOf(steps);
  }

  // ---------------------------------------------------------------- path statistics

  /** A share `num / den`, kept exact. */
  datatype Ratio = Ratio(num: nat, den: nat)

  /** `(count / total_users) * 100`, or 0 when there are no users. */
  function Percentage(count: nat, total: nat): (r: Ratio)
    ensures r.den > 0
    ensures total > 0 ==> r.num * total == 100 * count * r.den
    ensures total == 0 ==> r.num == 0
    ensures count <= total ==> r.num <= 100 * r.den
  {
    if total > 0 then Ratio(100 * count, total) else Ratio(0, 1)
  }

  /** The number of steps that contain `:`, the ones the duration estimate treats as page steps. */
  function PageSteps(steps: seq<string>): (r: nat)
    ensures r <= |steps|
    ensures r == 0 <==> forall i :: 0 <= i < |steps| ==> ':' !in steps[i]
    ensures r == |steps| <==> forall i :: 0 <= i < |steps| ==> ':' in steps[i]
  {
    if steps == [] then 0
    else PageSteps(steps[..|steps| - 1]) + (if ':' in steps[|steps| - 1] then 1 else 0)
  }

  /**
   * The duration estimate in tenths of a second, as exact arithmetic:
   * `15·n·(1 + 0.3·k) + count % 20` seconds for `n` steps of which `k` are page steps.
   */
  function DurationTenths(steps: nat, pageSteps: nat, count: nat): (r: nat)
    ensures r == 15 * steps * (10 + 3 * pageSteps) + 10 * (count % 20)
  {
    PathViews.RepeatIsProduct(steps, 150 + 45 * pageSteps);
    PathViews.Repeat(steps, 150 + 45 * pageSteps) + 10 * (count % 20)
  }

  /** `max(10, 80 - 5·n + count % 15)`. */
  function ConversionRate(steps: nat, count: nat): (r: int)
    ensures r >= 10
    ensures r >= 80 - 5 * steps + count % 15
    ensures r == 10 || r == 80 - 5 * steps + count % 15
  {
    var raw := 80 - 5 * steps + count % 15;
    if raw > 10 then raw else 10
  }

  /** The estimated conversion rate lies between 10 and 89 (84 for paths of two or more steps). */
  lemma ConversionRateBounds(steps: nat, count: nat)
    requires steps >= 1
    ensures 10 <= ConversionRate(steps, count) <= 89
    ensures steps >= 2 ==> ConversionRate(steps, count) <= 84
  {
  }

  /** A longer path never gets a higher rate for the same count. */
  lemma ConversionRateMonotone(shorter: nat, longer: nat, count: nat)
    requires shorter <= longer
    ensures ConversionRate(longer, count) <= ConversionRate(shorter, count)
  {
  }

  /** From seventeen steps on the rate is the floor of 10, whatever the count. */
  lemma ConversionRateFloor(steps: nat, count: nat)
    requires steps >= 17
    ensures ConversionRate(steps, count) == 10
  {
  }

  datatype PathStat = PathStat(count: nat, percentage: Ratio, durationTenths: nat, conversionRate: int)

  function StatOf(key: string, count: nat, total: nat): (r: PathStat)
    ensures r.count == count && r.conversionRate >= 10
    ensures total > 0 ==> r.percentage.num * total == 100 * count * r.percentage.den
    ensures total == 0 ==> r.percentage.num == 0
    ensures var steps := PathViews.StepsOf(key);
            r.durationTenths == 15 * |steps| * (10 + 3 * PageSteps(steps)) + 10 * (count % 20)
            && r.conversionRate == (if 80 - 5 * |steps| + count % 15 > 10 then 80 - 5 * |steps| + count % 15 else 10)
  {
    var steps := PathViews.StepsOf(key);
    PathStat(count, Percentage(count, total), DurationTenths(|steps|, PageSteps(steps), count), ConversionRate(|steps|, count))
  }

  /** `calculate_enhanced_path_stats`: one statistics record per path, in table order. */
  method PathStats(t: PathTable) returns (stats: seq<(string, PathStat)>)
    ensures |stats| == |t|
    ensures forall i :: 0 <= i < |t| ==> stats[i] == (t[i].key, StatOf(t[i].key, t[i].count, Counters.Total(t)))
  {
    var total := Counters.Total(t);
    stats := [];
    var k := 0;
    while k < |t|
      invariant 0 <= k <= |t|
      invariant |stats| == k
      invariant forall i :: 0 <= i < k ==> stats[i] == (t[i].key, StatOf(t[i].key, t[i].count, total))
    {
      stats := stats + [(t[k].key, StatOf(t[k].key, t[k].count, total))];
      k := k + 1;
    }
  }

  /** The percentage numerators over the table, for a fixed total. */
  function ShareSum(t: PathTable, total: nat): nat
  {
    if t == [] then 0 else ShareSum(t[..|t| - 1], total) + Percentage(t[|t| - 1].count, total).num
  }

  /** Over a table of users, the percentages add up to exactly 100. */
  lemma {:induction false} SharesAddUp(t: PathTable, total: nat)
    requires total > 0
    ensures ShareSum(t, total) == 100 * Counters.Total(t)
  {
    if t != [] {
      SharesAddUp(t[..|t| - 1], total);
    }
  }

  /** Every path's share is at most 100%. */
  lemma {:induction false} ShareBound(t: PathTable, i: nat)
    requires i < |t|
    ensures t[i].count <= Counters.Total(t)
  {
    if i < |t| - 1 {
      assert t[..|t| - 1][i] == t[i];
      ShareBound(t[..|t| - 1], i);
    }
  }

  // ---------------------------------------------------------------- popular paths and metrics

  /** The number of paths `get_popular_paths` returns when its caller gives none. */
  const DefaultTopN: int := 10

  /** `get_popular_paths`: the first `topN` entries in descending order of count. */
  function PopularPaths(t: PathTable, topN: int): (r: PathTable)
    ensures Counters.SortedDesc(r)
    ensures 0 <= topN ==> |r| == if topN < |t| then topN else |t|
    ensures multiset(r) <= multiset(t)
    ensures forall e :: e in r ==> e in t
    ensures forall e, f :: e in t && e !in r && f in r ==> e.count <= f.count
  {
    var sorted := Counters.SortByCountDesc(t);
    var r := Counters.Take(sorted, topN);
    Counters.TopEntries(t, topN);
    assert Counters.SortedDesc(r) by {
      forall i, j | 0 <= i < j < |r| ensures r[i].count >= r[j].count {
        assert r[i] == sorted[i] && r[j] == sorted[j];
      }
    }
    r
  }

  /** `calculate_path_metrics`; the two averages are kept as exact ratios. */
  datatype Metrics = Metrics(
    totalPaths: nat,
    totalUsers: nat,
    avgPathLength: Ratio,
    maxPathLength: nat,
    minPathLength: nat,
    avgUsersPerPath: Ratio,
    maxUsersInPath: nat,
    minUsersInPath: nat)

  function Lengths(t: PathTable): (r: seq<nat>)
    ensures |r| == |t| && forall i :: 0 <= i < |t| ==> r[i] == Length(t[i].key)
  {
    seq(|t|, i requires 0 <= i < |t| => Length(t[i].key))
  }

  function Counts(t: PathTable): (r: seq<nat>)
    ensures |r| == |t| && forall i :: 0 <= i < |t| ==> r[i] == t[i].count
  {
    seq(|t|, i requires 0 <= i < |t| => t[i].count)
  }

  function Sum(xs: seq<nat>): nat
  {
    if xs == [] then 0 else Sum(xs[..|xs| - 1]) + xs[|xs| - 1]
  }

  /** Python's `max` of a non-empty list. */
  function Max(xs: seq<nat>): (m: nat)
    requires xs != []
    ensures m in xs && forall i :: 0 <= i < |xs| ==> xs[i] <= m
  {
    if |xs| == 1 then xs[0]
    else
      var init := xs[..|xs| - 1];
      var rest := Max(init);
      assert forall i :: 0 <= i < |init| ==> xs[i] == init[i];
      assert rest in xs;
      if xs[|xs| - 1] > rest then xs[|xs| - 1] else rest
  }


  /** Python's `min` of a non-empty list. */
  function Min(xs: seq<nat>): (m: nat)
    requires xs != []
    ensures m in xs && forall i :: 0 <= i < |xs| ==> m <= xs[i]
  {
    if |xs| == 1 then xs[0]
    else
      var init := xs[..|xs| - 1];
      var rest := Min(init);
      assert forall i :: 0 <= i < |init| ==> xs[i] == init[i];
      assert rest in xs;
      if xs[|xs| - 1] < rest then xs[|xs| - 1] else rest
  }


  lemma {:induction false} CountsSum(t: PathTable)
    ensures Sum(Counts(t)) == Counters.Total(t)
  {
    if t != [] {
      CountsSum(t[..|t| - 1]);
      assert Counts(t)[..|t| - 1] == Counts(t[..|t| - 1]);
    }
  }

  /** No metrics for an empty table; otherwise totals, extremes and exact averages. */
  function PathMetrics(t: PathTable): (r: Option<Metrics>)
    ensures r.None? <==> t == []
    ensures r.Some? ==>
              r.value.totalPaths == |t| && r.value.totalUsers == Counters.Total(t) &&
              r.value.avgPathLength == Ratio(Sum(Lengths(t)), |t|) &&
              r.value.avgUsersPerPath == Ratio(Counters.Total(t), |t|) &&
              (exists i :: 0 <= i < |t| && Length(t[i].key) == r.value.maxPathLength) &&
              (exists i :: 0 <= i < |t| && Length(t[i].key) == r.value.minPathLength) &&
              (forall i :: 0 <= i < |t| ==> r.value.minPathLength <= Length(t[i].key) <= r.value.maxPathLength) &&
              (exists i :: 0 <= i < |t| && t[i].count == r.value.maxUsersInPath) &&
              (exists i :: 0 <= i < |t| && t[i].count == r.value.minUsersInPath) &&
              (forall i :: 0 <= i < |t| ==> r.value.minUsersInPath <= t[i].count <= r.value.maxUsersInPath)
  {
    if t == [] then None
    else
      var lengths := Lengths(t);
      var counts := Counts(t);
      CountsSum(t);
      assert forall i :: 0 <= i < |t| ==> lengths[i] in lengths && counts[i] in counts;
      Some(Metrics(|t|, Sum(counts), Ratio(Sum(lengths), |lengths|), Max(lengths), Min(lengths),
                   Ratio(Sum(counts), |counts|), Max(counts), Min(counts)))
  }
}
