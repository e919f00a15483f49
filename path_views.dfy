/**
 * The views computed from a path table (a `Counter` from `" → "`-joined
 * paths to counts): step positions, the sankey graph, the length
 * distribution, the step funnel, the conversion-rate estimate, the most
 * popular paths and the integer path metrics.
 */
module PathViews {
  import opened Wrappers
  import opened Text
  import Counters
  import PathCodec

  type PathTable = Counters.Table<string>

  /** The steps of a table key, `path.split(' → ')`. */
  function StepsOf(key: string): (r: seq<string>)
    ensures |r| >= 1
  {
    PathCodec.Split(key)
  }

  // ---------------------------------------------------------------- weighted sums

  /** `c` added once per occurrence of `x` in `xs`. */
  function Weighted<T(==)>(xs: seq<T>, x: T, c: nat): nat
  {
    if xs == [] then 0 else Weighted(xs[..|xs| - 1], x, c) + (if xs[|xs| - 1] == x then c else 0)
  }

  /** `i * c` added for every position `i` of `x` in `steps`. */
  function WeightedIndexSum(steps: seq<string>, x: string, c: nat): nat
  {
    if steps == [] then 0
    else WeightedIndexSum(steps[..|steps| - 1], x, c) + (if steps[|steps| - 1] == x then Repeat(|steps| - 1, c) else 0)
  }

  /** `n * c`, as `c` added `n` times. */
  function Repeat(n: nat, c: nat): nat
  {
    if n == 0 then 0 else Repeat(n - 1, c) + c
  }

  lemma {:induction false} RepeatIsProduct(n: nat, c: nat)
    ensures Repeat(n, c) == n * c
  {
    if n > 0 {
      RepeatIsProduct(n - 1, c);
      assert (n - 1) * c + c == n * c;
    }
  }

  lemma {:induction false} RepeatAdds(n: nat, a: nat, b: nat)
    ensures Repeat(n, a) + Repeat(n, b) == Repeat(n, a + b)
  {
    if n > 0 {
      RepeatAdds(n - 1, a, b);
    }
  }

  lemma {:induction false} RepeatMonotone(m: nat, n: nat, c: nat)
    requires m <= n
    ensures Repeat(m, c) <= Repeat(n, c)
    decreases n
  {
    if m < n {
      RepeatMonotone(m, n - 1, c);
    }
  }

  lemma {:induction false} WeightedAbsent<T>(xs: seq<T>, x: T, c: nat)
    requires x !in xs
    ensures Weighted(xs, x, c) == 0
  {
    if xs != [] {
      WeightedAbsent(xs[..|xs| - 1], x, c);
    }
  }

  lemma {:induction false} WeightedIndexSumAbsent(steps: seq<string>, x: string, c: nat)
    requires x !in steps
    ensures WeightedIndexSum(steps, x, c) == 0
  {
    if steps != [] {
      WeightedIndexSumAbsent(steps[..|steps| - 1], x, c);
    }
  }

  /** Each occurrence index is at most `bound`, so the index sum is at most `bound` times the weight. */
  lemma {:induction false} WeightedIndexSumBound(steps: seq<string>, x: string, c: nat, bound: nat)
    requires |steps| <= bound + 1
    ensures WeightedIndexSum(steps, x, c) <= Repeat(bound, Weighted(steps, x, c))
  {
    if steps != [] {
      var init := steps[..|steps| - 1];
      WeightedIndexSumBound(init, x, c, bound);
      if steps[|steps| - 1] == x {
        RepeatMonotone(|steps| - 1, bound, c);
        RepeatAdds(bound, Weighted(init, x, c), c);
      }
    }
  }

  // ---------------------------------------------------------------- step positions

  /** The steps occurring in the keys of `t`. */
  function AllSteps(t: PathTable): set<string>
  {
    if t == [] then {} else AllSteps(t[..|t| - 1]) + StepSet(t[|t| - 1].key)
  }

  function StepSet(key: string): set<string>
  {
    StepSetOf(StepsOf(key))
  }

  function StepSetOf(steps: seq<string>): set<string>
  {
    set x | x in steps
  }

  /** `Σ i·count` over the occurrences of `x` at index `i` in the table's paths. */
  function PositionSum(t: PathTable, x: string): nat
  {
    if t == [] then 0
    else PositionSum(t[..|t| - 1], x) + WeightedIndexSum(StepsOf(t[|t| - 1].key), x, t[|t| - 1].count)
  }

  /** `Σ count` over the occurrences of `x` in the table's paths: a repeated step counts per occurrence. */
  function OccurrenceCount(t: PathTable, x: string): nat
  {
    if t == [] then 0
    else OccurrenceCount(t[..|t| - 1], x) + Weighted(StepsOf(t[|t| - 1].key), x, t[|t| - 1].count)
  }

  lemma {:induction false} AbsentStep(t: PathTable, x: string)
    requires x !in AllSteps(t)
    ensures PositionSum(t, x) == 0 && OccurrenceCount(t, x) == 0
  {
    if t != [] {
      AbsentStep(t[..|t| - 1], x);
      var last := t[|t| - 1];
      WeightedAbsent(StepsOf(last.key), x, last.count);
      WeightedIndexSumAbsent(StepsOf(last.key), x, last.count);
    }
  }

  /** A step's weighted mean position `sum / count`, kept as the exact pair of integers. */
  datatype Position = Position(sum: nat, count: nat)

  function PositionOf(pos: map<string, Position>, x: string): Position
  {
    if x in pos then pos[x] else Position(0, 0)
  }

  /**
   * `calculate_step_positions`: per step, the count-weighted sum of its
   * indices and the count-weighted number of its occurrences.
   */
  method StepPositions(t: PathTable) returns (pos: map<string, Position>)
    ensures pos.Keys == AllSteps(t)
    ensures forall x :: x in pos ==> pos[x] == Position(PositionSum(t, x), OccurrenceCount(t, x))
  {
    pos := map[];
    var j := 0;
    while j < |t|
      invariant 0 <= j <= |t|
      invariant pos.Keys == AllSteps(t[..j])
      invariant forall x :: x in pos ==> pos[x] == Position(PositionSum(t[..j], x), OccurrenceCount(t[..j], x))
    {
      assert t[..j + 1][..j] == t[..j];
      var before := pos;
      pos := AddPathPositions(pos, StepsOf(t[j].key), t[j].count);
      forall x | x in pos
        ensures pos[x] == Position(PositionSum(t[..j + 1], x), OccurrenceCount(t[..j + 1], x))
      {
        if x !in before {
          AbsentStep(t[..j], x);
        }
      }
      j := j + 1;
    }
    assert t[..j] == t;
  }

  /** Extending a prefix of the steps by one adds that step's weight, its index weight and the step itself. */
  lemma StepsPrefixStep(steps: seq<string>, i: nat, count: nat)
    requires i < |steps|
    ensures forall x :: Weighted(steps[..i + 1], x, count) == Weighted(steps[..i], x, count) + (if steps[i] == x then count else 0)
    ensures forall x :: WeightedIndexSum(steps[..i + 1], x, count) ==
                        WeightedIndexSum(steps[..i], x, count) + (if steps[i] == x then Repeat(i, count) else 0)
    ensures StepSetOf(steps[..i + 1]) == StepSetOf(steps[..i]) + {steps[i]}
  {
    assert steps[..i + 1] == steps[..i] + [steps[i]];
    assert steps[..i + 1][..i] == steps[..i];
  }


  /** Recording the occurrence of `steps[i]` at index `i` extends the positions from `steps[..i]` to `steps[..i + 1]`. */
  lemma PositionStep(pos: map<string, Position>, cur: map<string, Position>, steps: seq<string>, i: nat, count: nat)
    requires i < |steps|
    requires cur.Keys == pos.Keys + StepSetOf(steps[..i])
    requires forall x :: x in cur ==>
               cur[x] == Position(PositionOf(pos, x).sum + WeightedIndexSum(steps[..i], x, count),
                                  PositionOf(pos, x).count + Weighted(steps[..i], x, count))
    ensures var prev := PositionOf(cur, steps[i]);
            var next := cur[steps[i] := Position(prev.sum + i * count, prev.count + count)];
            next.Keys == pos.Keys + StepSetOf(steps[..i + 1]) &&
            forall x :: x in next ==>
              next[x] == Position(PositionOf(pos, x).sum + WeightedIndexSum(steps[..i + 1], x, count),
                                  PositionOf(pos, x).count + Weighted(steps[..i + 1], x, count))
  {
    var step := steps[i];
    StepsPrefixStep(steps, i, count);
    RepeatIsProduct(i, count);
    if step !in cur {
      WeightedAbsent(steps[..i], step, count);
      WeightedIndexSumAbsent(steps[..i], step, count);
    }
  }


  /** The inner loop of lines 104-111: one path's steps added with the path's count. */
  method AddPathPositions(pos: map<string, Position>, steps: seq<string>, count: nat)
    returns (pos': map<string, Position>)
    ensures pos'.Keys == pos.Keys + StepSetOf(steps)
    ensures forall x :: x in pos' ==>
              pos'[x] == Position(PositionOf(pos, x).sum + WeightedIndexSum(steps, x, count),
                                  PositionOf(pos, x).count + Weighted(steps, x, count))
  {
    pos' := pos;
    var i := 0;
    assert steps[..0] == [];
    while i < |steps|
      invariant 0 <= i <= |steps|
      invariant pos'.Keys == pos.Keys + StepSetOf(steps[..i])
      invariant forall x :: x in pos' ==>
                  pos'[x] == Position(PositionOf(pos, x).sum + WeightedIndexSum(steps[..i], x, count),
                                      PositionOf(pos, x).count + Weighted(steps[..i], x, count))
    {
      var step := steps[i];
      PositionStep(pos, pos', steps, i, count);
      var prev := PositionOf(pos', step);
      pos' := pos'[step := Position(prev.sum + i * count, prev.count + count)];
      i := i + 1;
    }
    assert steps[..i] == steps;
  }

  /** The longest path of the table, in steps. */
  function MaxSteps(t: PathTable): (m: nat)
    ensures forall i :: 0 <= i < |t| ==> |StepsOf(t[i].key)| <= m
    ensures t != [] ==> exists i :: 0 <= i < |t| && |StepsOf(t[i].key)| == m
  {
    if t == [] then 0
    else
      var m := MaxSteps(t[..|t| - 1]);
      var n := |StepsOf(t[|t| - 1].key)|;
      assert forall i :: 0 <= i < |t| - 1 ==> t[..|t| - 1][i] == t[i];
      if n > m then n else m
  }

  /**
   * The weighted mean position of every step lies in `[0, longest - 1]`:
   * the index sum is at most `(longest - 1)` times the occurrence count.
   */
  lemma PositionBound(t: PathTable, x: string)
    requires t != []
    ensures PositionSum(t, x) <= (MaxSteps(t) - 1) * OccurrenceCount(t, x)
  {
    PositionBoundWith(t, x, MaxSteps(t) - 1);
    RepeatIsProduct(MaxSteps(t) - 1, OccurrenceCount(t, x));
  }

  lemma {:induction false} PositionBoundWith(t: PathTable, x: string, bound: nat)
    requires forall i :: 0 <= i < |t| ==> |StepsOf(t[i].key)| <= bound + 1
    ensures PositionSum(t, x) <= Repeat(bound, OccurrenceCount(t, x))
  {
    if t != [] {
      var init := t[..|t| - 1];
      var last := t[|t| - 1];
      assert forall i :: 0 <= i < |init| ==> init[i] == t[i];
      PositionBoundWith(init, x, bound);
      WeightedIndexSumBound(StepsOf(last.key), x, last.count, bound);
      RepeatAdds(bound, OccurrenceCount(init, x), Weighted(StepsOf(last.key), x, last.count));
    }
  }

  // ---------------------------------------------------------------- sankey

  /** The transitions `(steps[i], steps[i + 1])` of a path, in order. */
  function AdjacentPairs(steps: seq<string>): (r: seq<(string, string)>)
    ensures |r| == if steps == [] then 0 else |steps| - 1
    ensures forall k :: 0 <= k < |r| ==> r[k] == (steps[k], steps[k + 1])
  {
    if |steps| <= 1 then [] else seq(|steps| - 1, k requires 0 <= k < |steps| - 1 => (steps[k], steps[k + 1]))
  }

  /** The count-weighted number of times the transition `p` occurs in the table's paths. */
  function PairCount(t: PathTable, p: (string, string)): nat
  {
    if t == [] then 0
    else PairCount(t[..|t| - 1], p) + Weighted(AdjacentPairs(StepsOf(t[|t| - 1].key)), p, t[|t| - 1].count)
  }

  /** The transitions occurring in the table's paths. */
  function PairSet(t: PathTable): set<(string, string)>
  {
    if t == [] then {} else PairSet(t[..|t| - 1]) + PairSetOf(AdjacentPairs(StepsOf(t[|t| - 1].key)))
  }

  function PairSetOf(ps: seq<(string, string)>): set<(string, string)>
  {
    set p | p in ps
  }

  /** `Σ (len(steps) - 1) · count` over the table: the most that all transitions can weigh together. */
  function TransitionCapacity(t: PathTable): nat
  {
    if t == [] then 0
    else TransitionCapacity(t[..|t| - 1]) + Repeat(|StepsOf(t[|t| - 1].key)| - 1, t[|t| - 1].count)
  }

  predicate DistinctSteps(xs: seq<string>)
  {
    forall i, j :: 0 <= i < j < |xs| ==> xs[i] != xs[j]
  }

  /** One path's steps added to the distinct steps seen so far (the `all_steps` set). */
  method AddPathSteps(seen: seq<string>, steps: seq<string>) returns (seen': seq<string>)
    requires DistinctSteps(seen)
    ensures DistinctSteps(seen') && seen <= seen'
    ensures StepSetOf(seen') == StepSetOf(seen) + StepSetOf(steps)
  {
    seen' := seen;
    var i := 0;
    while i < |steps|
      invariant 0 <= i <= |steps|
      invariant DistinctSteps(seen') && seen <= seen'
      invariant StepSetOf(seen') == StepSetOf(seen) + StepSetOf(steps[..i])
    {
      assert StepSetOf(steps[..i + 1]) == StepSetOf(steps[..i]) + {steps[i]} by {
        assert steps[..i + 1] == steps[..i] + [steps[i]];
      }
      if steps[i] !in seen' {
        var prev := seen';
        seen' := seen' + [steps[i]];
        assert StepSetOf(seen') == StepSetOf(prev) + {steps[i]};
      }
      i := i + 1;
    }
    assert steps[..i] == steps;
  }

  /** Extending a prefix of the transitions by one adds that transition's weight and the transition itself. */
  lemma PairsPrefixStep(pairs: seq<(string, string)>, i: nat, count: nat)
    requires i < |pairs|
    ensures forall p :: Weighted(pairs[..i + 1], p, count) == Weighted(pairs[..i], p, count) + (if p == pairs[i] then count else 0)
    ensures PairSetOf(pairs[..i + 1]) == PairSetOf(pairs[..i]) + {pairs[i]}
  {
    assert pairs[..i + 1] == pairs[..i] + [pairs[i]];
    assert pairs[..i + 1][..i] == pairs[..i];
  }

  /** Adding the next transition keeps the counter equal to the start plus the transitions seen so far. */
  lemma TransitionStep(trans: Counters.Table<(string, string)>, cur: Counters.Table<(string, string)>,
                       pairs: seq<(string, string)>, i: nat, count: nat)
    requires i < |pairs| && Counters.DistinctKeys(cur)
    requires forall p :: Counters.CountOf(cur, p) == Counters.CountOf(trans, p) + Weighted(pairs[..i], p, count)
    requires Counters.KeySet(cur) == Counters.KeySet(trans) + PairSetOf(pairs[..i])
    requires Counters.Total(cur) == Counters.Total(trans) + Repeat(i, count)
    ensures var next := Counters.Add(cur, pairs[i], count);
            (forall p :: Counters.CountOf(next, p) == Counters.CountOf(trans, p) + Weighted(pairs[..i + 1], p, count)) &&
            Counters.KeySet(next) == Counters.KeySet(trans) + PairSetOf(pairs[..i + 1]) &&
            Counters.Total(next) == Counters.Total(trans) + Repeat(i + 1, count)
  {
    PairsPrefixStep(pairs, i, count);
  }

  /** One path's transitions added to the `transitions` counter with the path's count. */
  method AddPathTransitions(trans: Counters.Table<(string, string)>, steps: seq<string>, count: nat)
    returns (trans': Counters.Table<(string, string)>)
    requires Counters.DistinctKeys(trans)
    ensures Counters.DistinctKeys(trans')
    ensures forall p :: Counters.CountOf(trans', p) == Counters.CountOf(trans, p) + Weighted(AdjacentPairs(steps), p, count)
    ensures Counters.KeySet(trans') == Counters.KeySet(trans) + PairSetOf(AdjacentPairs(steps))
    ensures Counters.Total(trans') == Counters.Total(trans) + Repeat(|AdjacentPairs(steps)|, count)
  {
    var pairs := AdjacentPairs(steps);
    trans' := trans;
    var i := 0;
    assert pairs[..0] == [];
    while i < |pairs|
      invariant 0 <= i <= |pairs|
      invariant Counters.DistinctKeys(trans')
      invariant forall p :: Counters.CountOf(trans', p) == Counters.CountOf(trans, p) + Weighted(pairs[..i], p, count)
      invariant Counters.KeySet(trans') == Counters.KeySet(trans) + PairSetOf(pairs[..i])
      invariant Counters.Total(trans') == Counters.Total(trans) + Repeat(i, count)
    {
      var transition := (steps[i], steps[i + 1]);
      TransitionStep(trans, trans', pairs, i, count);
      trans' := Counters.Add(trans', transition, count);
      i := i + 1;
    }
    assert pairs[..i] == pairs;
  }

  /** Lines 135-146: the distinct steps, in order of first appearance, and the transition counter. */
  method CollectSteps(t: PathTable) returns (seen: seq<string>, trans: Counters.Table<(string, string)>)
    ensures DistinctSteps(seen) && StepSetOf(seen) == AllSteps(t)
    ensures Counters.DistinctKeys(trans)
    ensures forall p :: Counters.CountOf(trans, p) == PairCount(t, p)
    ensures Counters.KeySet(trans) == PairSet(t)
    ensures Counters.Total(trans) == TransitionCapacity(t)
  {
    seen := [];
    trans := [];
    var j := 0;
    while j < |t|
      invariant 0 <= j <= |t|
      invariant DistinctSteps(seen) && StepSetOf(seen) == AllSteps(t[..j])
      invariant Counters.DistinctKeys(trans)
      invariant forall p :: Counters.CountOf(trans, p) == PairCount(t[..j], p)
      invariant Counters.KeySet(trans) == PairSet(t[..j])
      invariant Counters.Total(trans) == TransitionCapacity(t[..j])
    {
      assert t[..j + 1][..j] == t[..j];
      var steps := StepsOf(t[j].key);
      seen := AddPathSteps(seen, steps);
      trans := AddPathTransitions(trans, steps, t[j].count);
      j := j + 1;
    }
    assert t[..j] == t;
  }

  /** `1` for a step that never occurs with a positive count: its position is then the bare sum. */
  function Denominator(c: nat): nat
  {
    if c == 0 then 1 else c
  }

  /** `p ≤ q` on the mean positions `sum / count`, compared by cross-multiplying. */
  predicate PositionLe(p: Position, q: Position)
  {
    p.sum * Denominator(q.count) <= q.sum * Denominator(p.count)
  }

  lemma MulLe(a: int, b: int, k: nat)
    requires a <= b
    ensures a * k <= b * k
  {
  }

  lemma CancelLe(a: int, b: int, k: int)
    requires k > 0 && a * k <= b * k
    ensures a <= b
  {
  }

  lemma SwapLast(x: int, y: int, z: int)
    ensures (x * y) * z == (x * z) * y
  {
  }

  /** `a/b ≤ c/d` and `c/d ≤ e/f` give `a/b ≤ e/f` for positive denominators. */
  lemma CrossTrans(a: int, b: int, c: int, d: int, e: int, f: int)
    requires b > 0 && d > 0 && f > 0
    requires a * d <= c * b && c * f <= e * d
    ensures a * f <= e * b
  {
    MulLe(a * d, c * b, f);
    MulLe(c * f, e * d, b);
    SwapLast(a, d, f);
    SwapLast(c, b, f);
    SwapLast(e, d, b);
    CancelLe(a * f, e * b, d);
  }

  lemma PositionLeTrans(p: Position, q: Position, r: Position)
    requires PositionLe(p, q) && PositionLe(q, r)
    ensures PositionLe(p, r)
  {
    CrossTrans(p.sum, Denominator(p.count), q.sum, Denominator(q.count), r.sum, Denominator(r.count));
  }

  predicate SortedByPosition(xs: seq<string>, pos: map<string, Position>)
  {
    forall i, j :: 0 <= i < j < |xs| ==> PositionLe(PositionOf(pos, xs[i]), PositionOf(pos, xs[j]))
  }

  /** `sorted(all_steps, key=position)`, with one resolution of ties. */
  function SortByPosition(xs: seq<string>, pos: map<string, Position>): (r: seq<string>)
    ensures multiset(r) == multiset(xs) && |r| == |xs|
    ensures SortedByPosition(r, pos)
  {
    if xs == [] then []
    else
      assert xs == [xs[0]] + xs[1..];
      InsertByPosition(xs[0], SortByPosition(xs[1..], pos), pos)
  }

  /** A step placed no later than the head of a sorted sequence can go in front of it. */
  lemma SortedByPositionCons(x: string, s: seq<string>, pos: map<string, Position>)
    requires SortedByPosition(s, pos) && (s == [] || PositionLe(PositionOf(pos, x), PositionOf(pos, s[0])))
    ensures SortedByPosition([x] + s, pos)
  {
    var r := [x] + s;
    forall i, j | 0 <= i < j < |r| ensures PositionLe(PositionOf(pos, r[i]), PositionOf(pos, r[j])) {
      assert r[j] == s[j - 1];
      if i > 0 {
        assert r[i] == s[i - 1];
      } else if j > 1 {
        PositionLeTrans(PositionOf(pos, x), PositionOf(pos, s[0]), PositionOf(pos, s[j - 1]));
      }
    }
  }

  function InsertByPosition(x: string, s: seq<string>, pos: map<string, Position>): (r: seq<string>)
    requires SortedByPosition(s, pos)
    ensures multiset(r) == multiset(s) + multiset{x} && |r| == |s| + 1
    ensures r[0] == x || (s != [] && r[0] == s[0])
    ensures SortedByPosition(r, pos)
  {
    if s == [] || PositionLe(PositionOf(pos, x), PositionOf(pos, s[0])) then
      SortedByPositionCons(x, s, pos);
      [x] + s
    else
      assert s == [s[0]] + s[1..];
      assert SortedByPosition(s[1..], pos) by {
        forall i, j | 0 <= i < j < |s[1..]| ensures PositionLe(PositionOf(pos, s[1..][i]), PositionOf(pos, s[1..][j])) {
          assert s[1..][i] == s[i + 1] && s[1..][j] == s[j + 1];
        }
      }
      var tail := InsertByPosition(x, s[1..], pos);
      assert PositionLe(PositionOf(pos, s[0]), PositionOf(pos, tail[0]));
      SortedByPositionCons(s[0], tail, pos);
      var r := [s[0]] + tail;
      assert multiset(r) == multiset{s[0]} + multiset(tail);
      r
  }

  /** `{step: i for i, step in enumerate(sorted_steps)}`. */
  function IndexMap(nodes: seq<string>): (m: map<string, nat>)
    ensures m.Keys == StepSetOf(nodes)
    ensures forall x :: x in m ==> m[x] < |nodes| && nodes[m[x]] == x
  {
    if nodes == [] then map[]
    else
      var init := nodes[..|nodes| - 1];
      assert forall i :: 0 <= i < |init| ==> init[i] == nodes[i];
      assert nodes == init + [nodes[|nodes| - 1]];
      IndexMap(init)[nodes[|nodes| - 1] := |nodes| - 1]
  }

  lemma IndexMapOfDistinct(nodes: seq<string>, i: nat)
    requires DistinctSteps(nodes) && i < |nodes|
    ensures nodes[i] in IndexMap(nodes) && IndexMap(nodes)[nodes[i]] == i
  {
    assert nodes[i] in StepSetOf(nodes);
  }

  /** Both ends of every transition are steps of the table. */
  lemma {:induction false} PairSetSteps(t: PathTable, p: (string, string))
    requires p in PairSet(t)
    ensures p.0 in AllSteps(t) && p.1 in AllSteps(t)
  {
    var init := t[..|t| - 1];
    if p in PairSet(init) {
      PairSetSteps(init, p);
    } else {
      var steps := StepsOf(t[|t| - 1].key);
      var k :| 0 <= k < |AdjacentPairs(steps)| && AdjacentPairs(steps)[k] == p;
      assert steps[k] in StepSetOf(steps) && steps[k + 1] in StepSetOf(steps);
    }
  }

  /** The weighted mean position of a step in the table. */
  function Mean(t: PathTable, x: string): Position
  {
    Position(PositionSum(t, x), OccurrenceCount(t, x))
  }

  /** A sankey link between node indices, with the transition's weight. */
  datatype Link = Link(source: nat, target: nat, value: nat, sourceName: string, targetName: string)

  function LinkTotal(links: seq<Link>): nat
  {
    if links == [] then 0 else LinkTotal(links[..|links| - 1]) + links[|links| - 1].value
  }

  lemma {:induction false} DistinctMultiplicity(xs: seq<string>)
    requires DistinctSteps(xs)
    ensures forall x :: multiset(xs)[x] <= 1
  {
    if xs != [] {
      var init := xs[..|xs| - 1];
      assert xs == init + [xs[|xs| - 1]];
      assert DistinctSteps(init) by {
        forall i, j | 0 <= i < j < |init| ensures init[i] != init[j] {
          assert init[i] == xs[i] && init[j] == xs[j];
        }
      }
      DistinctMultiplicity(init);
      assert xs[|xs| - 1] !in init;
    }
  }

  /** A permutation of distinct steps is distinct and has the same steps. */
  lemma PermutationDistinct(xs: seq<string>, ys: seq<string>)
    requires multiset(xs) == multiset(ys) && DistinctSteps(xs)
    ensures DistinctSteps(ys) && StepSetOf(ys) == StepSetOf(xs)
  {
    DistinctMultiplicity(xs);
    forall i, j | 0 <= i < j < |ys| ensures ys[i] != ys[j] {
      assert ys == ys[..j] + ys[j..];
      assert ys[i] in ys[..j] && ys[j] in ys[j..];
      assert multiset(ys)[ys[j]] == multiset(ys[..j])[ys[j]] + multiset(ys[j..])[ys[j]];
    }
    forall x ensures x in ys <==> x in xs {
      assert x in ys <==> x in multiset(ys);
      assert x in xs <==> x in multiset(xs);
    }
  }

  /** The node order of lines 152-155: the distinct steps sorted by mean position. */
  method SankeyNodes(t: PathTable, seen: seq<string>) returns (nodes: seq<string>)
    requires DistinctSteps(seen) && StepSetOf(seen) == AllSteps(t)
    ensures DistinctSteps(nodes) && StepSetOf(nodes) == AllSteps(t)
    ensures forall i, j :: 0 <= i < j < |nodes| ==> PositionLe(Mean(t, nodes[i]), Mean(t, nodes[j]))
  {
    var pos := StepPositions(t);
    nodes := SortByPosition(seen, pos);
    PermutationDistinct(seen, nodes);
    forall i, j | 0 <= i < j < |nodes| ensures PositionLe(Mean(t, nodes[i]), Mean(t, nodes[j])) {
      assert nodes[i] in StepSetOf(nodes) && nodes[j] in StepSetOf(nodes);
    }
  }

  /** No two links join the same pair of nodes. */
  predicate DistinctLinks(links: seq<Link>)
  {
    forall a, b :: 0 <= a < b < |links| ==>
      links[a].source != links[b].source || links[a].target != links[b].target
  }

  lemma DistinctLinksSnoc(links: seq<Link>, link: Link)
    requires DistinctLinks(links)
    requires forall l :: l in links ==> l.source != link.source || l.target != link.target
    ensures DistinctLinks(links + [link])
  {
    var r := links + [link];
    forall a, b | 0 <= a < b < |r| ensures r[a].source != r[b].source || r[a].target != r[b].target {
      assert r[a] == links[a];
      if b == |links| {
        assert links[a] in links;
      } else {
        assert r[b] == links[b];
      }
    }
  }

  /**
   * The links of lines 159-172, in counter order: a transition whose source
   * comes before its target in the node order becomes a link with its count.
   */
  function LinksOf(nodes: seq<string>, trans: Counters.Table<(string, string)>): seq<Link>
  {
    if trans == [] then []
    else
      var init := LinksOf(nodes, trans[..|trans| - 1]);
      var e := trans[|trans| - 1];
      var index := IndexMap(nodes);
      if e.key.0 in index && e.key.1 in index && index[e.key.0] < index[e.key.1]
      then init + [Link(index[e.key.0], index[e.key.1], e.count, e.key.0, e.key.1)]
      else init
  }

  /** Every link goes forward, names its nodes and carries the count of a transition. */
  lemma {:induction false} LinksSound(nodes: seq<string>, trans: Counters.Table<(string, string)>, l: Link)
    requires l in LinksOf(nodes, trans)
    ensures l.source < l.target < |nodes| && nodes[l.source] == l.sourceName && nodes[l.target] == l.targetName
    ensures exists m :: 0 <= m < |trans| && trans[m].key == (l.sourceName, l.targetName) && trans[m].count == l.value
  {
    var init := trans[..|trans| - 1];
    if l in LinksOf(nodes, init) {
      LinksSound(nodes, init, l);
      var m :| 0 <= m < |init| && init[m].key == (l.sourceName, l.targetName) && init[m].count == l.value;
      assert trans[m] == init[m];
    } else {
      assert trans[|trans| - 1].key == (l.sourceName, l.targetName);
    }
  }

  /** Every transition that goes forward between two nodes has a link. */
  lemma {:induction false} LinksCover(nodes: seq<string>, trans: Counters.Table<(string, string)>, m: nat, i: nat, j: nat)
    requires DistinctSteps(nodes)
    requires m < |trans| && i < j < |nodes| && trans[m].key == (nodes[i], nodes[j])
    ensures exists l :: l in LinksOf(nodes, trans) && l.source == i && l.target == j
  {
    var init := trans[..|trans| - 1];
    if m < |init| {
      assert init[m] == trans[m];
      LinksCover(nodes, init, m, i, j);
      var l :| l in LinksOf(nodes, init) && l.source == i && l.target == j;
      assert l in LinksOf(nodes, trans);
    } else {
      IndexMapOfDistinct(nodes, i);
      IndexMapOfDistinct(nodes, j);
      var r := LinksOf(nodes, trans);
      assert r[|r| - 1] in r;
    }
  }

  /** Distinct transitions give links joining distinct node pairs. */
  lemma {:induction false} LinksDistinct(nodes: seq<string>, trans: Counters.Table<(string, string)>)
    requires Counters.DistinctKeys(trans)
    ensures DistinctLinks(LinksOf(nodes, trans))
  {
    if trans != [] {
      var init := trans[..|trans| - 1];
      var e := trans[|trans| - 1];
      assert Counters.DistinctKeys(init) by {
        forall a, b | 0 <= a < b < |init| ensures init[a].key != init[b].key {
          assert init[a] == trans[a] && init[b] == trans[b];
        }
      }
      LinksDistinct(nodes, init);
      var index := IndexMap(nodes);
      if e.key.0 in index && e.key.1 in index && index[e.key.0] < index[e.key.1] {
        var link := Link(index[e.key.0], index[e.key.1], e.count, e.key.0, e.key.1);
        forall l | l in LinksOf(nodes, init) ensures l.source != link.source || l.target != link.target {
          LinksSound(nodes, init, l);
          var m :| 0 <= m < |init| && init[m].key == (l.sourceName, l.targetName) && init[m].count == l.value;
          assert init[m] == trans[m];
        }
        DistinctLinksSnoc(LinksOf(nodes, init), link);
      }
    }
  }

  /** The links carry no more weight than the transitions. */
  lemma {:induction false} LinksWeight(nodes: seq<string>, trans: Counters.Table<(string, string)>)
    ensures LinkTotal(LinksOf(nodes, trans)) <= Counters.Total(trans)
  {
    if trans != [] {
      var init := trans[..|trans| - 1];
      LinksWeight(nodes, init);
      var r := LinksOf(nodes, trans);
      if r != LinksOf(nodes, init) {
        assert r[..|r| - 1] == LinksOf(nodes, init);
      }
    }
  }

  /** The loop of lines 159-172. */
  method ForwardLinks(nodes: seq<string>, trans: Counters.Table<(string, string)>) returns (links: seq<Link>)
    ensures links == LinksOf(nodes, trans)
  {
    var index := IndexMap(nodes);
    links := [];
    var k := 0;
    while k < |trans|
      invariant 0 <= k <= |trans|
      invariant links == LinksOf(nodes, trans[..k])
    {
      assert trans[..k + 1][..k] == trans[..k];
      var e := trans[k];
      if e.key.0 in index && e.key.1 in index && index[e.key.0] < index[e.key.1] {
        links := links + [Link(index[e.key.0], index[e.key.1], e.count, e.key.0, e.key.1)];
      }
      k := k + 1;
    }
    assert trans[..k] == trans;
  }

  /**
   * What `build_enhanced_sankey_data` returns for `t`: every step once as a
   * node, in order of mean position; each link a transition of `t` going
   * forward in that order, under its nodes' names and weighted by its count;
   * a link for every such forward transition, and no pair linked twice.
   */
  ghost predicate IsSankey(t: PathTable, nodes: seq<string>, links: seq<Link>)
  {
    (t == [] ==> nodes == [] && links == [])
    && DistinctSteps(nodes) && StepSetOf(nodes) == AllSteps(t)
    && (forall i, j :: 0 <= i < j < |nodes| ==> PositionLe(Mean(t, nodes[i]), Mean(t, nodes[j])))
    && (forall l :: l in links ==>
          l.source < l.target < |nodes| && nodes[l.source] == l.sourceName && nodes[l.target] == l.targetName
          && (l.sourceName, l.targetName) in PairSet(t) && l.value == PairCount(t, (l.sourceName, l.targetName)))
    && (forall i, j :: 0 <= i < j < |nodes| && (nodes[i], nodes[j]) in PairSet(t) ==>
          exists l :: l in links && l.source == i && l.target == j)
    && DistinctLinks(links)
    && LinkTotal(links) <= TransitionCapacity(t)
  }

  /**
   * `build_enhanced_sankey_data`: the distinct steps as nodes ordered by
   * mean position, and one link per transition that goes forward in that
   * order, weighted by the transition's count.
   */
  method BuildSankey(t: PathTable) returns (nodes: seq<string>, links: seq<Link>)
    ensures IsSankey(t, nodes, links)
  {
    if t == [] {
      return [], [];
    }
    var seen, trans := CollectSteps(t);
    if seen == [] {
      return [], [];
    }
    nodes := SankeyNodes(t, seen);
    links := ForwardLinks(nodes, trans);
    LinksDistinct(nodes, trans);
    LinksWeight(nodes, trans);
    forall l | l in links
      ensures l.source < l.target < |nodes| && nodes[l.source] == l.sourceName && nodes[l.target] == l.targetName
      ensures (l.sourceName, l.targetName) in PairSet(t) && l.value == PairCount(t, (l.sourceName, l.targetName))
    {
      LinksSound(nodes, trans, l);
      var m :| 0 <= m < |trans| && trans[m].key == (l.sourceName, l.targetName) && trans[m].count == l.value;
      Counters.CountOfEntry(trans, m);
      assert trans[m] in trans;
    }
    forall i, j | 0 <= i < j < |nodes| && (nodes[i], nodes[j]) in PairSet(t)
      ensures exists l :: l in links && l.source == i && l.target == j
    {
      var e :| e in trans && e.key == (nodes[i], nodes[j]);
      var m :| 0 <= m < |trans| && trans[m] == e;
      LinksCover(nodes, trans, m, i, j);
    }
  }
}
