/**
 * The canonical string form of a path: its steps joined by `" → "`, and the
 * `str.split` that the views use to recover the steps from a table key.
 */
module PathCodec {

  const Arrow: char := '\U{2192}'

  /** The separator `" → "`. */
  const Separator: string := [' ', Arrow, ' ']

  /** `' → '.join(steps)`. */
  function Join(steps: seq<string>): string
  {
    if steps == [] then ""
    else if |steps| == 1 then steps[0]
    else steps[0] + Separator + Join(steps[1..])
  }

  /** `s.split(' → ')`: pieces between non-overlapping separators, scanned left to right. */
  function Split(s: string): (r: seq<string>)
    ensures |r| >= 1
  {
    SplitFrom(s, [])
  }

  /** Splitting `s` when the piece being read so far is `piece`. */
  function SplitFrom(s: string, piece: string): (r: seq<string>)
    ensures |r| >= 1
    decreases |s|
  {
    if s == [] then [piece]
    else if Separator <= s then [piece] + SplitFrom(s[|Separator|..], [])
    else SplitFrom(s[1..], piece + [s[0]])
  }

  /** No step contains the arrow character. */
  predicate ArrowFree(steps: seq<string>)
  {
    forall i :: 0 <= i < |steps| ==> Arrow !in steps[i]
  }

  /** An arrow-free text cannot hide a separator, unless the text after it begins with an arrow. */
  lemma {:induction false} SplitSkips(t: string, rest: string, piece: string)
    requires Arrow !in t
    requires rest == [] || rest[0] != Arrow
    ensures SplitFrom(t + rest, piece) == SplitFrom(rest, piece + t)
    decreases |t|
  {
    if t != [] {
      var s := t + rest;
      assert s[0] == t[0];
      if |s| >= 2 {
        assert s[1] == if |t| >= 2 then t[1] else rest[0];
        assert !(Separator <= s);
      }
      assert s[1..] == t[1..] + rest;
      SplitSkips(t[1..], rest, piece + [t[0]]);
      assert piece + [t[0]] + t[1..] == piece + t;
    } else {
      assert t + rest == rest;
      assert piece + t == piece;
    }
  }

  /** The split of a join gives the steps back, provided no step contains the arrow. */
  lemma {:induction false} SplitJoin(steps: seq<string>)
    requires |steps| >= 1 && ArrowFree(steps)
    ensures Split(Join(steps)) == steps
    decreases |steps|
  {
    if |steps| == 1 {
      SplitSkips(steps[0], [], []);
      assert steps[0] + [] == steps[0];
    } else {
      var rest := Separator + Join(steps[1..]);
      assert Join(steps) == steps[0] + rest;
      SplitSkips(steps[0], rest, []);
      assert [] + steps[0] == steps[0];
      assert rest[|Separator|..] == Join(steps[1..]);
      assert SplitFrom(rest, steps[0]) == [steps[0]] + SplitFrom(Join(steps[1..]), []);
      SplitJoin(steps[1..]);
      assert steps == [steps[0]] + steps[1..];
    }
  }

  /** Joining arrow-free paths of at least one step is injective. */
  lemma JoinInjective(p: seq<string>, q: seq<string>)
    requires |p| >= 1 && |q| >= 1 && ArrowFree(p) && ArrowFree(q)
    requires Join(p) == Join(q)
    ensures p == q
  {
    SplitJoin(p);
    SplitJoin(q);
  }

  /**
   * Excluding only the whole separator is not enough: two different paths,
   * neither of whose steps contains `" → "`, have the same key.
   */
  lemma SeparatorFreeStepsCanCollide()
    ensures Join(["x " + [Arrow], "y"]) == Join(["x", [Arrow] + " y"])
    ensures ["x " + [Arrow], "y"] != ["x", [Arrow] + " y"]
  {
  }
}
