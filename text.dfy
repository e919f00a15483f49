/** Option, for values the source represents by None. */
module Wrappers {
  datatype Option<+T> = None | Some(value: T)
}

/**
 * String helpers with Python's meaning: `in`, `str.replace`, the pieces of
 * `str.split`/`str.rsplit` that the program uses, `str.strip`, slicing, and
 * ASCII-only `str.lower`/`str.upper`/`str.title`.
 */
module Text {
  import Wrappers

  /** Python's `sub in s`: `sub` occurs somewhere in `s`. */
  predicate Contains(s: string, sub: string)
    decreases |s|
  {
    sub <= s || (|s| > 0 && Contains(s[1..], sub))
  }

  /** An occurrence at a fixed offset is an occurrence. */
  lemma {:induction false} ContainsAt(s: string, sub: string, i: nat)
    requires i + |sub| <= |s| && s[i..i + |sub|] == sub
    ensures Contains(s, sub)
    decreases i
  {
    if i > 0 {
      assert s[1..][i - 1..i - 1 + |sub|] == s[i..i + |sub|];
      ContainsAt(s[1..], sub, i - 1);
    } else {
      assert sub <= s;
    }
  }

  /** An occurrence lies at some offset. */
  lemma {:induction false} ContainsOffset(s: string, sub: string) returns (i: nat)
    requires Contains(s, sub)
    ensures i + |sub| <= |s| && s[i..i + |sub|] == sub
    decreases |s|
  {
    if sub <= s {
      i := 0;
    } else {
      var j := ContainsOffset(s[1..], sub);
      assert s[1..][j..j + |sub|] == s[j + 1..j + 1 + |sub|];
      i := j + 1;
    }
  }

  /** A one-character substring is a member character. */
  lemma ContainsChar(s: string, c: char)
    ensures Contains(s, [c]) <==> c in s
  {
    if Contains(s, [c]) {
      var i := ContainsOffset(s, [c]);
      assert s[i] == c;
    }
    if c in s {
      var i :| 0 <= i < |s| && s[i] == c;
      assert s[i..i + 1] == [c];
      ContainsAt(s, [c], i);
    }
  }

  /** A text holding `sub` holds its first character. */
  lemma ContainsFirst(s: string, sub: string)
    ensures sub != [] && Contains(s, sub) ==> sub[0] in s
  {
    if sub != [] && Contains(s, sub) {
      var i := ContainsOffset(s, sub);
      assert s[i] == sub[0];
    }
  }

  /** An occurrence in a suffix (or a prefix) of `t` is an occurrence in `t`. */
  lemma ContainsInSlice(t: string, lo: nat, hi: nat, sub: string)
    requires lo <= hi <= |t| && Contains(t[lo..hi], sub)
    ensures Contains(t, sub)
  {
    var i := ContainsOffset(t[lo..hi], sub);
    forall k | 0 <= k < |sub| ensures t[lo + i + k] == sub[k] {
      assert t[lo..hi][i + k] == t[lo + i + k];
    }
    assert t[lo + i..lo + i + |sub|] == sub;
    ContainsAt(t, sub, lo + i);
  }

  /**
   * Python's `s.replace(pat, rep)` for a non-empty pattern: occurrences are
   * replaced from left to right, without overlap, all of them.
   */
  function ReplaceAll(s: string, pat: string, rep: string): string
    requires |pat| > 0
    decreases |s|
  {
    if |s| == 0 then ""
    else if pat <= s then rep + ReplaceAll(s[|pat|..], pat, rep)
    else [s[0]] + ReplaceAll(s[1..], pat, rep)
  }

  /** Replacing a pattern that does not occur changes nothing. */
  lemma {:induction false} ReplaceAbsent(s: string, pat: string, rep: string)
    requires |pat| > 0 && !Contains(s, pat)
    ensures ReplaceAll(s, pat, rep) == s
    decreases |s|
  {
    if |s| > 0 {
      ReplaceAbsent(s[1..], pat, rep);
    }
  }

  /** Every character of the result comes from the input or the replacement. */
  lemma {:induction false} ReplaceChars(s: string, pat: string, rep: string, c: char)
    requires |pat| > 0 && c in ReplaceAll(s, pat, rep)
    ensures c in s || c in rep
    decreases |s|
  {
    if |s| > 0 {
      var r := ReplaceAll(s, pat, rep);
      if pat <= s {
        if c !in rep {
          assert r == rep + ReplaceAll(s[|pat|..], pat, rep);
          assert c in ReplaceAll(s[|pat|..], pat, rep);
          ReplaceChars(s[|pat|..], pat, rep, c);
        }
      } else if c != s[0] {
        assert r == [s[0]] + ReplaceAll(s[1..], pat, rep);
        assert c in ReplaceAll(s[1..], pat, rep);
        ReplaceChars(s[1..], pat, rep, c);
      }
    }
  }

  /** Replacing a single character by text without it removes it entirely. */
  lemma {:induction false} ReplaceCharGone(s: string, c: char, rep: string)
    requires c !in rep
    ensures c !in ReplaceAll(s, [c], rep)
    decreases |s|
  {
    if |s| > 0 {
      var r := ReplaceAll(s, [c], rep);
      ReplaceCharGone(s[1..], c, rep);
      if [c] <= s {
        assert r == rep + ReplaceAll(s[1..], [c], rep);
      } else {
        assert r == [s[0]] + ReplaceAll(s[1..], [c], rep);
      }
    }
  }

  /** Deleting occurrences never makes a string longer. */
  lemma {:induction false} RemoveShrinks(s: string, pat: string)
    requires |pat| > 0
    ensures |ReplaceAll(s, pat, "")| <= |s|
    decreases |s|
  {
    if |s| > 0 {
      if pat <= s {
        RemoveShrinks(s[|pat|..], pat);
      } else {
        RemoveShrinks(s[1..], pat);
      }
    }
  }

  /** Python's `s.split(c)[0]`: the text before the first `c`. */
  function BeforeFirst(s: string, c: char): (r: string)
    ensures r <= s && c !in r
    ensures c in s ==> |r| < |s| && s[|r|] == c
    ensures c !in s ==> r == s
  {
    if s == [] then []
    else if s[0] == c then []
    else [s[0]] + BeforeFirst(s[1..], c)
  }

  /** Python's `s.split(c)[-1]`: the text after the last `c`. */
  function AfterLast(s: string, c: char): (r: string)
    ensures |r| <= |s| && s[|s| - |r|..] == r && c !in r
    ensures c in s ==> |r| < |s| && s[|s| - |r| - 1] == c
    ensures c !in s ==> r == s
  {
    if s == [] then []
    else if s[|s| - 1] == c then []
    else AfterLast(s[..|s| - 1], c) + [s[|s| - 1]]
  }

  /** Python's `s.rsplit(c, 1)[0]` when `c` occurs: the text before the last `c`. */
  function BeforeLast(s: string, c: char): (r: string)
    requires c in s
    ensures s == r + [c] + AfterLast(s, c)
  {
    s[..|s| - |AfterLast(s, c)| - 1]
  }

  /** Python's `s[:n]` for `n >= 0`. */
  function Prefix(s: string, n: nat): (r: string)
    ensures r <= s && |r| == if |s| < n then |s| else n
  {
    if |s| <= n then s else s[..n]
  }

  /** The characters Python's `str.isspace` accepts. */
  predicate IsSpace(c: char)
  {
    c == ' ' || ('\t' <= c <= '\r') || ('\U{1C}' <= c <= '\U{1F}') || c == '\U{85}' || c == '\U{A0}'
    || c == '\U{1680}' || ('\U{2000}' <= c <= '\U{200A}') || c == '\U{2028}' || c == '\U{2029}'
    || c == '\U{202F}' || c == '\U{205F}' || c == '\U{3000}'
  }

  function StripLeft(s: string): (r: string)
    ensures |r| <= |s| && r == s[|s| - |r|..]
    ensures r == [] || !IsSpace(r[0])
    ensures forall i :: 0 <= i < |s| - |r| ==> IsSpace(s[i])
  {
    if s != [] && IsSpace(s[0]) then StripLeft(s[1..]) else s
  }

  function StripRight(s: string): (r: string)
    ensures r <= s
    ensures r == [] || !IsSpace(r[|r| - 1])
    ensures forall i :: |r| <= i < |s| ==> IsSpace(s[i])
  {
    if s != [] && IsSpace(s[|s| - 1]) then StripRight(s[..|s| - 1]) else s
  }

  /** Python's `s.strip()`. */
  function Strip(s: string): string
  {
    StripRight(StripLeft(s))
  }

  /** `not s or len(s.strip()) == 0`: the string has no non-space character. */
  predicate IsBlank(s: string)
  {
    Strip(s) == []
  }

  lemma BlankIffAllSpace(s: string)
    ensures IsBlank(s) <==> forall i :: 0 <= i < |s| ==> IsSpace(s[i])
  {
    var l := StripLeft(s);
    if !IsBlank(s) {
      var r := StripRight(l);
      assert r[0] == l[0] && !IsSpace(l[0]);
      assert s[|s| - |l|] == l[0];
    }
  }

  function LowerChar(c: char): char
  {
    if 'A' <= c <= 'Z' then (c as int + 32) as char else c
  }

  function UpperChar(c: char): char
  {
    if 'a' <= c <= 'z' then (c as int - 32) as char else c
  }

  predicate IsCased(c: char)
  {
    'A' <= c <= 'Z' || 'a' <= c <= 'z'
  }

  /** `s.lower()` on ASCII letters; every other character is left as it is. */
  function Lower(s: string): (r: string)
    ensures |r| == |s| && forall i :: 0 <= i < |s| ==> r[i] == LowerChar(s[i])
  {
    seq(|s|, i requires 0 <= i < |s| => LowerChar(s[i]))
  }

  /**
   * `s.title()` on ASCII letters: a letter that follows a letter is lowered,
   * any other letter is raised; other characters are kept.
   */
  function TitleFrom(s: string, afterCased: bool): (r: string)
    ensures |r| == |s|
    ensures forall i :: 0 <= i < |s| ==> (IsCased(r[i]) <==> IsCased(s[i]))
    ensures forall i :: 0 <= i < |s| && !IsCased(s[i]) ==> r[i] == s[i]
  {
    if s == [] then []
    else
      var c := s[0];
      [if !IsCased(c) then c else if afterCased then LowerChar(c) else UpperChar(c)]
        + TitleFrom(s[1..], IsCased(c))
  }

  function Title(s: string): (r: string)
    ensures |r| == |s|
  {
    TitleFrom(s, false)
  }

  /** Title-casing neither adds nor removes a character that has no case. */
  lemma TitleKeepsUncased(s: string, c: char)
    requires !IsCased(c)
    ensures c in Title(s) <==> c in s
  {
    var r := Title(s);
    if c in r {
      var i :| 0 <= i < |r| && r[i] == c;
      assert s[i] == c;
    }
    if c in s {
      var i :| 0 <= i < |s| && s[i] == c;
      assert r[i] == c;
    }
  }

  /** Python's `a < b` on strings: code-point lexicographic order. */
  predicate StrLt(a: string, b: string)
    decreases |a|
  {
    b != [] && (a == [] || a[0] < b[0] || (a[0] == b[0] && StrLt(a[1..], b[1..])))
  }

  /** Any two strings are equal or ordered one way. */
  lemma {:induction false} StrLtTrichotomy(a: string, b: string)
    ensures StrLt(a, b) || a == b || StrLt(b, a)
    decreases |a|
  {
    if a != [] && b != [] && a[0] == b[0] {
      StrLtTrichotomy(a[1..], b[1..]);
      if a[1..] == b[1..] {
        assert a == [a[0]] + a[1..] && b == [b[0]] + b[1..];
      }
    }
  }

  lemma {:induction false} StrLtTrans(a: string, b: string, c: string)
    requires StrLt(a, b) && StrLt(b, c)
    ensures StrLt(a, c)
    decreases |a|
  {
    if a != [] && a[0] == b[0] && b[0] == c[0] {
      StrLtTrans(a[1..], b[1..], c[1..]);
    }
  }

  lemma {:induction false} StrLtAsymmetric(a: string, b: string)
    ensures !(StrLt(a, b) && StrLt(b, a))
    decreases |a|
  {
    if a != [] && b != [] && a[0] == b[0] {
      StrLtAsymmetric(a[1..], b[1..]);
    }
  }

  /**
   * The position of the first row of `table` whose key occurs in `s`: the
   * lookup loops of the program return at the first such row.
   */
  function FirstMatch<V>(table: seq<(string, V)>, s: string): (r: Wrappers.Option<nat>)
    ensures r.Some? ==> r.value < |table| && Contains(s, table[r.value].0)
    ensures r.Some? ==> forall j :: 0 <= j < r.value ==> !Contains(s, table[j].0)
    ensures r.None? ==> forall j :: 0 <= j < |table| ==> !Contains(s, table[j].0)
  {
    if table == [] then Wrappers.None
    else if Contains(s, table[0].0) then Wrappers.Some(0)
    else match FirstMatch(table[1..], s)
      case None => Wrappers.None
      case Some(k) => Wrappers.Some(k + 1)
  }

  /** The first match is the first entry whose key occurs, and there is none when no key occurs. */
  lemma FirstMatchIs<V>(table: seq<(string, V)>, s: string, i: nat)
    requires i <= |table|
    requires forall j :: 0 <= j < i ==> !Contains(s, table[j].0)
    requires i < |table| ==> Contains(s, table[i].0)
    ensures FirstMatch(table, s) == if i < |table| then Wrappers.Some(i) else Wrappers.None
  {
    var r := FirstMatch(table, s);
    if r.Some? {
      assert r.value >= i;
    }
  }

  /** Python's `s.split(c)`: the pieces between the occurrences of `c`. */
  function SplitOn(s: string, c: char): (r: seq<string>)
    ensures |r| >= 1
    ensures forall i :: 0 <= i < |r| ==> c !in r[i]
    decreases |s|
  {
    var head := BeforeFirst(s, c);
    if c !in s then [s]
    else [head] + SplitOn(s[|head| + 1..], c)
  }

  /** `c.join(pieces)`. */
  function JoinOn(pieces: seq<string>, c: char): string
  {
    if pieces == [] then "" else if |pieces| == 1 then pieces[0] else pieces[0] + [c] + JoinOn(pieces[1..], c)
  }

  /** Joining the pieces with the separator gives the text back. */
  lemma {:induction false} SplitOnJoin(s: string, c: char)
    ensures JoinOn(SplitOn(s, c), c) == s
    decreases |s|
  {
    if c in s {
      var head := BeforeFirst(s, c);
      var rest := s[|head| + 1..];
      var pieces := SplitOn(rest, c);
      SplitOnJoin(rest, c);
      assert SplitOn(s, c) == [head] + pieces;
      assert ([head] + pieces)[1..] == pieces;
      assert JoinOn([head] + pieces, c) == head + [c] + JoinOn(pieces, c);
      assert s == head + [c] + rest;
    }
  }
}
