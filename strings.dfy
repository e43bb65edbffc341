/**
 * The few Python string operations the core relies on: `str.replace`,
 * the substring test `sub in s`, and `sep.join(parts)`.
 */
module Strings {

  /**
   * Literal replacement, as Python's `s.replace(pat, rep)` and pandas'
   * `Series.str.replace(pat, rep, regex=False)` do it on one string:
   * occurrences are found leftmost first and do not overlap.
   */
  function ReplaceAll(s: string, pat: string, rep: string): string
    requires |pat| > 0
    decreases |s|
  {
    if |s| < |pat| then s
    else if s[..|pat|] == pat then rep + ReplaceAll(s[|pat|..], pat, rep)
    else [s[0]] + ReplaceAll(s[1..], pat, rep)
  }

  /** How many occurrences of `pat` ReplaceAll rewrites (Python's `s.count(pat)`). */
  function Occurrences(s: string, pat: string): nat
    requires |pat| > 0
    decreases |s|
  {
    if |s| < |pat| then 0
    else if s[..|pat|] == pat then 1 + Occurrences(s[|pat|..], pat)
    else Occurrences(s[1..], pat)
  }

  /** Python's `sub in s`. */
  predicate Contains(s: string, sub: string)
    decreases |s|
  {
    sub <= s || (|s| > 0 && Contains(s[1..], sub))
  }

  /** Python's `sep.join(parts)`. */
  function Join(sep: string, parts: seq<string>): string
    decreases |parts|
  {
    if |parts| == 0 then ""
    else if |parts| == 1 then parts[0]
    else parts[0] + sep + Join(sep, parts[1..])
  }

  /** Every part preceded by the separator: `sep + p1 + sep + p2 + ...`. */
  function Prefixed(sep: string, parts: seq<string>): string
    decreases |parts|
  {
    if parts == [] then "" else sep + parts[0] + Prefixed(sep, parts[1..])
  }

  /** The summed length of the parts. */
  function TotalLength(parts: seq<string>): nat
    decreases |parts|
  {
    if parts == [] then 0 else |parts[0]| + TotalLength(parts[1..])
  }

  /** Each replacement changes the length by |rep| - |pat|; nothing else changes it. */
  lemma {:induction false} ReplaceAllLength(s: string, pat: string, rep: string)
    requires |pat| > 0
    ensures |ReplaceAll(s, pat, rep)| == |s| + Occurrences(s, pat) * (|rep| - |pat|)
    decreases |s|
  {
    if |s| < |pat| {
    } else if s[..|pat|] == pat {
      ReplaceAllLength(s[|pat|..], pat, rep);
      var n := Occurrences(s[|pat|..], pat);
      assert (n + 1) * (|rep| - |pat|) == n * (|rep| - |pat|) + (|rep| - |pat|);
    } else {
      ReplaceAllLength(s[1..], pat, rep);
    }
  }

  /** Replacing one character by one character is a position-wise substitution. */
  lemma {:induction false} ReplaceCharPointwise(s: string, c: char, d: char)
    ensures |ReplaceAll(s, [c], [d])| == |s|
    ensures forall i :: 0 <= i < |s| ==>
      ReplaceAll(s, [c], [d])[i] == if s[i] == c then d else s[i]
    decreases |s|
  {
    if |s| > 0 {
      ReplaceCharPointwise(s[1..], c, d);
      var r := ReplaceAll(s, [c], [d]);
      assert r == [if s[0] == c then d else s[0]] + ReplaceAll(s[1..], [c], [d]);
      forall i | 0 <= i < |s| ensures r[i] == if s[i] == c then d else s[i] {
        if i > 0 {
          assert r[i] == ReplaceAll(s[1..], [c], [d])[i - 1];
        }
      }
    }
  }

  /** A character absent from the input and from the replacement is absent from the result. */
  lemma {:induction false} ReplaceAllKeepsAbsent(s: string, pat: string, rep: string, c: char)
    requires |pat| > 0 && c !in s && c !in rep
    ensures c !in ReplaceAll(s, pat, rep)
    decreases |s|
  {
    if |s| < |pat| {
    } else if s[..|pat|] == pat {
      ReplaceAllKeepsAbsent(s[|pat|..], pat, rep, c);
    } else {
      ReplaceAllKeepsAbsent(s[1..], pat, rep, c);
    }
  }

  /** The first character of a ReplaceAll result is the first of the replacement or of the input. */
  lemma ReplaceAllHead(s: string, pat: string, rep: string)
    requires |pat| > 0 && |rep| > 0 && |s| > 0
    ensures |ReplaceAll(s, pat, rep)| > 0
    ensures ReplaceAll(s, pat, rep)[0] == (if |s| >= |pat| && s[..|pat|] == pat then rep[0] else s[0])
  {
  }

  /**
   * Replacing a two-character pattern by one character that occurs in neither
   * position of the pattern leaves no occurrence of the pattern behind.
   */
  lemma {:induction false} ReplacePairRemovesAll(s: string, pat: string, rep: string)
    requires |pat| == 2 && |rep| == 1 && rep[0] != pat[0] && rep[0] != pat[1]
    ensures !Contains(ReplaceAll(s, pat, rep), pat)
    decreases |s|
  {
    var r := ReplaceAll(s, pat, rep);
    if |s| < |pat| {
      assert |r| < 2;
      if |r| > 0 {
        assert r[1..] == [];
      }
    } else if s[..|pat|] == pat {
      var t := ReplaceAll(s[2..], pat, rep);
      ReplacePairRemovesAll(s[2..], pat, rep);
      assert r == rep + t;
      assert r[1..] == t;
      if |t| > 0 {
        assert !(pat <= r);
      }
    } else {
      var t := ReplaceAll(s[1..], pat, rep);
      ReplacePairRemovesAll(s[1..], pat, rep);
      assert r == [s[0]] + t;
      assert r[1..] == t;
      ReplaceAllHead(s[1..], pat, rep);
    }
  }

  /**
   * If `t` agrees with `s` except where it holds `d`, and `d` does not occur in
   * `sub`, then every occurrence of `sub` in `t` was already one in `s`.
   */
  lemma {:induction false} ContainsPointwise(s: string, t: string, sub: string, d: char)
    requires |s| == |t| && d !in sub
    requires forall i :: 0 <= i < |t| ==> t[i] == s[i] || t[i] == d
    ensures Contains(t, sub) ==> Contains(s, sub)
    decreases |s|
  {
    if sub <= t {
      assert forall i :: 0 <= i < |sub| ==> sub[i] == t[i] == s[i];
      assert sub <= s;
    } else if |t| > 0 {
      ContainsPointwise(s[1..], t[1..], sub, d);
    }
  }

  /**
   * Counting occurrences of `pat` ignores changes at positions where neither
   * string holds a character of `pat`.
   */
  lemma {:induction false} OccurrencesPointwise(s: string, t: string, pat: string)
    requires |pat| > 0 && |s| == |t|
    requires forall i :: 0 <= i < |s| ==> s[i] == t[i] || (s[i] !in pat && t[i] !in pat)
    ensures Occurrences(s, pat) == Occurrences(t, pat)
    decreases |s|
  {
    if |s| >= |pat| {
      var k := |pat|;
      if s[..k] == pat {
        assert forall i :: 0 <= i < k ==> s[i] in pat;
        assert t[..k] == pat;
        OccurrencesPointwise(s[k..], t[k..], pat);
      } else {
        OccurrencesPointwise(s[1..], t[1..], pat);
      }
    }
  }

  /** The joined string is the first part followed by every later part, each preceded by the separator. */
  lemma {:induction false} JoinShape(sep: string, parts: seq<string>)
    requires |parts| > 0
    ensures Join(sep, parts) == parts[0] + Prefixed(sep, parts[1..])
    decreases |parts|
  {
    if |parts| > 1 {
      JoinShape(sep, parts[1..]);
      assert parts[1..][1..] == parts[2..];
    }
  }

  /** Joining adds exactly one separator between consecutive parts. */
  lemma {:induction false} JoinLength(sep: string, parts: seq<string>)
    requires |parts| > 0
    ensures |Join(sep, parts)| == TotalLength(parts) + (|parts| - 1) * |sep|
    decreases |parts|
  {
    if |parts| > 1 {
      JoinLength(sep, parts[1..]);
      var n := |parts| - 2;
      assert (n + 1) * |sep| == n * |sep| + |sep|;
    } else {
      assert parts[1..] == [];
    }
  }
}
