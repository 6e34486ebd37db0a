/**
 * The few JavaScript string primitives the quiz components rely on, stated on
 * `seq<char>`: the whitespace class shared by `\s` and `String.prototype.trim`,
 * `trim`, and a first-occurrence search (`indexOf`).
 */
module JsStrings {
  import opened Wrappers

  /** JavaScript's WhiteSpace and LineTerminator code points: the characters
      matched by `\s` and removed by `trim()`. */
  predicate IsWhiteSpace(c: char) {
    var n := c as int;
    n == 0x09 || n == 0x0A || n == 0x0B || n == 0x0C || n == 0x0D || n == 0x20 ||
    n == 0xA0 || n == 0x1680 || (0x2000 <= n <= 0x200A) || n == 0x2028 || n == 0x2029 ||
    n == 0x202F || n == 0x205F || n == 0x3000 || n == 0xFEFF
  }

  /** `s.trim() === ""` */
  predicate IsBlank(s: string) {
    forall i :: 0 <= i < |s| ==> IsWhiteSpace(s[i])
  }

  /** Neither end of `s` is whitespace: `s.trim() === s`. */
  predicate IsTrimmed(s: string) {
    s == [] || (!IsWhiteSpace(s[0]) && !IsWhiteSpace(s[|s| - 1]))
  }

  /** The end of the run of whitespace that starts at `i` (what a greedy `\s*` consumes). */
  function WhiteSpaceRunEnd(s: string, i: nat): (k: nat)
    requires i <= |s|
    ensures i <= k <= |s|
    ensures forall j :: i <= j < k ==> IsWhiteSpace(s[j])
    ensures k == |s| || !IsWhiteSpace(s[k])
    decreases |s| - i
  {
    if i < |s| && IsWhiteSpace(s[i]) then WhiteSpaceRunEnd(s, i + 1) else i
  }

  /** The start of the run of whitespace that ends at `k`: scanning back from `k`
      over whitespace. */
  function WhiteSpaceRunStart(s: string, k: nat): (i: nat)
    requires k <= |s|
    ensures i <= k
    ensures forall j :: i <= j < k ==> IsWhiteSpace(s[j])
    ensures i == 0 || !IsWhiteSpace(s[i - 1])
  {
    if 0 < k && IsWhiteSpace(s[k - 1]) then WhiteSpaceRunStart(s, k - 1) else k
  }

  /** `String.prototype.trim`: the part of `s` between its leading and its
      trailing whitespace. */
  function Trim(s: string): (r: string)
    ensures |r| <= |s|
    ensures IsTrimmed(r)
    ensures r == [] <==> IsBlank(s)
  {
    var a := WhiteSpaceRunEnd(s, 0);
    if a == |s| then [] else s[a..WhiteSpaceRunStart(s, |s|)]
  }

  /** What `trim` removes is exactly the whitespace at both ends: the result is the
      slice of `s` between a whitespace-only prefix and a whitespace-only suffix. */
  lemma TrimIsSlice(s: string) returns (a: nat)
    ensures a + |Trim(s)| <= |s| && Trim(s) == s[a..a + |Trim(s)|]
    ensures forall i :: 0 <= i < a ==> IsWhiteSpace(s[i])
    ensures forall i :: a + |Trim(s)| <= i < |s| ==> IsWhiteSpace(s[i])
  {
    a := WhiteSpaceRunEnd(s, 0);
  }

  /** The run of whitespace from `i` ends at the first non-whitespace position. */
  lemma RunEndUnique(s: string, i: nat, x: nat)
    requires i <= x <= |s|
    requires forall j :: i <= j < x ==> IsWhiteSpace(s[j])
    requires x == |s| || !IsWhiteSpace(s[x])
    ensures WhiteSpaceRunEnd(s, i) == x
  {
  }

  /** The run of whitespace back from `k` starts just after the last
      non-whitespace position. */
  lemma RunStartUnique(s: string, k: nat, x: nat)
    requires x <= k <= |s|
    requires forall j :: x <= j < k ==> IsWhiteSpace(s[j])
    requires x == 0 || !IsWhiteSpace(s[x - 1])
    ensures WhiteSpaceRunStart(s, k) == x
  {
  }

  /** A run of whitespace from `i` that reaches `k` ends where the run from `k`
      ends. */
  lemma {:induction false} RunEndSkip(s: string, i: nat, k: nat)
    requires i <= k <= |s| && forall j :: i <= j < k ==> IsWhiteSpace(s[j])
    ensures WhiteSpaceRunEnd(s, i) == WhiteSpaceRunEnd(s, k)
    decreases k - i
  {
    if i < k {
      RunEndSkip(s, i + 1, k);
    }
  }

  /** The run from `m` in `s[k..]` is the run from `k + m` in `s`, shifted. */
  lemma {:induction false} RunEndOfSuffix(s: string, k: nat, m: nat)
    requires k + m <= |s|
    ensures WhiteSpaceRunEnd(s, k + m) == k + WhiteSpaceRunEnd(s[k..], m)
    decreases |s| - k - m
  {
    if k + m < |s| {
      assert s[k..][m] == s[k + m];
      if IsWhiteSpace(s[k + m]) {
        RunEndOfSuffix(s, k, m + 1);
      }
    }
  }

  /** Behind a whitespace prefix of length `k`, the leading run of `s` ends `k`
      further on than that of `s[k..]`. */
  lemma RunEndShift(s: string, k: nat)
    requires k <= |s| && forall j :: 0 <= j < k ==> IsWhiteSpace(s[j])
    ensures WhiteSpaceRunEnd(s, 0) == k + WhiteSpaceRunEnd(s[k..], 0)
  {
    RunEndSkip(s, 0, k);
    RunEndOfSuffix(s, k, 0);
  }

  /** When `s[k..]` is not all whitespace, the trailing run of `s` starts `k`
      further on than that of `s[k..]`. */
  lemma RunStartShift(s: string, k: nat)
    requires k <= |s| && WhiteSpaceRunEnd(s[k..], 0) < |s| - k
    ensures WhiteSpaceRunStart(s, |s|) == k + WhiteSpaceRunStart(s[k..], |s| - k)
  {
    var t := s[k..];
    var e := WhiteSpaceRunStart(t, |t|);
    forall j | k + e <= j < |s| ensures IsWhiteSpace(s[j]) {
      assert s[j] == t[j - k];
    }
    assert s[k + e - 1] == t[e - 1];
    RunStartUnique(s, |s|, k + e);
  }

  /** Dropping leading whitespace before trimming changes nothing: a greedy `\s*`
      in front of a trimmed capture is invisible. */
  lemma TrimAfterSpace(s: string, k: nat)
    requires k <= |s| && forall j :: 0 <= j < k ==> IsWhiteSpace(s[j])
    ensures Trim(s[k..]) == Trim(s)
  {
    var t := s[k..];
    var w := WhiteSpaceRunEnd(t, 0);
    RunEndShift(s, k);
    if w == |t| {
      assert Trim(t) == [] == Trim(s);
    } else {
      var e := WhiteSpaceRunStart(t, |t|);
      RunStartShift(s, k);
      SliceOfSuffix(s, k, w, e);
      assert Trim(t) == t[w..e];
      assert Trim(s) == s[k + w..k + e];
    }
  }

  /** A slice of the suffix `s[k..]` is a slice of `s`, shifted by `k`. */
  lemma SliceOfSuffix(s: string, k: nat, x: nat, y: nat)
    requires x <= y && k + y <= |s|
    ensures s[k..][x..y] == s[k + x..k + y]
  {
    var t := s[k..][x..y];
    forall i | 0 <= i < y - x ensures t[i] == s[k + x + i] {
      assert t[i] == s[k..][x + i];
    }
  }

  /** Trimming what follows a greedy `\s*` from `start` is trimming what follows
      `start`. */
  lemma TrimAfterRun(s: string, start: nat)
    requires start <= |s|
    ensures Trim(s[WhiteSpaceRunEnd(s, start)..]) == Trim(s[start..])
  {
    var rest := s[start..];
    var k := WhiteSpaceRunEnd(s, start);
    var m := k - start;
    assert s[k..] == rest[m..];
    forall j | 0 <= j < m ensures IsWhiteSpace(rest[j]) {
      assert rest[j] == s[start + j];
    }
    TrimAfterSpace(rest, m);
    assert Trim(rest[m..]) == Trim(rest);
  }

  /** Trimming a string that has no whitespace at either end changes nothing. */
  lemma TrimOfTrimmed(s: string)
    requires IsTrimmed(s)
    ensures Trim(s) == s
  {
    assert WhiteSpaceRunEnd(s, 0) == 0;
  }

  /** `pat` occurs in `s` starting at position `i`. */
  predicate OccursAt(s: string, pat: string, i: nat) {
    i + |pat| <= |s| && s[i..i + |pat|] == pat
  }

  /** `s.indexOf(pat, from)`, with `None` for -1: the first occurrence at or after `from`. */
  function IndexOfFrom(s: string, pat: string, from: nat): (r: Option<nat>)
    ensures r.Some? ==> from <= r.value && OccursAt(s, pat, r.value)
    ensures r.Some? ==> forall j :: from <= j < r.value ==> !OccursAt(s, pat, j)
    ensures r.None? ==> forall j :: from <= j ==> !OccursAt(s, pat, j)
    decreases |s| - from
  {
    if from + |pat| > |s| then None
    else if OccursAt(s, pat, from) then Some(from)
    else IndexOfFrom(s, pat, from + 1)
  }
}
