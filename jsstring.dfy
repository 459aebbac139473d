/** The parts of JavaScript's `String.prototype.indexOf` the plugin relies on. */
module JsString {

  /** True iff `sub` occurs in `s` starting at index `i`. */
  predicate OccursAt(s: string, sub: string, i: int)
  {
    0 <= i && i + |sub| <= |s| && s[i..i + |sub|] == sub
  }

  /**
   * The first occurrence of `sub` at or after `from`, or -1. This is `s.indexOf(sub, from)` for
   * `from <= |s|`; JavaScript clamps a larger `from` to `|s|`, which the plugin never passes.
   */
  function IndexOfFrom(s: string, sub: string, from: nat): (r: int)
    ensures r == -1 || (from <= r && OccursAt(s, sub, r))
    ensures r == -1 ==> forall j :: from <= j ==> !OccursAt(s, sub, j)
    ensures r != -1 ==> forall j :: from <= j < r ==> !OccursAt(s, sub, j)
    decreases |s| - from
  {
    if from + |sub| > |s| then -1
    else if s[from..from + |sub|] == sub then from
    else IndexOfFrom(s, sub, from + 1)
  }

  /** `s.indexOf(sub)`; the empty string is found at index 0. */
  function IndexOf(s: string, sub: string): (r: int)
    ensures r == -1 || 0 <= r <= |s| - |sub|
    ensures r == -1 <==> forall j :: !OccursAt(s, sub, j)
    ensures r != -1 ==> OccursAt(s, sub, r) && forall j :: 0 <= j < r ==> !OccursAt(s, sub, j)
  {
    IndexOfFrom(s, sub, 0)
  }

  /** `s.indexOf(sub) !== -1` */
  predicate Contains(s: string, sub: string)
  {
    IndexOf(s, sub) != -1
  }

  /** Reference notions, defined by slicing rather than by search. */
  predicate IsPrefix(p: string, s: string)
  {
    |p| <= |s| && s[..|p|] == p
  }

  predicate IsSuffix(t: string, s: string)
  {
    |t| <= |s| && s[|s| - |t|..] == t
  }

  predicate IsSubstring(sub: string, s: string)
  {
    exists i :: 0 <= i <= |s| && OccursAt(s, sub, i)
  }

  /** `indexOf` finds something exactly when the needle is a substring. */
  lemma ContainsIsSubstring(s: string, sub: string)
    ensures Contains(s, sub) <==> IsSubstring(sub, s)
  {
    if Contains(s, sub) {
      assert OccursAt(s, sub, IndexOf(s, sub));
    }
  }

  /** `indexOf(...) === 0` is an exact prefix test: the first occurrence is at 0 iff one is. */
  lemma IndexOfZeroIsPrefix(s: string, p: string)
    ensures IndexOf(s, p) == 0 <==> IsPrefix(p, s)
  {
    if IsPrefix(p, s) {
      assert OccursAt(s, p, 0);
    }
  }

  /**
   * `s.indexOf(m) === s.length - m.length` is NOT a suffix test: it holds when `m` is one
   * character longer than `s` (both sides are -1), and otherwise only when `m` is a suffix
   * of `s` that does not occur any earlier.
   */
  predicate AtEndMeaning(s: string, m: string)
  {
    || |m| == |s| + 1
    || (IsSuffix(m, s) && forall j :: 0 <= j < |s| - |m| ==> !OccursAt(s, m, j))
  }

  lemma IndexOfAtEndIff(s: string, m: string)
    ensures IndexOf(s, m) == |s| - |m| <==> AtEndMeaning(s, m)
  {
    var r := IndexOf(s, m);
    if |m| == |s| + 1 {
      assert forall j :: !OccursAt(s, m, j);
    } else if IsSuffix(m, s) && forall j :: 0 <= j < |s| - |m| ==> !OccursAt(s, m, j) {
      assert OccursAt(s, m, |s| - |m|);
    }
  }
}
