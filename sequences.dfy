/** Generic facts about sequences shared by the scraping and filtering modules. */
module Sequences {

  /** No element occurs twice. */
  ghost predicate NoDuplicates<T>(s: seq<T>) {
    forall i, j :: 0 <= i < j < |s| ==> s[i] != s[j]
  }

  lemma AppendAssoc<T>(a: seq<T>, b: seq<T>, c: seq<T>)
    ensures (a + b) + c == a + (b + c)
  {
  }

  lemma AppendEmpty<T>(s: seq<T>)
    ensures [] + s == s && s + [] == s
  {
  }

  /** Unfolding `x` in two steps into three pieces. */
  lemma Chain3<T>(x: seq<T>, a: seq<T>, y: seq<T>, b: seq<T>, z: seq<T>, c: seq<T>)
    requires x == a + y && y == b + z && z == c
    ensures x == a + b + c
  {
    AppendAssoc(a, b, c);
  }

  /**
   * Whenever `f(j)` is `s[j]` followed by `f(j + 1)` for `i <= j < k`, `f(i)`
   * is `s[i..k]` followed by `f(k)`.
   */
  lemma {:induction false} CopiesThrough<T>(f: nat -> seq<T>, s: seq<T>, i: nat, k: nat)
    requires i <= k <= |s|
    requires forall j :: i <= j < k ==> f(j) == [s[j]] + f(j + 1)
    ensures f(i) == s[i..k] + f(k)
    decreases k - i
  {
    if i < k {
      CopiesThrough(f, s, i + 1, k);
      AppendAssoc([s[i]], s[i + 1..k], f(k));
      assert s[i..k] == [s[i]] + s[i + 1..k];
    }
  }

  /** `a` is obtained from `b` by deleting elements, keeping the order of the rest. */
  ghost predicate IsSubsequence<T>(a: seq<T>, b: seq<T>)
    decreases |b|
  {
    if a == [] then true
    else if b == [] then false
    else (a[|a| - 1] == b[|b| - 1] && IsSubsequence(a[..|a| - 1], b[..|b| - 1]))
         || IsSubsequence(a, b[..|b| - 1])
  }

  lemma SubsequenceSnoc<T>(a: seq<T>, b: seq<T>, x: T)
    requires IsSubsequence(a, b)
    ensures IsSubsequence(a + [x], b + [x])
    ensures IsSubsequence(a, b + [x])
  {
    assert (a + [x])[..|a|] == a;
    assert (b + [x])[..|b|] == b;
  }

  lemma {:induction false} SubsequenceReflexive<T>(a: seq<T>)
    ensures IsSubsequence(a, a)
    decreases |a|
  {
    if a != [] {
      SubsequenceReflexive(a[..|a| - 1]);
    }
  }

  /** `s` ends with `suffix`. */
  predicate EndsWith(s: string, suffix: string) {
    |suffix| <= |s| && s[|s| - |suffix|..] == suffix
  }

  /** `w` occurs somewhere in `s` (Python's `w in s` on strings). */
  predicate IsSubstring(w: string, s: string) {
    exists i :: 0 <= i <= |s| && w <= s[i..]
  }

  /** The index of the first occurrence of `x` (Python's `list.index`). */
  function IndexOf<T(==)>(s: seq<T>, x: T): (k: nat)
    requires x in s
    ensures k < |s| && s[k] == x && x !in s[..k]
  {
    if s[0] == x then 0 else
    assert s == [s[0]] + s[1..];
    1 + IndexOf(s[1..], x)
  }

  /** `s` without the element at index `k` (Python's `list.pop(k)`, without the value). */
  function RemoveAt<T>(s: seq<T>, k: nat): (r: seq<T>)
    requires k < |s|
    ensures |r| == |s| - 1
    ensures forall i :: 0 <= i < k ==> r[i] == s[i]
    ensures forall i :: k <= i < |r| ==> r[i] == s[i + 1]
  {
    s[..k] + s[k + 1..]
  }

  /** `s` with `x` placed at index `k` (Python's `list.insert(k, x)` for `k <= len(s)`). */
  function InsertAt<T>(s: seq<T>, k: nat, x: T): (r: seq<T>)
    requires k <= |s|
    ensures |r| == |s| + 1 && r[k] == x
    ensures RemoveAt(r, k) == s
  {
    var r := s[..k] + [x] + s[k..];
    assert RemoveAt(r, k) == s;
    r
  }
}
