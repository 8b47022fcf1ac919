/** Small notions that several modules share. */
module Basics {
  datatype Option<T> = None | Some(value: T)

  function Min(a: nat, b: nat): nat {
    if a <= b then a else b
  }

  function Pow2(n: nat): (p: nat)
    ensures p >= 1
  {
    if n == 0 then 1 else 2 * Pow2(n - 1)
  }

  // ---- searching a sequence ---------------------------------------------------------------------

  predicate At<T(==)>(s: seq<T>, k: nat, pat: seq<T>) {
    k + |pat| <= |s| && s[k..k + |pat|] == pat
  }

  /** The first place at or after `from`. */
  function Index<T(==)>(s: seq<T>, pat: seq<T>, from: nat): (r: Option<nat>)
    ensures r.Some? ==> from <= r.value && At(s, r.value, pat)
    decreases |s| - from
  {
    if from + |pat| > |s| then None else if At(s, from, pat) then Some(from) else Index(s, pat, from + 1)
  }

  lemma {:induction false} IndexNoEarlier<T>(s: seq<T>, pat: seq<T>, from: nat, k: nat)
    requires from <= k && At(s, k, pat)
    ensures Index(s, pat, from).Some? && Index(s, pat, from).value <= k
    decreases |s| - from
  {
    if !At(s, from, pat) { IndexNoEarlier(s, pat, from + 1, k); }
  }

  /** The first place is settled by it being one and there being none before. */
  lemma {:induction false} IndexIs<T>(s: seq<T>, pat: seq<T>, from: nat, k: nat)
    requires from <= k && At(s, k, pat) && forall i: nat :: from <= i < k ==> !At(s, i, pat)
    ensures Index(s, pat, from) == Some(k)
    decreases k - from
  {
    if from < k { IndexIs(s, pat, from + 1, k); }
  }

  predicate Has<T(==)>(s: seq<T>, pat: seq<T>) {
    Index(s, pat, 0).Some?
  }
}
