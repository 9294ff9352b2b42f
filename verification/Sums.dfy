/** Sums over finitely many threads, used as termination measures. */
module Sums {
  ghost function Sum<T>(weight: T -> nat, s: seq<T>): nat {
    if s == [] then 0 else weight(s[0]) + Sum(weight, s[1..])
  }

  lemma {:induction false} SumUpdate<T>(weight: T -> nat, s: seq<T>, i: nat, v: T)
    requires i < |s|
    ensures Sum(weight, s[i := v]) + weight(s[i]) == Sum(weight, s) + weight(v)
  {
    if i == 0 {
      assert s[i := v][1..] == s[1..];
    } else {
      SumUpdate(weight, s[1..], i - 1, v);
      assert s[i := v][1..] == s[1..][i - 1 := v];
    }
  }

  /** Sums agree if all weights do. */
  lemma {:induction false} SumsAgree<T>(weight: T -> nat, s: seq<T>, t: seq<T>)
    requires |s| == |t| && forall i | 0 <= i < |s| :: weight(s[i]) == weight(t[i])
    ensures Sum(weight, s) == Sum(weight, t)
  {
    if s != [] {
      SumsAgree(weight, s[1..], t[1..]);
    }
  }
}
