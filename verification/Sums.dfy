/** Weighted sums over sequences, used to count threads by phase. */
module Sums {

  function Sum<T>(s: seq<T>, weight: T -> nat): nat {
    if s == [] then 0 else weight(s[0]) + Sum(s[1..], weight)
  }

  lemma {:induction false} SumUpdate<T>(s: seq<T>, weight: T -> nat, i: nat, x: T)
    requires i < |s|
    ensures Sum(s[i := x], weight) + weight(s[i]) == Sum(s, weight) + weight(x)
  {
    if i == 0 {
      assert s[i := x][1..] == s[1..];
    } else {
      assert s[i := x][1..] == s[1..][i - 1 := x];
      SumUpdate(s[1..], weight, i - 1, x);
    }
  }

  lemma {:induction false} SumPositive<T>(s: seq<T>, weight: T -> nat) returns (i: nat)
    requires Sum(s, weight) > 0
    ensures i < |s| && weight(s[i]) > 0
  {
    if weight(s[0]) > 0 { i := 0; } else { i := SumPositive(s[1..], weight); i := i + 1; }
  }

  lemma {:induction false} SumMonotone<T>(s: seq<T>, t: seq<T>, weight: T -> nat)
    requires |s| == |t| && forall i :: 0 <= i < |s| ==> weight(s[i]) <= weight(t[i])
    ensures Sum(s, weight) <= Sum(t, weight)
  {
    if s != [] { SumMonotone(s[1..], t[1..], weight); }
  }
}
