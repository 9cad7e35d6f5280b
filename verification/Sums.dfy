/** Sums of weights over sequences, used to state conservation laws. */
module Sums {

  datatype Option<+T> = None | Some(value: T)

  /** The sum of the weights of all elements. */
  function Total<T>(s: seq<T>, weight: T -> nat): nat {
    if s == [] then 0 else weight(s[0]) + Total(s[1..], weight)
  }

  lemma {:induction false} TotalUpdate<T>(s: seq<T>, i: nat, x: T, weight: T -> nat)
    requires i < |s|
    ensures Total(s[i := x], weight) == Total(s, weight) - weight(s[i]) + weight(x)
  {
    if i == 0 {
      assert s[i := x][1..] == s[1..];
    } else {
      assert s[i := x][1..] == s[1..][i - 1 := x];
      TotalUpdate(s[1..], i - 1, x, weight);
    }
  }

  /** Two distinct elements never weigh more than the total. */
  lemma {:induction false} TotalCovers<T>(s: seq<T>, i: nat, j: nat, weight: T -> nat)
    requires i < |s| && j < |s|
    ensures weight(s[i]) <= Total(s, weight)
    ensures i != j ==> weight(s[i]) + weight(s[j]) <= Total(s, weight)
  {
    if i == 0 || j == 0 {
      if i != 0 {
        TotalCovers(s[1..], i - 1, i - 1, weight);
      } else if j != 0 {
        TotalCovers(s[1..], j - 1, j - 1, weight);
      }
    } else {
      TotalCovers(s[1..], i - 1, j - 1, weight);
    }
  }

  lemma {:induction false} TotalZero<T>(s: seq<T>, weight: T -> nat)
    ensures Total(s, weight) == 0 <==> forall i :: 0 <= i < |s| ==> weight(s[i]) == 0
  {
    if s != [] {
      TotalZero(s[1..], weight);
      assert forall i :: 0 <= i < |s[1..]| ==> s[1..][i] == s[i + 1];
      if forall i :: 0 <= i < |s[1..]| ==> weight(s[1..][i]) == 0 {
        if weight(s[0]) == 0 {
          forall i | 0 <= i < |s| ensures weight(s[i]) == 0 {
            if i > 0 {
              assert s[i] == s[1..][i - 1];
            }
          }
        }
      } else {
        var i :| 0 <= i < |s[1..]| && weight(s[1..][i]) != 0;
        assert weight(s[i + 1]) != 0;
      }
    }
  }
}
