/** What texts cost one by one, and what a range of them costs together. */
module Sums {

  function CostsOf(texts: seq<string>, count: string -> nat): (r: seq<nat>)
    ensures |r| == |texts| && forall k :: 0 <= k < |r| ==> r[k] == count(texts[k])
  {
    seq(|texts|, k requires 0 <= k < |texts| => count(texts[k]))
  }

  function Sum(costs: seq<nat>, from: nat, past: nat): nat
    requires from <= past <= |costs|
    decreases past - from
  {
    if from == past then 0 else costs[from] + Sum(costs, from + 1, past)
  }

  lemma {:induction false} SumLast(costs: seq<nat>, from: nat, past: nat)
    requires from < past <= |costs|
    ensures Sum(costs, from, past) == Sum(costs, from, past - 1) + costs[past - 1]
    decreases past - from
  {
    if from + 1 < past {
      SumLast(costs, from + 1, past);
    }
  }
}
