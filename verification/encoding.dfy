/** The one-hot encoder `One_Hot`: row `x` of the `depth`-by-`depth` identity matrix. */
module Encoding {

  import opened Results
  import opened Signal

  /** Row `x` of the identity matrix of size `depth`. */
  function OneHotVec(depth: nat, x: nat): (v: Vec)
    requires x < depth
  {
    seq(depth, i => if i == x then 1 else 0)
  }

  /** Entry sum of a vector. */
  function Sum(v: Vec): (total: int)
  {
    if |v| == 0 then 0 else Sum(v[..|v| - 1]) + v[|v| - 1]
  }

  /** `One_Hot.forward` on one class index: `index_select` fails for an index outside the table. */
  function OneHot(depth: nat, x: int): (r: Result<Vec>)
    ensures r.Ok? <==> 0 <= x < depth
    ensures r.Ok? ==> |r.value| == depth && r.value[x] == 1
    ensures r.Ok? ==> forall i :: 0 <= i < depth && i != x ==> r.value[i] == 0
  {
    if 0 <= x < depth then Ok(OneHotVec(depth, x)) else Err(IndexOutOfRange)
  }

  /** `One_Hot.forward` on a whole sequence of class indices: the time axis keeps its length and
      each step gains a trailing axis of `depth` channels; one bad index fails the whole call. */
  function OneHotSeq(depth: nat, xs: seq<int>): (r: Result<seq<Vec>>)
    ensures r.Ok? <==> forall t :: 0 <= t < |xs| ==> 0 <= xs[t] < depth
    ensures r.Ok? ==> |r.value| == |xs|
    ensures r.Ok? ==> forall t :: 0 <= t < |xs| ==> |r.value[t]| == depth && r.value[t] == OneHot(depth, xs[t]).value
  {
    if forall t :: 0 <= t < |xs| ==> 0 <= xs[t] < depth
    then Ok(seq(|xs|, t requires 0 <= t < |xs| => OneHotVec(depth, xs[t])))
    else Err(IndexOutOfRange)
  }

  lemma {:induction false} SumZeros(v: Vec)
    requires forall i :: 0 <= i < |v| ==> v[i] == 0
    ensures Sum(v) == 0
    decreases |v|
  {
    if |v| > 0 {
      SumZeros(v[..|v| - 1]);
    }
  }

  /** A one-hot vector sums to exactly 1. */
  lemma {:induction false} OneHotSumsToOne(depth: nat, x: nat)
    requires x < depth
    ensures Sum(OneHotVec(depth, x)) == 1
  {
    var v := OneHotVec(depth, x);
    SumSplitAtOne(v, x);
  }

  lemma {:induction false} SumSplitAtOne(v: Vec, x: nat)
    requires x < |v| && v[x] == 1
    requires forall i :: 0 <= i < |v| && i != x ==> v[i] == 0
    ensures Sum(v) == 1
    decreases |v|
  {
    var n := |v| - 1;
    if x == n {
      SumZeros(v[..n]);
    } else {
      SumSplitAtOne(v[..n], x);
    }
  }

  /** Distinct classes get distinct codes. */
  lemma OneHotInjective(depth: nat, x: nat, y: nat)
    requires x < depth && y < depth && OneHotVec(depth, x) == OneHotVec(depth, y)
    ensures x == y
  {
    assert OneHotVec(depth, x)[x] == 1;
  }

  /** Encoding a prefix gives the prefix of the encoding. */
  lemma OneHotSeqPrefix(depth: nat, xs: seq<int>, k: nat)
    requires k <= |xs| && OneHotSeq(depth, xs).Ok?
    ensures OneHotSeq(depth, xs[..k]) == Ok(OneHotSeq(depth, xs).value[..k])
  {
    var whole := OneHotSeq(depth, xs).value;
    var part := OneHotSeq(depth, xs[..k]);
    assert part.Ok?;
    assert forall t :: 0 <= t < k ==> part.value[t] == whole[t];
    assert part.value == whole[..k];
  }
}
