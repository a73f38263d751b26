/** The greedy sampling policy `argmax`: `logits.max(0)`, which returns the first maximal index. */
module Sampling {

  import opened Signal
  import Encoding

  /** Logits scaled by the temperature-like constant `c`. */
  function Scale(v: Vec, c: int): (w: Vec)
    ensures |w| == |v|
  {
    seq(|v|, i requires 0 <= i < |v| => v[i] * c)
  }

  /** The index of the first maximal logit. */
  function ArgMax(v: Vec): (k: nat)
    requires |v| > 0
    ensures k < |v|
    ensures forall j :: 0 <= j < |v| ==> v[j] <= v[k]
    ensures forall j :: 0 <= j < k ==> v[j] < v[k]
    decreases |v|
  {
    if |v| == 1 then 0
    else
      var k := ArgMax(v[..|v| - 1]);
      if v[|v| - 1] > v[k] then |v| - 1 else k
  }

  /** The contract pins the index down: any first maximal index is the one `ArgMax` picks. */
  lemma ArgMaxUnique(v: Vec, k: nat)
    requires k < |v|
    requires forall j :: 0 <= j < |v| ==> v[j] <= v[k]
    requires forall j :: 0 <= j < k ==> v[j] < v[k]
    ensures ArgMax(v) == k
  {
  }

  /** Decoding a one-hot vector with `ArgMax` gives back its class. */
  lemma ArgMaxOneHot(depth: nat, x: nat)
    requires x < depth
    ensures ArgMax(Encoding.OneHotVec(depth, x)) == x
  {
    ArgMaxUnique(Encoding.OneHotVec(depth, x), x);
  }

  /** The greedy choice on a full-width logit vector is always a class the encoder accepts. */
  lemma ArgMaxEncodable(logits: Vec, depth: nat)
    requires |logits| == depth > 0
    ensures Encoding.OneHot(depth, ArgMax(logits)).Ok?
  {
  }
}
