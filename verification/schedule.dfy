/** The receptive-field schedule of `general_FFTNet.__init__`: the per-layer sizes `N_seq`
    built as suffix (default) or prefix (`transpose`) products of the radix list, and the
    overall receptive field `r_field`. */
module Schedule {

  import Arith

  /** `reduce(mul, s)`; the empty product is 1 (the source raises instead, see `FFTNet.Build`). */
  function Product(s: seq<nat>): (p: nat)
  {
    if |s| == 0 then 1 else s[0] * Product(s[1..])
  }

  /** `N_seq`: entry i is the product of `radixes[i:]`, or of `radixes[:i+1]` when `transpose`. */
  function NSeq(radixes: seq<nat>, transpose: bool): (ns: seq<nat>)
    ensures |ns| == |radixes|
  {
    seq<nat>(|radixes|, i requires 0 <= i < |radixes| =>
      if transpose then Product(radixes[..i + 1]) else Product(radixes[i..]))
  }

  /** Every radix is a genuine branching factor of at least 1. */
  predicate Positive(radixes: seq<nat>)
  {
    forall i :: 0 <= i < |radixes| ==> radixes[i] >= 1
  }

  lemma {:induction false} ProductAppend(a: seq<nat>, b: seq<nat>)
    ensures Product(a + b) == Product(a) * Product(b)
    decreases |a|
  {
    if |a| == 0 {
      assert a + b == b;
    } else {
      assert (a + b)[1..] == a[1..] + b;
      ProductAppend(a[1..], b);
      assert Product(a + b) == a[0] * (Product(a[1..]) * Product(b));
    }
  }

  lemma {:induction false} ProductPositive(s: seq<nat>)
    requires Positive(s)
    ensures Product(s) >= 1
    decreases |s|
  {
    if |s| > 0 {
      ProductPositive(s[1..]);
    }
  }

  /** Splitting the list at `i` splits the product. */
  lemma ProductSplit(s: seq<nat>, i: nat)
    requires i <= |s|
    ensures Product(s) == Product(s[..i]) * Product(s[i..])
  {
    assert s == s[..i] + s[i..];
    ProductAppend(s[..i], s[i..]);
  }

  /** With the default orientation, N_seq runs from the whole receptive field down to the last radix,
      each entry being its radix times the next one. */
  lemma SuffixSchedule(radixes: seq<nat>)
    requires |radixes| > 0
    ensures NSeq(radixes, false)[0] == Product(radixes)
    ensures NSeq(radixes, false)[|radixes| - 1] == radixes[|radixes| - 1]
    ensures forall i, j :: 0 <= i && j == i + 1 < |radixes| ==>
      NSeq(radixes, false)[i] == radixes[i] * NSeq(radixes, false)[j]
  {
    SuffixEnds(radixes);
    SuffixSteps(radixes);
  }

  lemma SuffixEnds(radixes: seq<nat>)
    requires |radixes| > 0
    ensures NSeq(radixes, false)[0] == Product(radixes)
    ensures NSeq(radixes, false)[|radixes| - 1] == radixes[|radixes| - 1]
  {
    assert radixes[0..] == radixes;
    assert radixes[|radixes| - 1..] == [radixes[|radixes| - 1]];
    SingleProduct(radixes[|radixes| - 1]);
  }

  lemma SuffixSteps(radixes: seq<nat>)
    ensures forall i, j :: 0 <= i && j == i + 1 < |radixes| ==>
      NSeq(radixes, false)[i] == radixes[i] * NSeq(radixes, false)[j]
  {
    forall i, j | 0 <= i && j == i + 1 < |radixes|
      ensures NSeq(radixes, false)[i] == radixes[i] * NSeq(radixes, false)[j]
    {
      SuffixStep(radixes, i);
    }
  }

  /** Dropping the first radix of a suffix divides its product by that radix. */
  lemma SuffixStep(radixes: seq<nat>, k: nat)
    requires k < |radixes|
    ensures Product(radixes[k..]) == radixes[k] * Product(radixes[k + 1..])
  {
    assert radixes[k..][1..] == radixes[k + 1..];
  }

  /** With `transpose`, N_seq runs from the first radix up to the whole receptive field,
      each entry being the previous one times its radix. */
  lemma PrefixSchedule(radixes: seq<nat>)
    requires |radixes| > 0
    ensures NSeq(radixes, true)[|radixes| - 1] == Product(radixes)
    ensures NSeq(radixes, true)[0] == radixes[0]
    ensures forall i, j :: 0 <= i && j == i + 1 < |radixes| ==>
      NSeq(radixes, true)[j] == NSeq(radixes, true)[i] * radixes[j]
  {
    PrefixEnds(radixes);
    PrefixSteps(radixes);
  }

  lemma PrefixEnds(radixes: seq<nat>)
    requires |radixes| > 0
    ensures NSeq(radixes, true)[|radixes| - 1] == Product(radixes)
    ensures NSeq(radixes, true)[0] == radixes[0]
  {
    assert radixes[..|radixes|] == radixes;
    assert radixes[..1] == [radixes[0]];
    SingleProduct(radixes[0]);
  }

  lemma PrefixSteps(radixes: seq<nat>)
    ensures forall i, j :: 0 <= i && j == i + 1 < |radixes| ==>
      NSeq(radixes, true)[j] == NSeq(radixes, true)[i] * radixes[j]
  {
    forall i, j | 0 <= i && j == i + 1 < |radixes|
      ensures NSeq(radixes, true)[j] == NSeq(radixes, true)[i] * radixes[j]
    {
      PrefixStep(radixes, j);
    }
  }

  lemma SingleProduct(r: nat)
    ensures Product([r]) == r
  {
    assert [r][1..] == [];
  }

  /** Extending a prefix by one radix multiplies its product by that radix. */
  lemma PrefixStep(radixes: seq<nat>, k: nat)
    requires k < |radixes|
    ensures Product(radixes[..k + 1]) == Product(radixes[..k]) * radixes[k]
  {
    assert radixes[..k + 1] == radixes[..k] + [radixes[k]];
    ProductAppend(radixes[..k], [radixes[k]]);
    SingleProduct(radixes[k]);
  }

  /** Each N_seq entry is a multiple of its own radix, at least that radix, and at most the
      receptive field, in both orientations: so `N // r` is exact and positive and every
      layer's context fits inside `r_field`. */
  lemma ScheduleBounds(radixes: seq<nat>, transpose: bool, i: nat)
    requires Positive(radixes) && i < |radixes|
    ensures NSeq(radixes, transpose)[i] % radixes[i] == 0
    ensures radixes[i] <= NSeq(radixes, transpose)[i] <= Product(radixes)
  {
    if transpose {
      PrefixEntryBounds(radixes, i);
    } else {
      SuffixEntryBounds(radixes, i);
    }
  }

  lemma SuffixEntryBounds(radixes: seq<nat>, i: nat)
    requires Positive(radixes) && i < |radixes|
    ensures Product(radixes[i..]) % radixes[i] == 0
    ensures radixes[i] <= Product(radixes[i..]) <= Product(radixes)
  {
    var pre := Product(radixes[..i]);
    var post := Product(radixes[i + 1..]);
    ProductPositive(radixes[..i]);
    ProductPositive(radixes[i + 1..]);
    SuffixStep(radixes, i);
    ProductSplit(radixes, i);
    Arith.FactorBounds(radixes[i], post, Product(radixes[i..]), pre, Product(radixes));
  }

  lemma PrefixEntryBounds(radixes: seq<nat>, i: nat)
    requires Positive(radixes) && i < |radixes|
    ensures Product(radixes[..i + 1]) % radixes[i] == 0
    ensures radixes[i] <= Product(radixes[..i + 1]) <= Product(radixes)
  {
    var r := radixes[i];
    var pre := Product(radixes[..i]);
    var n := Product(radixes[..i + 1]);
    ProductPositive(radixes[..i]);
    ProductPositive(radixes[i + 1..]);
    assert n == r * pre by {
      PrefixStep(radixes, i);
    }
    ProductSplit(radixes, i + 1);
    Arith.FactorBounds(r, pre, n, Product(radixes[i + 1..]), Product(radixes));
  }

  /** Four radix-2 layers: a receptive field of 16, with sizes 16, 8, 4, 2 by default and
      2, 4, 8, 16 with `transpose`. */
  lemma FourRadixTwo()
    ensures Product([2, 2, 2, 2]) == 16
    ensures NSeq([2, 2, 2, 2], false) == [16, 8, 4, 2]
    ensures NSeq([2, 2, 2, 2], true) == [2, 4, 8, 16]
  {
    var rs: seq<nat> := [2, 2, 2, 2];
    SuffixSchedule(rs);
    PrefixSchedule(rs);
  }
}
