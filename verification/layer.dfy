/** One FFT layer, `general_FFTLayer`: a dilated causal window over the time axis.
    The convolutions, ReLUs and the pointwise output convolution are abstracted into one
    per-position `cell` of the layer's `radix` input taps and, when conditioned, its
    `radix` conditioning taps; everything about which positions are read is kept exact. */
module FFTLayer {

  import opened Results
  import opened Signal
  import Arith

  /** What the layer computes at one output position from its input taps and, when the call is
      conditioned, its conditioning taps: relu(W_o(relu(W_lr x + V_lr h))) with the weights fixed. */
  type Cell = (seq<Vec>, Option<seq<Vec>>) -> Vec

  /** A constructed layer: input width, receptive size `n` (the `N` argument), radix, the
      auxiliary width when the layer owns conditioning weights, and its weights as a `Cell`. */
  datatype Layer = Layer(inChannels: nat, n: nat, radix: nat, aux: Option<nat>, cell: Cell)

  /** What the constructor needs: a kernel of at least one tap and a dilation `n / radix` of at least 1. */
  predicate Valid(l: Layer)
  {
    1 <= l.radix <= l.n
  }

  /** A layer whose size is an exact multiple of its radix, as every layer of a network is. */
  predicate Exact(l: Layer)
  {
    Valid(l) && l.n % l.radix == 0
  }

  /** `N // radix`: the spacing between taps. */
  function Dilation(l: Layer): (d: nat)
    requires Valid(l)
    ensures 1 <= d <= l.n
  {
    Arith.DivBounds(l.n, l.radix);
    l.n / l.radix
  }

  /** `N - N // radix`: the left zero padding of the causal (`zeropad`) call. */
  function PadWidth(l: Layer): (p: nat)
    requires Valid(l)
  {
    l.n - Dilation(l)
  }

  /** `(radix - 1) * dilation + 1`: the number of consecutive steps one output reads. */
  function Span(l: Layer): (w: nat)
    requires Valid(l)
    ensures w >= 1
  {
    Arith.MulMono(0, l.radix - 1, Dilation(l));
    (l.radix - 1) * Dilation(l) + 1
  }

  /** `N - N // r + 1`: the length of the layer's generation buffer. */
  function BufferLength(l: Layer): (len: nat)
    requires Valid(l)
  {
    Arith.DivBounds(l.n, l.radix);
    l.n - l.n / l.radix + 1
  }

  /** The width of the conditioning signal: the auxiliary width, or 0 when there is none. */
  function AuxWidth(aux: Option<nat>): (w: nat)
  {
    if aux.Some? then aux.value else 0
  }

  /** The zero vector the conditioning signal is padded with. */
  function AuxZero(l: Layer): (z: Vec)
  {
    Zeros(AuxWidth(l.aux))
  }

  /** For an exact layer the padding, the buffer and the kernel span agree: the padding is the
      span minus one, the buffer is exactly one span, and the span never exceeds `n`. */
  lemma ExactSizes(l: Layer)
    requires Exact(l)
    ensures l.n == l.radix * Dilation(l)
    ensures PadWidth(l) == (l.radix - 1) * Dilation(l) == Span(l) - 1
    ensures BufferLength(l) == Span(l) <= l.n
  {
    Arith.DivExact(l.n, l.radix);
  }

  /** Buffer lengths of radix-2 layers of sizes 2, 4, 8 and 16: 2, 3, 5 and 9 steps. */
  lemma RadixTwoBuffers(c: Cell)
    ensures BufferLength(Layer(1, 2, 2, None, c)) == 2
    ensures BufferLength(Layer(1, 4, 2, None, c)) == 3
    ensures BufferLength(Layer(1, 8, 2, None, c)) == 5
    ensures BufferLength(Layer(1, 16, 2, None, c)) == 9
  {
  }

  lemma TapOffset(l: Layer, k: nat)
    requires Valid(l) && k < l.radix
    ensures k * Dilation(l) <= Span(l) - 1
  {
    Arith.MulMono(k, l.radix - 1, Dilation(l));
  }

  /** The `radix` taps `s[t], s[t + d], ..., s[t + (radix - 1) d]` a dilated convolution reads
      for output position `t`. */
  function Taps(s: seq<Vec>, t: nat, l: Layer): (taps: seq<Vec>)
    requires Valid(l) && t + Span(l) <= |s|
    ensures |taps| == l.radix
  {
    seq(l.radix, k requires 0 <= k < l.radix => TapOffset(l, k); s[t + k * Dilation(l)])
  }

  /** The number of output positions a convolution over `s` yields. */
  function Windows(l: Layer, s: seq<Vec>): (count: int)
    requires Valid(l)
  {
    |s| - Span(l) + 1
  }

  /** Output position `t` can be read from `s`: `s` holds at least one span, and either `t` is
      one of its window positions or `s` has exactly one window, which is broadcast. */
  predicate Fits(l: Layer, s: seq<Vec>, t: nat)
    requires Valid(l)
  {
    Span(l) <= |s| && (Windows(l, s) == 1 || t < Windows(l, s))
  }

  /** The window of `s` read for output position `t`: `t` itself, or 0 when `s` is broadcast. */
  function Aligned(l: Layer, s: seq<Vec>, t: nat): (u: nat)
    requires Valid(l) && Fits(l, s, t)
    ensures u + Span(l) <= |s|
  {
    if Windows(l, s) == 1 then 0 else t
  }

  /** One output position of the convolution: the cell applied to the input taps and, when
      conditioned, to the conditioning taps, each axis broadcast when it has one window. */
  function OutAt(l: Layer, xs: seq<Vec>, hs: Option<seq<Vec>>, t: nat): (y: Vec)
    requires Valid(l) && Fits(l, xs, t) && (hs.Some? ==> Fits(l, hs.value, t))
  {
    l.cell(Taps(xs, Aligned(l, xs, t), l),
           if hs.None? then None else Some(Taps(hs.value, Aligned(l, hs.value, t), l)))
  }

  /** The first `len` output positions of the convolution, in order. */
  function Outputs(l: Layer, xs: seq<Vec>, hs: Option<seq<Vec>>, len: nat): (ys: seq<Vec>)
    requires Valid(l)
    requires len > 0 ==> Fits(l, xs, len - 1) && (hs.Some? ==> Fits(l, hs.value, len - 1))
    ensures |ys| == len
    decreases len
  {
    if len == 0 then []
    else Outputs(l, xs, hs, len - 1) + [OutAt(l, xs, hs, len - 1)]
  }

  lemma {:induction false} OutputsAt(l: Layer, xs: seq<Vec>, hs: Option<seq<Vec>>, len: nat, t: nat)
    requires Valid(l)
    requires len > 0 ==> Fits(l, xs, len - 1) && (hs.Some? ==> Fits(l, hs.value, len - 1))
    requires t < len
    ensures Fits(l, xs, t) && (hs.Some? ==> Fits(l, hs.value, t))
    ensures Outputs(l, xs, hs, len)[t] == OutAt(l, xs, hs, t)
  {
    if t < len - 1 {
      OutputsAt(l, xs, hs, len - 1, t);
    }
  }

  /** `general_FFTLayer.forward(x, h, zeropad)`. With `zeropad` both signals are left-padded by
      `PadWidth`; the conditioning is first cut to its last `|x|` steps. A convolution whose input
      is shorter than the span fails, conditioning without auxiliary weights fails, and two time
      axes of different lengths are broadcast when one of them has length 1 and fail otherwise. */
  function Forward(l: Layer, x: seq<Vec>, h: Option<seq<Vec>>, zeropad: bool): (r: Result<seq<Vec>>)
    requires Valid(l)
    ensures |x| + (if zeropad then PadWidth(l) else 0) < Span(l) ==> r == Err(InputTooShort)
    ensures h.None? && |x| + (if zeropad then PadWidth(l) else 0) >= Span(l) ==> r.Ok?
    ensures h.Some? && l.aux.None? ==> r.Err?
    ensures r.Ok? && |x| > 0 ==> |r.value| == |x| + (if zeropad then PadWidth(l) else 0) - Span(l) + 1
  {
    var m := |x|;
    var xs := if zeropad then Silence(l.inChannels, PadWidth(l)) + x else x;
    if |xs| < Span(l) then Err(InputTooShort)
    else if h.None? then Ok(Outputs(l, xs, None, Windows(l, xs)))
    else if l.aux.None? then Err(MissingAuxWeights)
    else
      var ht := Trailing(h.value, m);
      var hs := if zeropad then Silence(l.aux.value, PadWidth(l)) + ht else ht;
      if |hs| < Span(l) then Err(InputTooShort)
      else
        var lx := Windows(l, xs);
        var lh := Windows(l, hs);
        if lx != lh && lx != 1 && lh != 1 then Err(ShapeMismatch)
        else Ok(Outputs(l, xs, Some(hs), if lx == 1 then lh else lx))
  }

  /** The taps of a causal window: `s` at `t - (radix - 1) d, ..., t - d, t`, reading `zero`
      before time 0. */
  function CausalTaps(s: seq<Vec>, t: nat, l: Layer, zero: Vec): (taps: seq<Vec>)
    requires Valid(l) && t < |s|
    ensures |taps| == l.radix
  {
    seq(l.radix, k requires 0 <= k < l.radix =>
      Arith.MulMono(0, l.radix - 1 - k, Dilation(l));
      Tap(s, t - (l.radix - 1 - k) * Dilation(l), zero))
  }

  /** Reference definition of the causal layer, written without padding: output `t` applies the
      cell to the causal taps at `t` of the input and of the conditioning (aligned with the input). */
  function CausalOut(l: Layer, x: seq<Vec>, h: Option<seq<Vec>>): (y: seq<Vec>)
    requires Valid(l) && (h.Some? ==> |h.value| >= |x|)
    ensures |y| == |x|
  {
    seq(|x|, t requires 0 <= t < |x| =>
      l.cell(CausalTaps(x, t, l, Zeros(l.inChannels)),
             if h.None? then None else Some(CausalTaps(h.value, t, l, AuxZero(l)))))
  }

  /** The taps of the padded signal at `t` are the causal taps of the signal itself. */
  lemma PaddedTaps(l: Layer, width: nat, s: seq<Vec>, t: nat)
    requires Exact(l) && t < |s|
    ensures PadWidth(l) + |s| >= t + Span(l)
    ensures Taps(Silence(width, PadWidth(l)) + s, t, l) == CausalTaps(s, t, l, Zeros(width))
  {
    ExactSizes(l);
    var p := PadWidth(l);
    var d := Dilation(l);
    var a := Taps(Silence(width, p) + s, t, l);
    var b := CausalTaps(s, t, l, Zeros(width));
    forall k | 0 <= k < l.radix
      ensures a[k] == b[k]
    {
      TapOffset(l, k);
      PaddedIndex(width, p, s, t + k * d);
      assert t + k * d - p == t - (l.radix - 1 - k) * d;
    }
  }

  /** The taps of the last `Span` steps of a silence-padded history, read at the window's start,
      are the causal taps of the history at its newest step. */
  lemma WindowTaps(l: Layer, width: nat, a: nat, s: seq<Vec>)
    requires Exact(l) && |s| > 0 && Span(l) <= a + |s|
    ensures Taps(Last(Silence(width, a) + s, Span(l)), 0, l) == CausalTaps(s, |s| - 1, l, Zeros(width))
  {
    ExactSizes(l);
    var w := Span(l);
    var d := Dilation(l);
    var lhs := Taps(Last(Silence(width, a) + s, w), 0, l);
    var rhs := CausalTaps(s, |s| - 1, l, Zeros(width));
    forall k | 0 <= k < l.radix
      ensures lhs[k] == rhs[k]
    {
      TapOffset(l, k);
      LastOfPadded(width, a, s, w, k * d);
      assert |s| - w + k * d == |s| - 1 - (l.radix - 1 - k) * d;
    }
  }

  /** The padded (`zeropad`) layer is the causal reference layer: output `t` reads only the inputs
      at `t - (radix - 1) d .. t`, with zeros before time 0, and the output keeps the input's length.
      Conditioning is cut to its last `|x|` steps first. */
  lemma ForwardIsCausal(l: Layer, x: seq<Vec>, h: Option<seq<Vec>>)
    requires Exact(l) && |x| > 0
    requires h.Some? ==> l.aux.Some? && |h.value| >= |x|
    ensures Forward(l, x, h, true) == Ok(CausalOut(l, x, if h.None? then None else Some(Last(h.value, |x|))))
  {
    ExactSizes(l);
    var hl := if h.None? then None else Some(Last(h.value, |x|));
    var xs := Silence(l.inChannels, PadWidth(l)) + x;
    var want := CausalOut(l, x, hl);
    var r := Forward(l, x, h, true);
    assert r.Ok?;
    assert |r.value| == |x|;
    forall t | 0 <= t < |x|
      ensures r.value[t] == want[t]
    {
      PaddedTaps(l, l.inChannels, x, t);
      if h.Some? {
        var hs := Silence(l.aux.value, PadWidth(l)) + Trailing(h.value, |x|);
        assert hs == Silence(l.aux.value, PadWidth(l)) + hl.value;
        PaddedTaps(l, l.aux.value, hl.value, t);
        OutputsAt(l, xs, Some(hs), |x|, t);
      } else {
        OutputsAt(l, xs, None, |x|, t);
      }
    }
    assert r.value == want;
  }

  /** The unpadded layer on exactly one span of input yields exactly one output; conditioning is
      cut to its last span first. */
  lemma ForwardOneSpan(l: Layer, buf: seq<Vec>, hw: Option<seq<Vec>>)
    requires Valid(l) && |buf| == Span(l)
    requires hw.Some? ==> l.aux.Some? && |hw.value| >= Span(l)
    ensures Forward(l, buf, hw, false)
         == Ok([l.cell(Taps(buf, 0, l), if hw.None? then None else Some(Taps(Last(hw.value, Span(l)), 0, l)))])
  {
    var r := Forward(l, buf, hw, false);
    if hw.Some? {
      var ht := Trailing(hw.value, |buf|);
      assert ht == Last(hw.value, Span(l));
      assert |r.value| == 1 && r.value[0] == l.cell(Taps(buf, 0, l), Some(Taps(ht, 0, l)));
      assert r.value == [l.cell(Taps(buf, 0, l), Some(Taps(ht, 0, l)))];
    } else {
      assert |r.value| == 1 && r.value[0] == l.cell(Taps(buf, 0, l), None);
      assert r.value == [l.cell(Taps(buf, 0, l), None)];
    }
  }

  /** The unpadded layer on a buffer holding the last `Span` steps of silence followed by `s`, with
      the conditioning window `a` steps of silence followed by the conditioning up to the newest
      step, yields exactly one output: the causal reference output at the newest step of `s`. */
  lemma WindowStep(l: Layer, s: seq<Vec>, h: Option<seq<Vec>>, a: nat)
    requires Exact(l) && |s| > 0 && Span(l) <= a + 1
    requires h.Some? ==> l.aux.Some? && |h.value| >= |s|
    ensures Forward(l, Last(Silence(l.inChannels, Span(l)) + s, Span(l)),
                    if h.None? then None else Some(Silence(l.aux.value, a) + h.value[..|s|]), false)
         == Ok([CausalOut(l, s, h)[|s| - 1]])
  {
    var w := Span(l);
    var buf := Last(Silence(l.inChannels, w) + s, w);
    var hw := if h.None? then None else Some(Silence(l.aux.value, a) + h.value[..|s|]);
    ForwardOneSpan(l, buf, hw);
    WindowTaps(l, l.inChannels, w, s);
    if h.Some? {
      var hp := h.value[..|s|];
      WindowTaps(l, l.aux.value, a, hp);
      CausalTapsPrefix(l, h.value, |s|, |s| - 1, AuxZero(l));
    }
  }

  /** Causal taps at `t` only read the signal up to `t`, so any prefix reaching past `t` gives the same taps. */
  lemma CausalTapsPrefix(l: Layer, s: seq<Vec>, k: nat, t: nat, zero: Vec)
    requires Valid(l) && t < k <= |s|
    ensures CausalTaps(s[..k], t, l, zero) == CausalTaps(s, t, l, zero)
  {
    forall j | 0 <= j < l.radix
      ensures CausalTaps(s[..k], t, l, zero)[j] == CausalTaps(s, t, l, zero)[j]
    {
      Arith.MulMono(0, l.radix - 1 - j, Dilation(l));
      TapPrefix(s, k, t - (l.radix - 1 - j) * Dilation(l), zero);
    }
  }

  /** Causality: two inputs (and conditionings) that agree on their first `k` steps give reference
      outputs that agree on their first `k` steps. */
  lemma CausalOutAgree(l: Layer, x1: seq<Vec>, h1: Option<seq<Vec>>, x2: seq<Vec>, h2: Option<seq<Vec>>, k: nat)
    requires Valid(l) && k <= |x1| && k <= |x2| && x1[..k] == x2[..k]
    requires h1.Some? ==> |h1.value| >= |x1|
    requires h2.Some? ==> |h2.value| >= |x2|
    requires h1.None? <==> h2.None?
    requires h1.Some? ==> h1.value[..k] == h2.value[..k]
    ensures CausalOut(l, x1, h1)[..k] == CausalOut(l, x2, h2)[..k]
  {
    var y1 := CausalOut(l, x1, h1);
    var y2 := CausalOut(l, x2, h2);
    forall t | 0 <= t < k
      ensures y1[t] == y2[t]
    {
      var z := Zeros(l.inChannels);
      CausalTapsPrefix(l, x1, k, t, z);
      CausalTapsPrefix(l, x2, k, t, z);
      if h1.Some? {
        CausalTapsPrefix(l, h1.value, k, t, AuxZero(l));
        CausalTapsPrefix(l, h2.value, k, t, AuxZero(l));
      }
    }
  }
}
