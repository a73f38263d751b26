/** The network `general_FFTNet`: construction from a radix list, the batch forward pass through the
    stack of FFT layers, and the output projection `fc_out`. */
module FFTNet {

  import opened Results
  import opened Signal
  import opened FFTLayer
  import Schedule
  import Encoding

  /** A constructed network. `logit(k, v)` is class `k`'s logit for the last layer's output `v`
      (the `nn.Linear(fft_channels, classes)` output map), so every logit vector has `classes` entries. */
  datatype Net = Net(
    classes: nat,
    radixes: seq<nat>,
    nSeq: seq<nat>,
    rField: nat,
    aux: Option<nat>,
    layers: seq<Layer>,
    logit: (nat, Vec) -> int)

  predicate AllValid(layers: seq<Layer>)
  {
    forall j :: 0 <= j < |layers| ==> Valid(layers[j])
  }

  /** What construction guarantees: one exact layer per radix with `N_seq` as its size, every layer
      within the receptive field and sharing the network's conditioning width, the first layer
      reading one-hot vectors. */
  predicate WellFormed(net: Net)
  {
    && |net.layers| == |net.radixes| == |net.nSeq| > 0
    && net.rField == Schedule.Product(net.radixes)
    && net.layers[0].inChannels == net.classes
    && forall j :: 0 <= j < |net.layers| ==>
         && net.layers[j].n == net.nSeq[j]
         && net.layers[j].radix == net.radixes[j]
         && Exact(net.layers[j])
         && net.layers[j].n <= net.rField
         && net.layers[j].aux == net.aux
  }

  /** `general_FFTNet.__init__`. `weights(j)` stands for layer j's trained convolutions. An empty
      radix list fails in `reduce`; a radix below 1 fails in the layer constructor. */
  function Build(radixes: seq<int>, fftChannels: nat, classes: nat, aux: Option<nat>, transpose: bool,
                 weights: nat -> Cell, logit: (nat, Vec) -> int): (r: Result<Net>)
    ensures |radixes| == 0 ==> r == Err(EmptySchedule)
    ensures |radixes| > 0 && (exists i :: 0 <= i < |radixes| && radixes[i] < 1) ==> r == Err(BadRadix)
    ensures r.Ok? <==> |radixes| > 0 && forall i :: 0 <= i < |radixes| ==> radixes[i] >= 1
    ensures r.Ok? ==> WellFormed(r.value)
    ensures r.Ok? ==> r.value.nSeq == Schedule.NSeq(r.value.radixes, transpose)
    ensures r.Ok? ==> |r.value.radixes| == |radixes| && forall i :: 0 <= i < |radixes| ==> r.value.radixes[i] == radixes[i]
    ensures r.Ok? ==> r.value.classes == classes && r.value.aux == aux
    ensures r.Ok? ==> forall j :: 1 <= j < |radixes| ==> r.value.layers[j].inChannels == fftChannels
  {
    if |radixes| == 0 then Err(EmptySchedule)
    else if exists i :: 0 <= i < |radixes| && radixes[i] < 1 then Err(BadRadix)
    else
      var rs := seq(|radixes|, i requires 0 <= i < |radixes| => radixes[i] as nat);
      BuiltNetWellFormed(rs, fftChannels, classes, aux, transpose, weights, logit);
      Ok(BuiltNet(rs, fftChannels, classes, aux, transpose, weights, logit))
  }

  /** The network the constructor assembles from a checked radix list. */
  function BuiltNet(rs: seq<nat>, fftChannels: nat, classes: nat, aux: Option<nat>, transpose: bool,
                    weights: nat -> Cell, logit: (nat, Vec) -> int): (net: Net)
  {
    var ns := Schedule.NSeq(rs, transpose);
    var layers := seq(|rs|, j requires 0 <= j < |rs| =>
      Layer(if j == 0 then classes else fftChannels, ns[j], rs[j], aux, weights(j)));
    Net(classes, rs, ns, Schedule.Product(rs), aux, layers, logit)
  }

  lemma BuiltNetWellFormed(rs: seq<nat>, fftChannels: nat, classes: nat, aux: Option<nat>, transpose: bool,
                           weights: nat -> Cell, logit: (nat, Vec) -> int)
    requires |rs| > 0 && Schedule.Positive(rs)
    ensures WellFormed(BuiltNet(rs, fftChannels, classes, aux, transpose, weights, logit))
  {
    var net := BuiltNet(rs, fftChannels, classes, aux, transpose, weights, logit);
    forall j | 0 <= j < |rs|
      ensures Exact(net.layers[j]) && net.layers[j].n <= net.rField
    {
      Schedule.ScheduleBounds(rs, transpose, j);
    }
  }

  /** The logits of one output vector. */
  function Project(net: Net, v: Vec): (logits: Vec)
    ensures |logits| == net.classes
  {
    seq(net.classes, (k: nat) => net.logit(k, v))
  }

  /** The layer loop of `forward`: every layer gets the same conditioning and the same `zeropad`. */
  function Stack(layers: seq<Layer>, x: seq<Vec>, h: Option<seq<Vec>>, zeropad: bool): (r: Result<seq<Vec>>)
    requires AllValid(layers)
    decreases |layers|
  {
    if |layers| == 0 then Ok(x)
    else
      var y :- FFTLayer.Forward(layers[0], x, h, zeropad);
      Stack(layers[1..], y, h, zeropad)
  }

  /** `forward` after the one-hot step: the layer stack, then `fc_out` at every time step. */
  function ForwardVecs(net: Net, x: seq<Vec>, h: Option<seq<Vec>>, zeropad: bool): (r: Result<seq<Vec>>)
    requires AllValid(net.layers)
  {
    var y :- Stack(net.layers, x, h, zeropad);
    Ok(seq(|y|, t requires 0 <= t < |y| => Project(net, y[t])))
  }

  /** `general_FFTNet.forward(x, h, zeropad)` on a waveform of class indices: a class outside
      `[0, classes)` fails in the one-hot encoder, and every step gets one logit per class. */
  function Forward(net: Net, wave: seq<int>, h: Option<seq<Vec>>, zeropad: bool): (r: Result<seq<Vec>>)
    requires AllValid(net.layers)
    ensures (exists t :: 0 <= t < |wave| && !(0 <= wave[t] < net.classes)) ==> r == Err(IndexOutOfRange)
    ensures r.Ok? ==> forall t :: 0 <= t < |wave| ==> 0 <= wave[t] < net.classes
    ensures r.Ok? ==> forall t :: 0 <= t < |r.value| ==> |r.value[t]| == net.classes
  {
    var x :- Encoding.OneHotSeq(net.classes, wave);
    ForwardVecs(net, x, h, zeropad)
  }

  /** Reference definition of the padded stack: the causal reference layers composed. */
  function CausalStack(layers: seq<Layer>, x: seq<Vec>, h: Option<seq<Vec>>): (y: seq<Vec>)
    requires AllValid(layers) && (h.Some? ==> |h.value| >= |x|)
    ensures |y| == |x|
    decreases |layers|
  {
    if |layers| == 0 then x else CausalStack(layers[1..], CausalOut(layers[0], x, h), h)
  }

  /** All layers can take the conditioning `h` aligned with an input of length `m`. */
  predicate Conditionable(layers: seq<Layer>, h: Option<seq<Vec>>, m: nat)
  {
    h.Some? ==> |h.value| == m && forall j :: 0 <= j < |layers| ==> layers[j].aux.Some?
  }

  /** The padded batch stack is the causal reference stack, and so keeps the input's length. */
  lemma {:induction false} StackIsCausal(layers: seq<Layer>, x: seq<Vec>, h: Option<seq<Vec>>)
    requires AllValid(layers) && forall j :: 0 <= j < |layers| ==> Exact(layers[j])
    requires |x| > 0 && Conditionable(layers, h, |x|)
    ensures Stack(layers, x, h, true) == Ok(CausalStack(layers, x, h))
    decreases |layers|
  {
    if |layers| > 0 {
      ForwardIsCausal(layers[0], x, h);
      if h.Some? {
        assert Last(h.value, |x|) == h.value;
      }
      var y := CausalOut(layers[0], x, h);
      StackIsCausal(layers[1..], y, h);
    }
  }

  /** The padded batch pass over one-hot vectors projects the causal reference stack's output at
      every position. */
  lemma ForwardVecsIsCausal(net: Net, x: seq<Vec>, h: Option<seq<Vec>>)
    requires WellFormed(net) && |x| > 0 && Conditionable(net.layers, h, |x|)
    ensures ForwardVecs(net, x, h, true).Ok?
    ensures |ForwardVecs(net, x, h, true).value| == |x|
    ensures forall t :: 0 <= t < |x| ==> ForwardVecs(net, x, h, true).value[t] == Project(net, CausalStack(net.layers, x, h)[t])
  {
    StackIsCausal(net.layers, x, h);
  }

  /** Causality of the composed stack: inputs and conditionings that agree on their first `k` steps
      give outputs that agree on their first `k` steps. */
  lemma {:induction false} CausalStackAgree(layers: seq<Layer>, x1: seq<Vec>, h1: Option<seq<Vec>>,
                                           x2: seq<Vec>, h2: Option<seq<Vec>>, k: nat)
    requires AllValid(layers)
    requires k <= |x1| && k <= |x2| && x1[..k] == x2[..k]
    requires h1.Some? ==> |h1.value| >= |x1|
    requires h2.Some? ==> |h2.value| >= |x2|
    requires h1.None? <==> h2.None?
    requires h1.Some? ==> h1.value[..k] == h2.value[..k]
    ensures CausalStack(layers, x1, h1)[..k] == CausalStack(layers, x2, h2)[..k]
    decreases |layers|
  {
    if |layers| > 0 {
      CausalOutAgree(layers[0], x1, h1, x2, h2, k);
      CausalStackAgree(layers[1..], CausalOut(layers[0], x1, h1), h1, CausalOut(layers[0], x2, h2), h2, k);
    }
  }

  /** Encodings of two waveforms that agree on their first `k` classes agree on their first `k`
      one-hot vectors. */
  lemma EncodedPrefixAgree(depth: nat, w1: seq<int>, w2: seq<int>, k: nat)
    requires Encoding.OneHotSeq(depth, w1).Ok? && Encoding.OneHotSeq(depth, w2).Ok?
    requires k <= |w1| && k <= |w2| && w1[..k] == w2[..k]
    ensures Encoding.OneHotSeq(depth, w1).value[..k] == Encoding.OneHotSeq(depth, w2).value[..k]
  {
    Encoding.OneHotSeqPrefix(depth, w1, k);
    Encoding.OneHotSeqPrefix(depth, w2, k);
  }

  /** Pointwise form of `CausalStackAgree`: agreement on the first `t + 1` steps fixes output `t`. */
  lemma CausalStackAt(layers: seq<Layer>, x1: seq<Vec>, h1: Option<seq<Vec>>,
                      x2: seq<Vec>, h2: Option<seq<Vec>>, t: nat)
    requires AllValid(layers)
    requires t < |x1| && t < |x2| && x1[..t + 1] == x2[..t + 1]
    requires h1.Some? ==> |h1.value| >= |x1|
    requires h2.Some? ==> |h2.value| >= |x2|
    requires h1.None? <==> h2.None?
    requires h1.Some? ==> h1.value[..t + 1] == h2.value[..t + 1]
    ensures CausalStack(layers, x1, h1)[t] == CausalStack(layers, x2, h2)[t]
  {
    CausalStackAgree(layers, x1, h1, x2, h2, t + 1);
    var y1 := CausalStack(layers, x1, h1);
    var y2 := CausalStack(layers, x2, h2);
    assert y1[t] == y1[..t + 1][t];
    assert y2[t] == y2[..t + 1][t];
  }

  /** The padded batch pass on a waveform of valid classes succeeds, keeps the waveform's length,
      and at every position projects the causal reference stack run on the one-hot encoding. */
  lemma ForwardPaddedIsCausal(net: Net, wave: seq<int>, h: Option<seq<Vec>>)
    requires WellFormed(net) && |wave| > 0 && Conditionable(net.layers, h, |wave|)
    requires forall i :: 0 <= i < |wave| ==> 0 <= wave[i] < net.classes
    ensures Encoding.OneHotSeq(net.classes, wave).Ok?
    ensures Forward(net, wave, h, true).Ok?
    ensures |Forward(net, wave, h, true).value| == |wave|
    ensures forall t :: 0 <= t < |wave| ==>
      Forward(net, wave, h, true).value[t]
        == Project(net, CausalStack(net.layers, Encoding.OneHotSeq(net.classes, wave).value, h)[t])
  {
    ForwardVecsIsCausal(net, Encoding.OneHotSeq(net.classes, wave).value, h);
  }

  /** The batch pass is causal: two waveforms of the same length whose first `t + 1` classes agree,
      with conditionings whose first `t + 1` steps agree, get the same logits at position `t`. */
  lemma ForwardCausal(net: Net, w1: seq<int>, h1: Option<seq<Vec>>, w2: seq<int>, h2: Option<seq<Vec>>, t: nat)
    requires WellFormed(net)
    requires t < |w1| == |w2| && w1[..t + 1] == w2[..t + 1]
    requires forall i :: 0 <= i < |w1| ==> 0 <= w1[i] < net.classes && 0 <= w2[i] < net.classes
    requires Conditionable(net.layers, h1, |w1|) && Conditionable(net.layers, h2, |w2|)
    requires h1.None? <==> h2.None?
    requires h1.Some? ==> h1.value[..t + 1] == h2.value[..t + 1]
    ensures Forward(net, w1, h1, true).Ok? && Forward(net, w2, h2, true).Ok?
    ensures |Forward(net, w1, h1, true).value| == |Forward(net, w2, h2, true).value| == |w1|
    ensures Forward(net, w1, h1, true).value[t] == Forward(net, w2, h2, true).value[t]
  {
    ForwardPaddedIsCausal(net, w1, h1);
    ForwardPaddedIsCausal(net, w2, h2);
    var x1 := Encoding.OneHotSeq(net.classes, w1).value;
    var x2 := Encoding.OneHotSeq(net.classes, w2).value;
    EncodedPrefixAgree(net.classes, w1, w2, t + 1);
    CausalStackAt(net.layers, x1, h1, x2, h2, t);
  }
}
