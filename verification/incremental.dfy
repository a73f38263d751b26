/** Why incremental generation is right: the shift buffers stay in step with the padded batch pass,
    so every generated step decides on exactly the logits the batch `forward` computes there. */
module Incremental {

  import opened Results
  import opened Signal
  import opened FFTLayer
  import opened FFTNet
  import opened Generation
  import Buffers
  import Encoding
  import Sampling

  /** The buffers are in step with the batch pass over the samples `xs` fed so far: layer j's buffer
      holds the last span of silence followed by layer j's batch (causal reference) input. */
  ghost predicate Synced(layers: seq<Layer>, bufs: seq<seq<Vec>>, xs: seq<Vec>, h: Option<seq<Vec>>)
    requires AllValid(layers) && (h.Some? ==> |h.value| >= |xs|)
    decreases |layers|
  {
    && |bufs| == |layers|
    && (|layers| > 0 ==>
         && bufs[0] == Last(Silence(layers[0].inChannels, Span(layers[0])) + xs, Span(layers[0]))
         && Synced(layers[1..], bufs[1..], CausalOut(layers[0], xs, h), h))
  }

  /** Freshly zeroed buffers are in step with the empty history. */
  lemma {:induction false} ZeroBuffersSynced(layers: seq<Layer>, h: Option<seq<Vec>>)
    requires AllValid(layers) && forall j :: 0 <= j < |layers| ==> Exact(layers[j])
    ensures Synced(layers, ZeroBuffers(layers), [], h)
    decreases |layers|
  {
    if |layers| > 0 {
      var l := layers[0];
      ExactSizes(l);
      assert Silence(l.inChannels, Span(l)) + [] == Silence(l.inChannels, Span(l));
      assert ZeroBuffers(layers)[1..] == ZeroBuffers(layers[1..]);
      assert CausalOut(l, [], h) == [];
      ZeroBuffersSynced(layers[1..], h);
    }
  }

  /** The conditioning window a step passes to every layer: silence of length `pad` followed by the
      conditioning up to the newest step `t`. */
  function StepWindow(h: Option<seq<Vec>>, aux: Option<nat>, pad: nat, t: nat): (w: Option<seq<Vec>>)
    requires h.Some? ==> aux.Some? && |h.value| > t
  {
    if h.None? then None else Some(Silence(aux.value, pad) + h.value[..t + 1])
  }

  /** One layer's part of a step: the shifted buffer is the last span of the extended history, the
      layer's one output is the reference output at the new position, and the reference output over
      the extended history extends the old one by exactly that output. */
  lemma LayerStep(l: Layer, b0: seq<Vec>, xs: seq<Vec>, x: Vec, h: Option<seq<Vec>>, aux: Option<nat>, pad: nat)
    requires Exact(l) && Span(l) <= pad + 1 && l.aux == aux
    requires h.Some? ==> aux.Some? && |h.value| > |xs|
    requires b0 == Last(Silence(l.inChannels, Span(l)) + xs, Span(l))
    ensures Buffers.Shift(b0, x) == Last(Silence(l.inChannels, Span(l)) + (xs + [x]), Span(l))
    ensures FFTLayer.Forward(l, Buffers.Shift(b0, x), StepWindow(h, aux, pad, |xs|), false)
         == Ok([CausalOut(l, xs + [x], h)[|xs|]])
    ensures CausalOut(l, xs + [x], h) == CausalOut(l, xs, h) + [CausalOut(l, xs + [x], h)[|xs|]]
  {
    ShiftHistory(l, b0, xs, x);
    WindowStep(l, xs + [x], h, pad);
    CausalOutSnoc(l, xs, x, h);
  }

  /** Shifting a buffer that holds the last span of a silence-padded history gives the last span
      of the extended history. */
  lemma ShiftHistory(l: Layer, b0: seq<Vec>, xs: seq<Vec>, x: Vec)
    requires Valid(l) && b0 == Last(Silence(l.inChannels, Span(l)) + xs, Span(l))
    ensures Buffers.Shift(b0, x) == Last(Silence(l.inChannels, Span(l)) + (xs + [x]), Span(l))
  {
    var w := Span(l);
    var hist := Silence(l.inChannels, w) + xs;
    Buffers.ShiftLast(hist, w, x);
    assert hist + [x] == Silence(l.inChannels, w) + (xs + [x]);
  }

  /** The reference output over an extended input extends the old one by one output. */
  lemma CausalOutSnoc(l: Layer, xs: seq<Vec>, x: Vec, h: Option<seq<Vec>>)
    requires Valid(l) && (h.Some? ==> |h.value| > |xs|)
    ensures CausalOut(l, xs + [x], h) == CausalOut(l, xs, h) + [CausalOut(l, xs + [x], h)[|xs|]]
  {
    var full := CausalOut(l, xs + [x], h);
    CausalOutAgree(l, xs + [x], h, xs, h, |xs|);
    assert (xs + [x])[..|xs|] == xs;
    assert full == full[..|xs|] + [full[|xs|]];
  }

  /** `StepLayers` on a non-empty stack whose first layer yields exactly one output. */
  lemma StepLayersCons(layers: seq<Layer>, bufs: seq<seq<Vec>>, x: Vec, hw: Option<seq<Vec>>, y0: Vec)
    requires AllValid(layers) && |bufs| == |layers| > 0
    requires FFTLayer.Forward(layers[0], Buffers.Shift(bufs[0], x), hw, false) == Ok([y0])
    ensures var rest := StepLayers(layers[1..], bufs[1..], y0, hw);
      StepLayers(layers, bufs, x, hw)
        == if rest.Ok? then Ok(([Buffers.Shift(bufs[0], x)] + rest.value.0, rest.value.1)) else Err(rest.error)
  {
  }

  /** One generation step keeps the buffers in step, and the last layer's output is the batch
      (causal reference) stack's output at the new position. */
  lemma {:induction false} StepSynced(layers: seq<Layer>, bufs: seq<seq<Vec>>, xs: seq<Vec>, x: Vec,
                                     h: Option<seq<Vec>>, aux: Option<nat>, pad: nat)
    requires AllValid(layers)
    requires forall j :: 0 <= j < |layers| ==> Exact(layers[j]) && Span(layers[j]) <= pad + 1 && layers[j].aux == aux
    requires h.Some? ==> aux.Some? && |h.value| > |xs|
    requires Synced(layers, bufs, xs, h)
    ensures var r := StepLayers(layers, bufs, x, StepWindow(h, aux, pad, |xs|));
      && r.Ok?
      && r.value.1 == CausalStack(layers, xs + [x], h)[|xs|]
      && Synced(layers, r.value.0, xs + [x], h)
    decreases |layers|
  {
    var hw := StepWindow(h, aux, pad, |xs|);
    if |layers| > 0 {
      var l := layers[0];
      LayerStep(l, bufs[0], xs, x, h, aux, pad);
      var y0 := CausalOut(l, xs + [x], h)[|xs|];
      var ys := CausalOut(l, xs, h);
      StepLayersCons(layers, bufs, x, hw, y0);
      StepSynced(layers[1..], bufs[1..], ys, y0, h, aux, pad);
      var rest := StepLayers(layers[1..], bufs[1..], y0, hw).value;
      var b := Buffers.Shift(bufs[0], x);
      assert ([b] + rest.0)[1..] == rest.0;
      assert |ys| == |xs|;
    }
  }

  /** The conditioning window of step `t` is the silence followed by the conditioning up to `t`. */
  lemma WindowOfPadded(width: nat, pad: nat, h: seq<Vec>, t: nat)
    requires t < |h|
    ensures Window(Some(Silence(width, pad) + h), pad, t) == Some(Silence(width, pad) + h[..t + 1])
  {
    assert (Silence(width, pad) + h)[..pad + 1 + t] == Silence(width, pad) + h[..t + 1];
  }

  /** `Steps` before the last step, once a step has been taken: go on from its buffers and code. */
  lemma StepsCons(net: Net, bufs: seq<seq<Vec>>, x: Vec, hp: Option<seq<Vec>>, t: nat, n: nat, c: int, s: StepOut)
    requires AllValid(net.layers) && |bufs| == |net.layers| && t < n
    requires Step(net, bufs, x, Window(hp, net.rField, t), c) == Ok(s)
    ensures |s.bufs| == |net.layers|
    ensures var rest := Steps(net, s.bufs, s.next, hp, t + 1, n, c);
      rest.Ok? ==> Steps(net, bufs, x, hp, t, n, c) == Ok(ConsTrace(x, s, rest.value))
  {
  }

  /** `Step` once its two parts have succeeded. */
  lemma StepIsFinish(net: Net, bufs: seq<seq<Vec>>, x: Vec, hw: Option<seq<Vec>>, c: int)
    requires AllValid(net.layers) && |bufs| == |net.layers|
    ensures Step(net, bufs, x, hw, c) == Finish(net, StepLayers(net.layers, bufs, x, hw), c)
  {
  }

  /** `Finish` after the layers and the decision have both succeeded. */
  lemma FinishOk(net: Net, st: (seq<seq<Vec>>, Vec), c: int, d: (Vec, nat, Vec))
    requires Decide(net, st.1, c) == Ok(d)
    ensures Finish(net, Ok(st), c) == Ok(StepOut(st.0, d.0, d.1, d.2))
  {
  }

  /** One step from an in-step state succeeds, keeps the buffers in step, and decides on the batch
      stack's output at the new position. */
  lemma StepMatchesBatch(net: Net, bufs: seq<seq<Vec>>, pre: seq<Vec>, x: Vec,
                         h: Option<seq<Vec>>, hp: Option<seq<Vec>>, c: int)
    requires WellFormed(net) && net.classes >= 1
    requires h.None? ==> hp.None?
    requires h.Some? ==> net.aux.Some? && |h.value| > |pre| && hp == Some(Silence(net.aux.value, net.rField) + h.value)
    requires Synced(net.layers, bufs, pre, h)
    ensures var r := Step(net, bufs, x, Window(hp, net.rField, |pre|), c);
      && r.Ok?
      && Synced(net.layers, r.value.bufs, pre + [x], h)
      && r.value.logits == Sampling.Scale(Project(net, CausalStack(net.layers, pre + [x], h)[|pre|]), c)
      && |r.value.logits| == net.classes
      && r.value.sample == Sampling.ArgMax(r.value.logits)
      && r.value.next == Encoding.OneHotVec(net.classes, r.value.sample)
  {
    var t := |pre|;
    var layers := net.layers;
    forall j | 0 <= j < |layers|
      ensures Span(layers[j]) <= net.rField + 1
    {
      ExactSizes(layers[j]);
    }
    if h.Some? {
      WindowOfPadded(net.aux.value, net.rField, h.value, t);
    }
    assert Window(hp, net.rField, t) == StepWindow(h, net.aux, net.rField, t);
    StepSynced(layers, bufs, pre, x, h, net.aux, net.rField);
    var st := StepLayers(layers, bufs, x, Window(hp, net.rField, t)).value;
    var logits := Sampling.Scale(Project(net, st.1), c);
    var k := Sampling.ArgMax(logits);
    var d := (logits, k, Encoding.OneHotVec(net.classes, k));
    assert Decide(net, st.1, c) == Ok(d);
    StepIsFinish(net, bufs, x, Window(hp, net.rField, t), c);
    FinishOk(net, st, c, d);
  }

  /** The trace `tr` is a greedy run from the newest sample `x`: it starts from `x`, every class is
      the first maximal logit of its step, and every later input is the one-hot code of the class
      chosen the step before. */
  ghost predicate Greedy(net: Net, x: Vec, tr: Trace)
    requires net.classes >= 1
  {
    && |tr.inputs| == |tr.logits| == |tr.samples|
    && (|tr.inputs| > 0 ==> tr.inputs[0] == x)
    && (forall i :: 0 <= i < |tr.logits| ==> |tr.logits[i]| == net.classes && tr.samples[i] == Sampling.ArgMax(tr.logits[i]))
    && (forall i :: 0 <= i < |tr.inputs| - 1 ==> tr.inputs[i + 1] == Encoding.OneHotVec(net.classes, tr.samples[i]))
  }

  /** Every step's logits in `tr`, fed after the history `pre`, are the batch stack's output at that
      position over everything fed so far, projected and scaled. */
  ghost predicate Batched(net: Net, pre: seq<Vec>, h: Option<seq<Vec>>, c: int, tr: Trace)
  {
    && |tr.logits| <= |tr.inputs|
    && (forall i :: 0 <= i < |tr.logits| ==> BatchLogit(net, pre + tr.inputs, h, c, |pre| + i, tr.logits[i]))
  }

  /** `logits` are the batch stack's output at position `k` of the input `all`, projected and scaled. */
  ghost predicate BatchLogit(net: Net, all: seq<Vec>, h: Option<seq<Vec>>, c: int, k: nat, logits: Vec)
  {
    && AllValid(net.layers) && k < |all| && (h.Some? ==> |h.value| >= |all|)
    && logits == Sampling.Scale(Project(net, CausalStack(net.layers, all, h)[k]), c)
  }

  /** Causality of the batch stack: more input after position `k` leaves its output at `k` alone. */
  lemma BatchLogitExtends(net: Net, a: seq<Vec>, b: seq<Vec>, h: Option<seq<Vec>>, c: int, k: nat, logits: Vec)
    requires BatchLogit(net, a, h, c, k, logits)
    requires h.Some? ==> |h.value| >= |a| + |b|
    ensures BatchLogit(net, a + b, h, c, k, logits)
  {
    assert (a + b)[..k + 1] == a[..k + 1];
    CausalStackAgree(net.layers, a + b, h, a, h, k + 1);
    var whole := CausalStack(net.layers, a + b, h);
    assert whole[k] == whole[..k + 1][k];
  }

  /** The trace `tr`, run from the newest sample `x` after the history `pre`, is the greedy
      teacher-forced batch run. */
  ghost predicate Follows(net: Net, pre: seq<Vec>, x: Vec, h: Option<seq<Vec>>, c: int, tr: Trace)
    requires AllValid(net.layers) && net.classes >= 1
  {
    Greedy(net, x, tr) && Batched(net, pre, h, c, tr)
  }

  function ConsTrace(x: Vec, s: StepOut, rest: Trace): (tr: Trace)
  {
    Trace([x] + rest.inputs, [s.logits] + rest.logits, [s.sample] + rest.samples)
  }

  lemma GreedyCons(net: Net, x: Vec, s: StepOut, rest: Trace)
    requires net.classes >= 1
    requires |s.logits| == net.classes && s.sample == Sampling.ArgMax(s.logits)
    requires s.next == Encoding.OneHotVec(net.classes, s.sample)
    requires Greedy(net, s.next, rest)
    ensures Greedy(net, x, ConsTrace(x, s, rest))
  {
    var tr := ConsTrace(x, s, rest);
    forall i | 0 <= i < |tr.logits|
      ensures |tr.logits[i]| == net.classes && tr.samples[i] == Sampling.ArgMax(tr.logits[i])
    {
      if i > 0 {
        assert tr.logits[i] == rest.logits[i - 1] && tr.samples[i] == rest.samples[i - 1];
      }
    }
    forall i | 0 <= i < |tr.inputs| - 1
      ensures tr.inputs[i + 1] == Encoding.OneHotVec(net.classes, tr.samples[i])
    {
      if i > 0 {
        assert tr.inputs[i + 1] == rest.inputs[i] && tr.samples[i] == rest.samples[i - 1];
      }
    }
  }

  lemma BatchedCons(net: Net, pre: seq<Vec>, x: Vec, h: Option<seq<Vec>>, c: int, s: StepOut, rest: Trace)
    requires h.Some? ==> |h.value| >= |pre| + 1 + |rest.inputs|
    requires BatchLogit(net, pre + [x], h, c, |pre|, s.logits)
    requires Batched(net, pre + [x], h, c, rest)
    ensures Batched(net, pre, h, c, ConsTrace(x, s, rest))
  {
    var tr := ConsTrace(x, s, rest);
    assert pre + tr.inputs == (pre + [x]) + rest.inputs;
    forall i | 0 <= i < |tr.logits|
      ensures BatchLogit(net, pre + tr.inputs, h, c, |pre| + i, tr.logits[i])
    {
      if i == 0 {
        BatchLogitExtends(net, pre + [x], rest.inputs, h, c, |pre|, s.logits);
      } else {
        assert tr.logits[i] == rest.logits[i - 1];
      }
    }
  }

  /** The state before step `|pre|` of a run of `n` steps: a well-formed network, buffers in step
      with the history `pre`, and the padded conditioning `hp` built from `h`. */
  ghost predicate Ready(net: Net, bufs: seq<seq<Vec>>, pre: seq<Vec>, h: Option<seq<Vec>>, hp: Option<seq<Vec>>, n: nat)
  {
    && WellFormed(net) && AllValid(net.layers) && net.classes >= 1 && |pre| <= n
    && (h.None? ==> hp.None?)
    && (h.Some? ==> net.aux.Some? && |h.value| >= n && hp == Some(Silence(net.aux.value, net.rField) + h.value))
    && Synced(net.layers, bufs, pre, h)
  }

  /** The step output `s` decides on the batch stack's output at the newest position of `pre + [x]`. */
  ghost predicate Decides(net: Net, pre: seq<Vec>, x: Vec, h: Option<seq<Vec>>, c: int, s: StepOut)
    requires AllValid(net.layers) && net.classes >= 1 && (h.Some? ==> |h.value| > |pre|)
  {
    && BatchLogit(net, pre + [x], h, c, |pre|, s.logits)
    && |s.logits| == net.classes && s.sample == Sampling.ArgMax(s.logits)
    && s.next == Encoding.OneHotVec(net.classes, s.sample)
  }

  /** One step from a ready state succeeds and leaves a ready state. */
  lemma ReadyStep(net: Net, bufs: seq<seq<Vec>>, pre: seq<Vec>, x: Vec,
                  h: Option<seq<Vec>>, hp: Option<seq<Vec>>, n: nat, c: int) returns (s: StepOut)
    requires Ready(net, bufs, pre, h, hp, n) && |pre| < n
    ensures |bufs| == |net.layers| && Step(net, bufs, x, Window(hp, net.rField, |pre|), c) == Ok(s)
    ensures Ready(net, s.bufs, pre + [x], h, hp, n) && Decides(net, pre, x, h, c, s)
  {
    StepMatchesBatch(net, bufs, pre, x, h, hp, c);
    s := Step(net, bufs, x, Window(hp, net.rField, |pre|), c).value;
  }

  /** From any in-step state, the remaining steps succeed and follow the batch run. */
  lemma {:induction false} StepsMatchBatch(net: Net, bufs: seq<seq<Vec>>, pre: seq<Vec>, x: Vec,
                                          h: Option<seq<Vec>>, hp: Option<seq<Vec>>, n: nat, c: int)
    requires Ready(net, bufs, pre, h, hp, n)
    ensures AllValid(net.layers) && net.classes >= 1 && |bufs| == |net.layers|
    ensures var r := Steps(net, bufs, x, hp, |pre|, n, c);
      r.Ok? && Follows(net, pre, x, h, c, r.value)
    decreases n - |pre|
  {
    if |pre| < n {
      var s := ReadyStep(net, bufs, pre, x, h, hp, n, c);
      StepsMatchBatch(net, s.bufs, pre + [x], s.next, h, hp, n, c);
      FollowsCons(net, bufs, pre, x, h, hp, n, c, s);
    } else {
      StepsDone(net, bufs, pre, x, h, hp, n, c);
    }
  }

  /** No steps remain: the empty trace follows trivially. */
  lemma StepsDone(net: Net, bufs: seq<seq<Vec>>, pre: seq<Vec>, x: Vec,
                  h: Option<seq<Vec>>, hp: Option<seq<Vec>>, n: nat, c: int)
    requires Ready(net, bufs, pre, h, hp, n) && |pre| == n
    ensures AllValid(net.layers) && net.classes >= 1 && |bufs| == |net.layers|
    ensures var r := Steps(net, bufs, x, hp, |pre|, n, c);
      r.Ok? && Follows(net, pre, x, h, c, r.value)
  {
  }

  /** A step that decides on the batch output at the new position, followed by remaining steps that
      follow the batch run, makes the whole run follow it. */
  lemma FollowsCons(net: Net, bufs: seq<seq<Vec>>, pre: seq<Vec>, x: Vec,
                    h: Option<seq<Vec>>, hp: Option<seq<Vec>>, n: nat, c: int, s: StepOut)
    requires AllValid(net.layers) && net.classes >= 1 && |bufs| == |net.layers| && |pre| < n
    requires h.Some? ==> |h.value| >= n
    requires Step(net, bufs, x, Window(hp, net.rField, |pre|), c) == Ok(s)
    requires Decides(net, pre, x, h, c, s)
    requires var rest := Steps(net, s.bufs, s.next, hp, |pre + [x]|, n, c);
      rest.Ok? && Follows(net, pre + [x], s.next, h, c, rest.value)
    ensures var r := Steps(net, bufs, x, hp, |pre|, n, c);
      r.Ok? && Follows(net, pre, x, h, c, r.value)
  {
    StepsCons(net, bufs, x, hp, |pre|, n, c, s);
    var rest := Steps(net, s.bufs, s.next, hp, |pre| + 1, n, c).value;
    GreedyCons(net, x, s, rest);
    BatchedCons(net, pre, x, h, c, s, rest);
  }

  /** `fast_generate` with `argmax` from freshly zeroed buffers is the greedy teacher-forced batch
      run: it succeeds, starts from the seed (or, with conditioning, from the zero vector), feeds
      back each chosen class, and decides every step on the batch stack's output there. */
  lemma GenerateFollowsBatch(net: Net, numSamples: nat, h: Option<seq<Vec>>, c: int, seed: Vec)
    requires WellFormed(net) && net.classes >= 1
    requires h.Some? ==> net.aux.Some?
    ensures var r := GenerateTrace(net, numSamples, h, c, seed);
      r.Ok? && Follows(net, [], if h.None? then seed else Zeros(net.classes), h, c, r.value)
  {
    ZeroBuffersSynced(net.layers, h);
    var bufs := ZeroBuffers(net.layers);
    if h.None? {
      StepsMatchBatch(net, bufs, [], seed, h, None, numSamples, c);
    } else {
      var hp := Some(Silence(AuxWidth(net.aux), net.rField) + h.value);
      StepsMatchBatch(net, bufs, [], Zeros(net.classes), h, hp, |h.value|, c);
    }
  }

  /** The logits of every generated step are the scaled logits the padded batch `forward` computes
      at that position when given everything fed to the first layer. */
  lemma GenerateMatchesForward(net: Net, numSamples: nat, h: Option<seq<Vec>>, c: int, seed: Vec)
    requires WellFormed(net) && net.classes >= 1
    requires h.Some? ==> net.aux.Some? && |h.value| > 0
    requires h.None? ==> numSamples > 0
    ensures GenerateTrace(net, numSamples, h, c, seed).Ok?
    ensures var tr := GenerateTrace(net, numSamples, h, c, seed).value;
      var y := ForwardVecs(net, tr.inputs, h, true);
      && y.Ok? && |y.value| == |tr.logits|
      && forall i :: 0 <= i < |tr.logits| ==> tr.logits[i] == Sampling.Scale(y.value[i], c)
  {
    GenerateFollowsBatch(net, numSamples, h, c, seed);
    var tr := GenerateTrace(net, numSamples, h, c, seed).value;
    FollowsMatchesForward(net, if h.None? then seed else Zeros(net.classes), h, c, tr);
  }

  /** A trace that follows the batch run from the start has the padded batch pass's logits, scaled. */
  lemma FollowsMatchesForward(net: Net, x: Vec, h: Option<seq<Vec>>, c: int, tr: Trace)
    requires WellFormed(net) && net.classes >= 1 && |tr.inputs| > 0
    requires h.Some? ==> net.aux.Some? && |h.value| == |tr.inputs|
    requires Follows(net, [], x, h, c, tr)
    ensures var y := ForwardVecs(net, tr.inputs, h, true);
      && y.Ok? && |y.value| == |tr.logits|
      && forall i :: 0 <= i < |tr.logits| ==> tr.logits[i] == Sampling.Scale(y.value[i], c)
  {
    assert Conditionable(net.layers, h, |tr.inputs|);
    ForwardVecsIsCausal(net, tr.inputs, h);
    assert [] + tr.inputs == tr.inputs;
    assert Batched(net, [], h, c, tr);
  }

  /** Unconditioned generation seeded with class `s0` picks, at every step, the first
      maximal scaled logit of the padded batch `forward` over `s0` followed by the classes picked
      before that step. */
  lemma GenerateReplaysForward(net: Net, numSamples: nat, c: int, s0: nat)
    requires WellFormed(net) && s0 < net.classes && numSamples > 0
    ensures FastGenerate(net, numSamples, None, c, s0).Ok?
    ensures var out := FastGenerate(net, numSamples, None, c, s0).value;
      var y := FFTNet.Forward(net, [s0 as int] + out[..numSamples - 1], None, true);
      && y.Ok? && |y.value| == numSamples
      && forall i :: 0 <= i < numSamples ==> |y.value[i]| == net.classes && out[i] == Sampling.ArgMax(Sampling.Scale(y.value[i], c))
  {
    var seed := Encoding.OneHotVec(net.classes, s0);
    GenerateFollowsBatch(net, numSamples, None, c, seed);
    var tr := GenerateTrace(net, numSamples, None, c, seed).value;
    FollowsReplaysForward(net, s0, c, tr);
  }

  /** A trace that follows the unconditioned batch run from the code of `s0` holds the greedy classes
      of the padded batch `forward` over `s0` followed by the classes before each step. */
  lemma FollowsReplaysForward(net: Net, s0: nat, c: int, tr: Trace)
    requires WellFormed(net) && s0 < net.classes && |tr.inputs| > 0
    requires Follows(net, [], Encoding.OneHotVec(net.classes, s0), None, c, tr)
    ensures var n := |tr.samples|;
      var y := FFTNet.Forward(net, [s0 as int] + tr.samples[..n - 1], None, true);
      && y.Ok? && |y.value| == n
      && forall i :: 0 <= i < n ==> |y.value[i]| == net.classes && tr.samples[i] == Sampling.ArgMax(Sampling.Scale(y.value[i], c))
  {
    var n := |tr.samples|;
    FollowsMatchesForward(net, Encoding.OneHotVec(net.classes, s0), None, c, tr);
    var wave: seq<int> := [s0 as int] + tr.samples[..n - 1];
    var x := Encoding.OneHotSeq(net.classes, wave);
    assert x.Ok?;
    forall t | 0 <= t < n
      ensures x.value[t] == tr.inputs[t]
    {
      if t > 0 {
        assert wave[t] == tr.samples[t - 1];
      }
    }
    assert x.value == tr.inputs;
  }
}
