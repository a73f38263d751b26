/** Incremental generation, `general_FFTNet.fast_generate` with the greedy (`argmax`) policy:
    one zeroed shift buffer per layer; at every step each layer's buffer takes the newest sample
    and the layer runs unpadded over the whole buffer, producing the next layer's newest sample. */
module Generation {

  import opened Results
  import opened Signal
  import opened FFTLayer
  import opened FFTNet
  import Buffers
  import Encoding
  import Sampling

  /** One generation run, step by step: the vector fed to the first layer, the scaled logits and the
      chosen class. The source keeps only the classes; the other two are recorded to state what the
      classes were computed from. */
  datatype Trace = Trace(inputs: seq<Vec>, logits: seq<Vec>, samples: seq<nat>)

  /** `buf.fill_(0.)` on every buffer: layer j's buffer holds `N - N // r + 1` silent steps. */
  function ZeroBuffers(layers: seq<Layer>): (bufs: seq<seq<Vec>>)
    requires AllValid(layers)
    ensures |bufs| == |layers|
    ensures forall j :: 0 <= j < |layers| ==> |bufs[j]| == BufferLength(layers[j])
    ensures forall j, i :: 0 <= j < |layers| && 0 <= i < |bufs[j]| ==> bufs[j][i] == Zeros(layers[j].inChannels)
  {
    seq(|layers|, j requires 0 <= j < |layers| => Silence(layers[j].inChannels, BufferLength(layers[j])))
  }

  /** The inner loop of one generation step: each layer's buffer is shifted to take the newest
      sample, and the layer's unpadded output over the buffer (which must be one step wide) is the
      next layer's newest sample. Returns the new buffers and the last layer's output. */
  function StepLayers(layers: seq<Layer>, bufs: seq<seq<Vec>>, x: Vec, hw: Option<seq<Vec>>)
    : (r: Result<(seq<seq<Vec>>, Vec)>)
    requires AllValid(layers) && |bufs| == |layers|
    ensures r.Ok? ==> |r.value.0| == |layers|
    ensures r.Ok? ==> forall j :: 0 <= j < |layers| && |bufs[j]| > 0 ==> |r.value.0[j]| == |bufs[j]|
    decreases |layers|
  {
    if |layers| == 0 then Ok(([], x))
    else
      var b := Buffers.Shift(bufs[0], x);
      var out :- FFTLayer.Forward(layers[0], b, hw, false);
      if |out| != 1 then Err(WideOutput)
      else
        var rest :- StepLayers(layers[1..], bufs[1..], out[0], hw);
        Ok(([b] + rest.0, rest.1))
  }

  /** What step `t` sees of the padded conditioning, when there is one: `h[:, :, :pos]` with
      `pos = r_field + 1 + t`, the padding `pad` being `r_field`. */
  function Window(hp: Option<seq<Vec>>, pad: nat, t: nat): (w: Option<seq<Vec>>)
  {
    if hp.None? then None else Some(Prefix(hp.value, pad + 1 + t))
  }

  /** The greedy decision of one step: the projected output scaled by `c`, its first maximal class
      (`max` fails on an empty logit vector), and that class's one-hot code for the next step. */
  function Decide(net: Net, y: Vec, c: int): (r: Result<(Vec, nat, Vec)>)
    ensures r.Ok? <==> net.classes > 0
    ensures r.Ok? ==> |r.value.0| == net.classes && r.value.1 == Sampling.ArgMax(r.value.0)
    ensures r.Ok? ==> r.value.1 < net.classes
  {
    var logits := Sampling.Scale(Project(net, y), c);
    if |logits| == 0 then Err(EmptyLogits)
    else
      var k := Sampling.ArgMax(logits);
      Ok((logits, k, Encoding.OneHotVec(net.classes, k)))
  }

  /** The code fed back to the next step is the encoder's row for the chosen class, and decoding it
      with `argmax` gives that class back. */
  lemma DecideFeedsBack(net: Net, y: Vec, c: int)
    requires net.classes > 0
    ensures Decide(net, y, c).Ok?
    ensures Encoding.OneHot(net.classes, Decide(net, y, c).value.1) == Ok(Decide(net, y, c).value.2)
    ensures Sampling.ArgMax(Decide(net, y, c).value.2) == Decide(net, y, c).value.1
  {
    var d := Decide(net, y, c).value;
    Sampling.ArgMaxOneHot(net.classes, d.1);
  }

  /** What one step yields: the new buffers, the scaled logits, the chosen class and its one-hot code. */
  datatype StepOut = StepOut(bufs: seq<seq<Vec>>, logits: Vec, sample: nat, next: Vec)

  /** One step of the outer loop at step `t`: run the layers on the newest sample `x` with the
      conditioning window up to `pos = r_field + 1 + t`, then decide a class. */
  function Step(net: Net, bufs: seq<seq<Vec>>, x: Vec, hw: Option<seq<Vec>>, c: int): (r: Result<StepOut>)
    requires AllValid(net.layers) && |bufs| == |net.layers|
    ensures r.Ok? ==> |r.value.bufs| == |net.layers| && r.value.sample < net.classes
  {
    Finish(net, StepLayers(net.layers, bufs, x, hw), c)
  }

  /** The rest of a step once the layers have run: a layer failure propagates, otherwise the step
      decides on the last layer's output and keeps the new buffers. */
  function Finish(net: Net, st: Result<(seq<seq<Vec>>, Vec)>, c: int): (r: Result<StepOut>)
    ensures r.Ok? ==> st.Ok? && r.value.bufs == st.value.0 && r.value.sample < net.classes
    ensures r.Ok? ==> r.value.logits == Sampling.Scale(Project(net, st.value.1), c)
    ensures st.Ok? ==> (r.Ok? <==> net.classes > 0)
  {
    var s :- st;
    var d :- Decide(net, s.1, c);
    Ok(StepOut(s.0, d.0, d.1, d.2))
  }

  /** The outer loop from step `t` up to `n`: take a step and feed the chosen class's one-hot code
      back as the next newest sample. */
  function Steps(net: Net, bufs: seq<seq<Vec>>, x: Vec, hp: Option<seq<Vec>>, t: nat, n: nat, c: int)
    : (r: Result<Trace>)
    requires AllValid(net.layers) && |bufs| == |net.layers| && t <= n
    ensures r.Ok? ==> |r.value.inputs| == |r.value.logits| == |r.value.samples| == n - t
    ensures r.Ok? ==> forall i :: 0 <= i < n - t ==> r.value.samples[i] < net.classes
    decreases n - t
  {
    if t == n then Ok(Trace([], [], []))
    else
      var s :- Step(net, bufs, x, Window(hp, net.rField, t), c);
      var rest :- Steps(net, s.bufs, s.next, hp, t + 1, n, c);
      Ok(Trace([x] + rest.inputs, [s.logits] + rest.logits, [s.sample] + rest.samples))
  }

  /** `fast_generate` with `method='argmax'`, recording the trace. Without conditioning it runs
      `numSamples` steps from the first sample `seed`; with conditioning
      `h` it pads `h` by `r_field` silent steps, runs one step per step of `h`, and starts from the
      zero vector the zeroed first buffer holds. */
  function GenerateTrace(net: Net, numSamples: nat, h: Option<seq<Vec>>, c: int, seed: Vec): (r: Result<Trace>)
    requires WellFormed(net)
    ensures r.Ok? ==> |r.value.samples| == if h.None? then numSamples else |h.value|
  {
    var bufs := ZeroBuffers(net.layers);
    if h.None? then Steps(net, bufs, seed, None, 0, numSamples, c)
    else Steps(net, bufs, Zeros(net.classes), Some(Silence(AuxWidth(net.aux), net.rField) + h.value), 0, |h.value|, c)
  }

  /** The unconditioned seeding as written, `sample[randint(0, classes - 1)] = 1.`: the zero
      `sample` has shape `(1, classes)`, so the draw `k` indexes the batch axis. Only `k == 0` is in
      range, and it sets every class of the sample to 1. */
  function SeedAsWritten(classes: nat, k: int): (r: Result<Vec>)
    ensures r.Ok? <==> k == 0
    ensures r.Ok? ==> |r.value| == classes && forall i :: 0 <= i < classes ==> r.value[i] == 1
  {
    if k == 0 then Ok(seq(classes, _ => 1)) else Err(IndexOutOfRange)
  }

  /** Every draw but 0 fails, and draw 0 gives a vector that is no class's one-hot code once there
      are two classes or more. */
  lemma SeedAsWrittenIsNoCode(classes: nat, k: int)
    requires classes >= 2 && 0 <= k <= classes - 1
    ensures SeedAsWritten(classes, k).Ok? <==> k == 0
    ensures SeedAsWritten(classes, k).Ok? ==>
      forall x :: 0 <= x < classes ==> SeedAsWritten(classes, k).value != Encoding.OneHotVec(classes, x)
  {
    if k == 0 {
      var v := SeedAsWritten(classes, k).value;
      forall x | 0 <= x < classes
        ensures v != Encoding.OneHotVec(classes, x)
      {
        var y := if x == 0 then 1 else 0;
        assert v[y] == 1 != Encoding.OneHotVec(classes, x)[y];
      }
    }
  }

  /** With 256 classes the draw 5 raises instead of seeding class 5. */
  lemma SeedAsWrittenDrawFive()
    ensures SeedAsWritten(256, 5) == Err(IndexOutOfRange)
  {
  }

  /** The seeding the source evidently means, `sample[0, k] = 1.`: the one-hot code of class `k`. */
  function Seed(classes: nat, k: int): (r: Result<Vec>)
    ensures r.Ok? <==> 0 <= k < classes
    ensures r.Ok? ==> r == Encoding.OneHot(classes, k) && Encoding.Sum(r.value) == 1
  {
    if 0 <= k < classes then
      Encoding.OneHotSumsToOne(classes, k);
      Ok(Encoding.OneHotVec(classes, k))
    else Err(IndexOutOfRange)
  }

  /** `fast_generate` with `method='argmax'`: the generated classes, one per step. Without
      conditioning the first sample is the code of the draw `k`; with conditioning no draw is made. */
  function FastGenerate(net: Net, numSamples: nat, h: Option<seq<Vec>>, c: int, k: int): (r: Result<seq<nat>>)
    requires WellFormed(net)
    ensures h.None? && !(0 <= k < net.classes) ==> r.Err?
    ensures r.Ok? ==> |r.value| == if h.None? then numSamples else |h.value|
    ensures r.Ok? ==> forall i :: 0 <= i < |r.value| ==> r.value[i] < net.classes
  {
    var seed :- if h.None? then Seed(net.classes, k) else Ok(Zeros(net.classes));
    var tr :- GenerateTrace(net, numSamples, h, c, seed);
    Ok(tr.samples)
  }
}
