# FFTNet generator core in Dafny

This project models the generator of FFTNet, a neural vocoder (`models.py`). The generator predicts
quantized audio samples one class at a time. The model covers these parts:

- the one-hot encoder `One_Hot`;
- one dilated FFT layer `general_FFTLayer`: its dilation `N // r`, its causal left padding
  `N - N // r`, the trimming of the conditioning to the input's last `M` steps, and the
  unpadded call used during generation;
- the network `general_FFTNet`: the schedule `N_seq` (suffix products of the radix list, or
  prefix products with `transpose`), the receptive field `r_field`, the per-layer buffer
  length `N - N // r + 1`, and the batch `forward` pass;
- the greedy policy `argmax`;
- the incremental generator `fast_generate` with `method='argmax'`. It keeps one zeroed shift
  buffer per layer. At each step every buffer drops its oldest step and takes the newest sample.
  The layer then runs unpadded over the whole buffer. The scaled logits give the next class.

The weights are kept abstract. A layer's two convolutions, its ReLUs and its pointwise output
convolution together form one `Cell`. A cell is a function of the layer's `radix` input taps and,
when the call is conditioned, its `radix` conditioning taps. `fc_out` is a function from a class
and an output vector to a logit. Everything else is modelled exactly: which time steps each output
reads, lengths, padding, broadcasting, and error cases.

The main result is `Incremental.GenerateMatchesForward`. Starting from zeroed buffers, the
incremental generator produces at every step exactly the scaled logits of the padded batch
`forward`, run over the samples actually fed to the first layer. The proof rests on these facts:

- the padded layer equals a causal reference layer (`FFTLayer.ForwardIsCausal`);
- each shift buffer always holds the last span of its layer's silence-padded input
  (`Incremental.Synced`, `Incremental.StepSynced`);
- for an exact layer, the buffer length, the kernel span, and the padding plus one coincide
  (`FFTLayer.ExactSizes`).

Files, one module each:

- `results.dfy`: `Option`, `Result` and the errors. Each error stands for an exception the Python
  code raises. `WideOutput` is a generation step whose layer output is wider than one step. The
  source folds the extra steps into channels with `sample.view(1, -1, 1)` (models.py:117). It then
  raises a size mismatch in the next layer's `torch.cat`, or after the last layer in `fc_out`
  (models.py:120) unless the width happens to equal `fft_channels`. The model does not track channel
  widths, so it reports the error at the layer. The case cannot arise for a built network
  (`Incremental.StepSynced` proves every step succeeds).
- `signal.dfy`: time-axis signals and the Python slice forms used on them.
- `arith.dfy`: small facts about multiplication and division.
- `schedule.dfy`: `N_seq` and `r_field`.
- `layer.dfy`: the FFT layer and its causal reference.
- `buffers.dfy`: the buffer shift.
- `encoding.dfy`: `One_Hot`.
- `sampling.dfy`: `argmax` and the scaling by `c`.
- `net.dfy`: construction and the batch `forward`.
- `generation.dfy`: `fast_generate`.
- `incremental.dfy`: the proof that generation agrees with the batch pass.

## Model

| member | source | states |
|---|---|---|
| Schedule.NSeq | models.py:55-58 | `N_seq` has one entry per radix. |
| Schedule.SuffixSchedule | models.py:58-59 | Default orientation: `N_seq[0]` is `r_field`, the last entry is the last radix, and each entry is its radix times the next entry. |
| Schedule.PrefixSchedule | models.py:55-59 | With `transpose`: the first entry is the first radix, the last is `r_field`, and each entry is the previous one times its own radix. |
| Schedule.ScheduleBounds | models.py:55-59 | In both orientations each `N_seq` entry is a multiple of its radix, at least that radix and at most `r_field`. So the dilation `N // r` is exact and positive. |
| Schedule.FourRadixTwo | models.py:55-59 | Radixes `[2, 2, 2, 2]` give `r_field` 16, sizes 16, 8, 4, 2 by default and 2, 4, 8, 16 with `transpose`. |
| FFTLayer.Dilation | models.py:31 | The tap spacing `N // radix` lies between 1 and `N` for a valid layer. |
| FFTLayer.ExactSizes | models.py:31-35 | When `radix` divides `N`: the padding `N - N // r` is the kernel span minus one, the buffer length `N - N // r + 1` is exactly one span, and the span is at most `N`. |
| FFTLayer.RadixTwoBuffers | models.py:72 | Radix-2 layers of sizes 2, 4, 8, 16 get buffers of 2, 3, 5, 9 steps. |
| FFTLayer.Forward | models.py:37-46 | An input (padded or not) shorter than the span fails. Without conditioning, any longer input succeeds. Conditioning a layer without auxiliary weights fails. The output length is the padded length minus the span plus one. |
| FFTLayer.ForwardIsCausal | models.py:37-46 | With `zeropad`, the layer equals the causal reference layer on the input and on the conditioning cut to its last `M` steps. Output `t` reads the inputs at `t - (r-1)d, ..., t` with zeros before time 0, and the output keeps the input's length. |
| FFTLayer.PaddedTaps | models.py:35-39 | The taps of the silence-padded signal at `t` are the causal taps of the signal itself. |
| FFTLayer.CausalOutAgree | models.py:37-46 | Causality of one layer: inputs and conditionings that agree on their first `k` steps give outputs that agree on their first `k` steps. |
| FFTLayer.ForwardOneSpan | models.py:118 | The unpadded call on a buffer of exactly one span yields exactly one output, computed from the buffer's taps and the last span of the conditioning. |
| FFTLayer.WindowStep | models.py:128-129 | The unpadded call on the last span of a silence-padded history, with the conditioning window of that step, yields one output: the reference layer's output at the newest step. |
| Signal.Trailing | models.py:44 | `h[:, :, -M:]` is the last `M` steps of `h`; it is all of `h` when `h` is shorter than `M`, and also when `M` is 0. |
| Signal.Prefix | models.py:129 | `h[:, :, :pos]` has `pos` steps (all of `h` when it is shorter), and each is the step of `h` at the same position. |
| Buffers.Shift | models.py:117 | Shifting a buffer keeps its length (a buffer of length 0 becomes length 1) and puts the new sample last. |
| Buffers.ShiftLast | models.py:117 | Shifting the last `n` steps of a history gives the last `n` steps of the extended history. |
| Buffers.FeedIsLast | models.py:115-118 | After any number of shifts a buffer keeps its length and holds the last `|buf|` entries of its initial contents followed by everything fed. |
| Buffers.FeedSilence | models.py:101-102 | A zeroed buffer of length `n` that has been fed `xs` holds the last `n` steps of silence followed by `xs`. |
| Encoding.OneHot | models.py:17-19 | Encoding succeeds exactly for indices in `[0, depth)`. The result has `depth` entries, 1 at the index and 0 elsewhere. |
| Encoding.OneHotSeq | models.py:17-19 | Encoding a waveform succeeds exactly when every index is in range, keeps the time length, and gives each step its row of the identity table. |
| Encoding.OneHotSumsToOne | models.py:15 | A one-hot row sums to exactly 1. |
| Encoding.OneHotInjective | models.py:15 | Distinct classes get distinct rows. |
| Encoding.OneHotSeqPrefix | models.py:17-19 | Encoding a prefix of a waveform gives the prefix of its encoding. |
| Sampling.ArgMax | models.py:92-94 | The chosen index is in range, its logit is maximal, and every earlier logit is strictly smaller (the first maximum). |
| Sampling.ArgMaxUnique | models.py:92-94 | Determinism: any index that is in range, maximal and first among the maxima is the one `ArgMax` picks. |
| Sampling.ArgMaxOneHot | models.py:121-123 | Taking `argmax` of the one-hot row of a class gives that class back. |
| Sampling.ArgMaxEncodable | models.py:121-123 | The greedy choice on a full-width logit vector is always a class the encoder accepts. |
| FFTNet.Build | models.py:50-77 | Construction fails on an empty radix list and on a radix below 1, and succeeds otherwise. The built network is well formed: one exact layer per radix, sized by `N_seq` in the chosen orientation, `r_field` the product, the first layer reading `classes` channels and the rest `fft_channels`. |
| FFTNet.BuiltNetWellFormed | models.py:66-73 | Every layer the constructor assembles is exact and no larger than the receptive field. |
| FFTNet.Project | models.py:84 | `fc_out` yields one logit per class. |
| FFTNet.Forward | models.py:79-85 | A waveform holding a class outside `[0, classes)` fails in the one-hot encoder (models.py:19), and a successful pass means every class was in range. Every output step holds one logit per class. |
| FFTNet.StackIsCausal | models.py:81-82 | The padded layer loop equals the composition of the causal reference layers and keeps the input's length. |
| FFTNet.CausalStackAgree | models.py:81-82 | Causality of the whole stack: inputs and conditionings that agree on their first `k` steps give outputs that agree on their first `k` steps. |
| FFTNet.ForwardVecsIsCausal | models.py:81-85 | After encoding, the padded pass succeeds, keeps the length, and at each step projects the reference stack's output. |
| FFTNet.ForwardPaddedIsCausal | models.py:79-85 | The padded `forward` on a waveform of valid classes succeeds, keeps its length, and at each step projects the reference stack run on the one-hot encoding. |
| FFTNet.ForwardCausal | models.py:79-85 | Causality of `forward`: two waveforms whose first `t + 1` classes and conditionings agree get the same logits at step `t`. |
| Generation.ZeroBuffers | models.py:101-102 | One buffer per layer, of length `N - N // r + 1` for that layer, every step of it a zero vector of the layer's input width. |
| Generation.StepLayers | models.py:116-118 | A successful layer loop gives one buffer per layer, and every non-empty buffer keeps its length. |
| Generation.Step | models.py:116-123 | A successful step keeps one buffer per layer and chooses a valid class. |
| Generation.Decide | models.py:120-121 | The decision succeeds exactly when there is at least one class. The logits have one entry per class, and the sample is their `argmax`, a valid class. |
| Generation.DecideFeedsBack | models.py:121-123 | The vector fed to the next step is the encoder's row for the chosen class, and `argmax` of it gives the class back. |
| Generation.Finish | models.py:120-123 | After a successful layer loop, the step succeeds exactly when there is a class. It keeps the loop's buffers, its logits are `fc_out` of the last layer's output scaled by `c`, and its class is valid. A failed loop fails the step. |
| Generation.Steps | models.py:115-123 | A run of steps `t` to `n` records `n - t` inputs, logits and classes, each class valid. |
| Generation.GenerateTrace | models.py:99-134 | A successful run yields `num_samples` classes without conditioning and one per conditioning step with it. |
| Generation.SeedAsWritten | models.py:110-114 | The seeding as written succeeds exactly for draw 0, and then sets every one of the `classes` entries to 1. |
| Generation.SeedAsWrittenIsNoCode | models.py:110-114 | As written, every draw except 0 fails. Draw 0 gives a vector that is no class's one-hot row. |
| Generation.SeedAsWrittenDrawFive | models.py:114 | With 256 classes, draw 5 raises. |
| Generation.Seed | models.py:114 | The corrected seeding succeeds exactly for draws in `[0, classes)` and gives the encoder's row for that class, which sums to 1. |
| Generation.FastGenerate | models.py:99-137 | Unconditioned generation with an out-of-range draw fails. A successful run yields `num_samples` or `h.size(2)` classes, each valid. |
| Incremental.ZeroBuffersSynced | models.py:101-102 | Freshly zeroed buffers are in step with the empty history: each holds one span of silence. |
| Incremental.LayerStep | models.py:127-129 | One layer's part of a step: the shifted buffer is the last span of the extended history, and the layer's single output is the reference output at the new step. |
| Incremental.WindowOfPadded | models.py:125-129 | The window `h[:, :, :r_field + 1 + t]` of the padded conditioning is `r_field` silent steps followed by the conditioning up to step `t`. |
| Incremental.StepSynced | models.py:127-129 | A layer loop from in-step buffers succeeds and leaves the buffers in step. The last layer's output is the reference stack's output at the new step. |
| Incremental.StepMatchesBatch | models.py:126-134 | One step from in-step buffers succeeds and leaves them in step. Its logits are the batch stack's scaled logits at the new step, its class is their `argmax`, and the next input is that class's row. |
| Incremental.StepsMatchBatch | models.py:126-134 | From any in-step state, the remaining steps succeed and form the greedy, teacher-forced batch run. |
| Incremental.BatchLogitExtends | models.py:79-85 | Feeding more input after step `k` leaves the batch logits at `k` unchanged. |
| Incremental.GenerateFollowsBatch | models.py:99-134 | From zeroed buffers generation succeeds. It starts from the seed (or the zero vector when conditioned), feeds back each chosen class, and decides each step on the batch stack's output there. |
| Incremental.GenerateMatchesForward | models.py:99-134 | Every step's logits equal the padded batch `forward`'s logits at that step, scaled by `c`, computed over everything fed to the first layer. |
| Incremental.GenerateReplaysForward | models.py:113-123 | Unconditioned generation seeded with class `s0` picks at each step the first maximal scaled logit of the padded `forward` over `s0` followed by the classes picked so far. |

## Left out

- Floating point: activations and logits are integers, and the weights are the abstract `Cell` and `logit` functions. The equality proved between the two paths is therefore exact rather than within a tolerance.
- `conditional_sampling` (softmax and categorical sampling) is random and is not modelled. Only the `argmax` policy is.
- `class2float` is not modelled. Generation here returns class indices.
- The random draw `randint(0, classes - 1)` is a parameter `k` of `Generation.FastGenerate`.
- Generation.FastGenerate: seeds unconditioned generation with the corrected `Generation.Seed` of the Findings table, so a draw `k` in `[1, classes)` succeeds where the source raises `IndexError`. `Incremental.GenerateReplaysForward` is likewise a property of the corrected seeding. The count `numSamples` is a natural number, so it cannot express `num_samples=None` (the source's `range(None)` raises `TypeError`) or a negative count (the source runs zero steps).
- The batch and channel axes of the tensors are not modelled. A signal is one vector per time step with a single batch element, and channel counts are recorded but not checked against weight shapes.
- Tensor aliasing is not modelled. The source's `sample` is a view of buffer 0, and `torch.cat(..., out=buffer)` writes into a tensor it also reads. The model treats the first conditioned sample as the zero vector the zeroed buffer holds, and the concatenation as a fresh value. The corrected seeding `Generation.Seed` is likewise a fresh vector; in the source, even `sample[0, k] = 1.` would write through that view into buffer 0.
- `preprocess.py` and `train.py` are not part of this model.
- FFTNet.Build: radix 1 and fewer than two classes are accepted; the source checks neither. Zero classes are accepted by construction. Every forward pass on a non-empty waveform then fails in the encoder (`IndexOutOfRange`), unconditioned generation fails at the draw (the source's `randint(0, -1)` raises), and only conditioned generation fails at `argmax` (`EmptyLogits`).
- Schedule.FourRadixTwo: with `transpose` the buffers are 2, 3, 5, 9 steps (9, 5, 3, 2 by default); no layer's buffer holds 16 steps. The batch pass and the buffers use the same `N_seq`, as in the source.
- Generation.StepLayers: only the length of each buffer is stated in its contract. The buffers' contents are stated by `Incremental.StepSynced`.
- Generation.Decide: `c` is an integer scale, not a float.
- Signal.Zeros, Signal.Silence: state lengths only. Their contents are used through their definitions.
- Buffers.Shift: states only the length and the newest entry. The dropped oldest step and the kept contents are stated by `Buffers.ShiftLast` (and `Buffers.FeedIsLast` for repeated shifts).
- Schedule.NSeq: states only the number of entries. The entries are stated by `Schedule.SuffixSchedule`, `Schedule.PrefixSchedule` and `Schedule.ScheduleBounds`.
- Generation.Step: states only the number of buffers and that the class is valid. The buffers' contents, the logits and the class are stated by `Incremental.StepMatchesBatch`.
- FFTNet.Forward: states the encoder's failure and the logit width. The logits' values under padding are stated by `FFTNet.ForwardPaddedIsCausal`; the unpadded call (`zeropad=False`) is stated only through `FFTLayer.Forward`.

## Findings

| source | as written | input that shows it | evidently intended | confidence | as-written member | corrected member |
|---|---|---|---|---|---|---|
| models.py:110-114 | `sample` is `buffers[0][:, :, 0]`, of shape `(1, classes)`, so `sample[randint(0, classes - 1)] = 1.` indexes the batch axis. Any draw above 0 raises `IndexError`. Draw 0 sets every class to 1. | 256 classes, draw 5 | `sample[0, k] = 1.`: seed generation with the one-hot row of a random class | high; not executed | Generation.SeedAsWrittenIsNoCode | Generation.Seed |
