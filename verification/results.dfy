/** Failure-compatible wrappers shared by the whole model, and the ways a call can fail.
    Each error stands for an exception the Python/torch code raises. `WideOutput` is reported
    earlier than the source raises it, see its comment. */
module Results {

  datatype Option<+T> = None | Some(value: T)

  datatype Error =
    | EmptySchedule      // `reduce(mul, [])` when the radix list is empty
    | BadRadix           // a radix below 1: zero division or a negative kernel size in the layer constructor
    | IndexOutOfRange    // a class index outside [0, depth) reaching the identity table of the one-hot encoder
    | InputTooShort      // a dilated convolution whose input is shorter than the kernel span
    | MissingAuxWeights  // conditioning passed to a layer built without auxiliary (V_lr) weights
    | ShapeMismatch      // time axes that cannot be broadcast together
    | WideOutput         // a generation step's layer output wider than one step. The source folds the extra steps
                         // into channels (`view(1, -1, 1)`) and then raises a size mismatch in the next layer's
                         // `torch.cat`, or after the last layer in `fc_out` (unless the width happens to equal
                         // `fft_channels`). The model does not track channel widths and reports it at the layer.
                         // Unreachable for a built network, whose buffers are one span each
    | EmptyLogits        // `max` over an empty logit vector

  datatype Result<+T> = Ok(value: T) | Err(error: Error) {

    predicate IsFailure() {
      Err?
    }

    function PropagateFailure<U>(): Result<U>
      requires Err?
    {
      Err(error)
    }

    function Extract(): T
      requires Ok?
    {
      value
    }
  }
}
