/** The per-layer generation buffers of `fast_generate`: a fixed-length window over the layer's
    most recent inputs, oldest first, updated by dropping the oldest entry and appending the newest. */
module Buffers {

  import opened Signal

  /** `torch.cat((buf[:, :, 1:], x), 2)`: drop the oldest step, shift left, put `x` last. */
  function Shift<T>(buf: seq<T>, x: T): (b: seq<T>)
    ensures |b| == if |buf| == 0 then 1 else |buf|
    ensures b[|b| - 1] == x
  {
    (if |buf| == 0 then [] else buf[1..]) + [x]
  }

  /** The buffer after feeding it `xs`, one shift per element. */
  function Feed<T>(buf: seq<T>, xs: seq<T>): (b: seq<T>)
    decreases |xs|
  {
    if |xs| == 0 then buf else Feed(Shift(buf, xs[0]), xs[1..])
  }

  /** Shifting the last `n` entries of a history is taking the last `n` entries of the extended history. */
  lemma ShiftLast<T>(s: seq<T>, n: nat, x: T)
    requires 1 <= n <= |s|
    ensures Shift(Last(s, n), x) == Last(s + [x], n)
  {
    assert Shift(Last(s, n), x) == s[|s| - n + 1..] + [x];
    assert Last(s + [x], n) == (s + [x])[|s| + 1 - n..];
  }

  /** A non-empty buffer fed `xs` keeps its length and holds the last `|buf|` entries of `buf ++ xs`. */
  lemma {:induction false} FeedIsLast<T>(buf: seq<T>, xs: seq<T>)
    requires |buf| > 0
    ensures |Feed(buf, xs)| == |buf|
    ensures Feed(buf, xs) == Last(buf + xs, |buf|)
    decreases |xs|
  {
    if |xs| == 0 {
      assert buf + xs == buf;
    } else {
      var b := Shift(buf, xs[0]);
      assert b == Last(buf + [xs[0]], |buf|) by {
        assert buf == Last(buf, |buf|);
        ShiftLast(buf, |buf|, xs[0]);
      }
      FeedIsLast(b, xs[1..]);
      var u := buf + [xs[0]];
      assert buf + xs == u + xs[1..];
      LastOfLast(u, xs[1..], |buf|);
    }
  }

  /** Only the last `n` entries of a history matter for the last `n` entries of its extension. */
  lemma LastOfLast<T>(u: seq<T>, v: seq<T>, n: nat)
    requires n <= |u|
    ensures Last(Last(u, n) + v, n) == Last(u + v, n)
  {
    var a := Last(u, n) + v;
    var b := u + v;
    forall i | 0 <= i < n
      ensures Last(a, n)[i] == Last(b, n)[i]
    {
      var j := |v| + i;
      if j < n {
        assert Last(a, n)[i] == a[j] == u[|u| - n + j];
      } else {
        assert Last(a, n)[i] == v[j - n];
      }
    }
  }

  /** A zeroed buffer of length `n` fed `xs` holds the last `n` steps of the signal `xs`
      preceded by `n` steps of silence. */
  lemma FeedSilence(width: nat, n: nat, xs: seq<Vec>)
    requires n > 0
    ensures Feed(Silence(width, n), xs) == Last(Silence(width, n) + xs, n)
  {
    FeedIsLast(Silence(width, n), xs);
  }
}
