/** Signals: one vector of channel values per time step, with the zero padding and the
    Python slicing forms the network uses on the time axis. */
module Signal {

  /** The channel values of one time step. */
  type Vec = seq<int>

  /** The all-zero vector of the given width. */
  function Zeros(width: nat): (v: Vec)
    ensures |v| == width
  {
    seq(width, _ => 0)
  }

  /** `n` silent time steps of the given width (a zero padding, or a freshly zeroed buffer). */
  function Silence(width: nat, n: nat): (s: seq<Vec>)
    ensures |s| == n
  {
    seq(n, _ => Zeros(width))
  }

  /** The value of a signal at time `i`, reading `zero` before time 0. */
  function Tap(s: seq<Vec>, i: int, zero: Vec): (v: Vec)
    requires i < |s|
  {
    if i < 0 then zero else s[i]
  }

  /** The last `n` entries of `s`. */
  function Last<T>(s: seq<T>, n: nat): (r: seq<T>)
    requires n <= |s|
    ensures |r| == n
  {
    s[|s| - n..]
  }

  /** Python's `s[-m:]` along time: the last `m` entries, all of `s` when it is shorter,
      and all of `s` for `m == 0` too, since `-0` is `0`. */
  function Trailing<T>(s: seq<T>, m: nat): (r: seq<T>)
    ensures |r| == if m == 0 || |s| <= m then |s| else m
    ensures 0 < m <= |s| ==> r == Last(s, m)
    ensures m == 0 || |s| <= m ==> r == s
  {
    if m == 0 || |s| <= m then s else s[|s| - m..]
  }

  /** Python's `s[:k]` along time, for `k >= 0`. */
  function Prefix<T>(s: seq<T>, k: nat): (r: seq<T>)
    ensures |r| == if k <= |s| then k else |s|
    ensures forall i :: 0 <= i < |r| ==> r[i] == s[i]
  {
    if k <= |s| then s[..k] else s
  }

  /** Reading a silence-padded signal is reading the signal with zeros before time 0. */
  lemma PaddedIndex(width: nat, a: nat, s: seq<Vec>, j: int)
    requires 0 <= j < a + |s|
    ensures (Silence(width, a) + s)[j] == Tap(s, j - a, Zeros(width))
  {
  }

  /** The last `n` entries of a silence-padded signal, read through `Tap`. */
  lemma LastOfPadded(width: nat, a: nat, s: seq<Vec>, n: nat, i: nat)
    requires n <= a + |s| && i < n
    ensures Last(Silence(width, a) + s, n)[i] == Tap(s, |s| - n + i, Zeros(width))
  {
    PaddedIndex(width, a, s, a + |s| - n + i);
  }

  /** `Tap` before the end of a prefix reads the same in the prefix and in the whole signal. */
  lemma TapPrefix(s: seq<Vec>, k: nat, i: int, zero: Vec)
    requires k <= |s| && i < k
    ensures Tap(s[..k], i, zero) == Tap(s, i, zero)
  {
  }
}
