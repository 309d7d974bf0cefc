// Types and arithmetic shared by several modules.

module Basics {
  datatype Option<T> = None | Some(value: T)

  type Byte = x: int | 0 <= x < 256

  function Pow2(n: nat): (r: nat)
    ensures r > 0
  {
    if n == 0 then 1 else 2 * Pow2(n - 1)
  }

  /** It is the power of two. */
  lemma {:induction false} Pow2Sum(a: nat, b: nat)
    ensures Pow2(0) == 1 && Pow2(1) == 2 && Pow2(a + b) == Pow2(a) * Pow2(b)
  {
    if a > 0 {
      Pow2Sum(a - 1, b);
      assert Pow2(a) * Pow2(b) == 2 * (Pow2(a - 1) * Pow2(b));
    }
  }

  lemma Rebracket<T>(a: seq<T>, b: seq<T>, c: seq<T>)
    ensures (a + b) + c == a + (b + c)
  {
  }

  /** The middle of a concatenation. */
  lemma Middle<T>(a: seq<T>, b: seq<T>, c: seq<T>)
    ensures |a| + |b| <= |a + b + c| && (a + b + c)[|a|..|a| + |b|] == b
  {
  }

  /** A slice of a slice. */
  lemma SubSlice<T>(s: seq<T>, at: nat, n: nat, k: nat, m: nat)
    requires at + n <= |s| && k + m <= n
    ensures s[at..at + n][k..k + m] == s[at + k..at + k + m]
  {
    var x, y := s[at..at + n][k..k + m], s[at + k..at + k + m];
    forall j | 0 <= j < m ensures x[j] == y[j] {
    }
  }

  lemma SlicePrefix<T>(s: seq<T>, t: seq<T>, at: nat, n: nat)
    requires at + n <= |s|
    ensures (s + t)[at..at + n] == s[at..at + n]
  {
  }

  lemma SliceSuffix<T>(s: seq<T>, t: seq<T>, at: nat, n: nat)
    requires at + n <= |t|
    ensures (s + t)[|s| + at..|s| + at + n] == t[at..at + n]
  {
    var x, y := (s + t)[|s| + at..|s| + at + n], t[at..at + n];
    forall j | 0 <= j < n ensures x[j] == y[j] {
    }
  }
}
