// Facts about concatenation and slices that the solver is better told.
module Sequences {

  lemma {:induction false} Assoc<T>(a: seq<T>, b: seq<T>, c: seq<T>)
    ensures a + b + c == a + (b + c)
  {
  }

  lemma {:induction false} AssocEnd<T>(a: seq<T>, b: seq<T>, c: seq<T>, d: seq<T>)
    ensures a + b + c + d == a + b + (c + d)
  {
  }

  lemma {:induction false} AssocStart<T>(a: seq<T>, b: seq<T>, c: seq<T>, d: seq<T>)
    ensures a + b + c + d == a + (b + c + d)
  {
  }

  lemma {:induction false} AssocFive<T>(a: seq<T>, b: seq<T>, c: seq<T>, d: seq<T>, e: seq<T>)
    ensures a + b + c + d + e == a + (b + c + d + e)
  {
  }

  lemma {:induction false} Middle<T>(a: seq<T>, b: seq<T>, c: seq<T>)
    ensures (a + b + c)[|a|..|a| + |b|] == b
  {
  }

  lemma {:induction false} SliceOfPrefix<T>(a: seq<T>, b: seq<T>, start: nat, n: nat)
    requires a <= b && start + n <= |a|
    ensures start + n <= |b| && b[start..start + n] == a[start..start + n]
  {
  }

  /** Where four adjacent pieces sit in a sequence. */
  lemma {:induction false} FourPieces<T>(pre: seq<T>, a: seq<T>, b: seq<T>, c: seq<T>, d: seq<T>, post: seq<T>)
    ensures var s, n := pre + (a + b + c + d) + post, |pre|;
            && |s| >= n + |a| + |b| + |c| + |d|
            && s[n..n + |a|] == a
            && s[n + |a|..n + |a| + |b|] == b
            && s[n + |a| + |b|..n + |a| + |b| + |c|] == c
            && s[n + |a| + |b| + |c|..n + |a| + |b| + |c| + |d|] == d
  {
  }
}
