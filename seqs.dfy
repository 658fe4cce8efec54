/** The list helpers the passes share. */
module Seqs {
  /** `[f(x) for x in xs[k:]]`. */
  function MapFrom<A, B>(f: A -> B, xs: seq<A>, k: nat): (ys: seq<B>)
    requires k <= |xs|
    ensures |ys| == |xs| - k
    ensures forall i :: k <= i < |xs| ==> ys[i - k] == f(xs[i])
    decreases |xs| - k
  {
    if k == |xs| then [] else [f(xs[k])] + MapFrom(f, xs, k + 1)
  }

  /** One element moved from the front of the rest to the end of the prefix. */
  lemma ShiftOne<T>(a: seq<T>, x: T, b: seq<T>)
    ensures (a + [x]) + b == a + ([x] + b)
  {
  }

  /** The prefix one element longer. */
  lemma TakeOneMore<T>(s: seq<T>, i: nat)
    requires i < |s|
    ensures s[..i + 1] == s[..i] + [s[i]]
  {
  }

  lemma TakeAll<T>(s: seq<T>)
    ensures s[..|s|] == s
  {
  }

  lemma Assoc<T>(a: seq<T>, b: seq<T>, c: seq<T>)
    ensures (a + b) + c == a + (b + c)
  {
  }

  /** The elements of `b` after `a`. */
  lemma AppendedAt<T>(a: seq<T>, b: seq<T>)
    ensures |a + b| == |a| + |b| && (a + b)[..|a|] == a
    ensures forall i :: 0 <= i < |b| ==> (a + b)[|a| + i] == b[i]
  {
  }
}
