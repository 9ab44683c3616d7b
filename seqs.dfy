/** Facts about sequences that the loops and the snoc-style definitions share. */
module Seqs {
  /** Growing a prefix by one element. */
  lemma PrefixSnoc<T>(s: seq<T>, k: nat)
    requires k < |s|
    ensures s[..k + 1] == s[..k] + [s[k]]
  {
  }

  /** The prefix one longer than `s[..k]` has `s[..k]` as its front and `s[k]` last. */
  lemma PrefixFront<T>(s: seq<T>, k: nat)
    requires k < |s|
    ensures |s[..k + 1]| == k + 1 && s[..k + 1][..k] == s[..k] && s[..k + 1][k] == s[k]
  {
  }

  /** Membership in a non-empty sequence: in its front or its last element. */
  lemma InLastOrFront<T>(s: seq<T>, x: T)
    requires |s| > 0
    ensures x in s <==> x in s[..|s| - 1] || x == s[|s| - 1]
  {
    assert s == s[..|s| - 1] + [s[|s| - 1]];
  }

  lemma AppendAssoc<T>(a: seq<T>, b: seq<T>, c: seq<T>)
    ensures a + (b + c) == a + b + c
  {
  }

  /** Some element of a non-empty sequence satisfies `p` exactly when some element of its
      front does or its last element does. */
  lemma ExistsSnoc<T>(s: seq<T>, front: seq<T>, p: T -> bool)
    requires |s| > 0 && front == s[..|s| - 1]
    ensures (exists i :: 0 <= i < |s| && p(s[i])) <==>
      (exists i :: 0 <= i < |front| && p(front[i])) || p(s[|s| - 1])
  {
    assert forall i :: 0 <= i < |front| ==> front[i] == s[i];
  }

  lemma InAppend<T>(a: seq<T>, b: seq<T>, x: T)
    ensures x in a + b <==> x in a || x in b
  {
  }

  /** Indexing a concatenation. */
  lemma AppendIndex<T>(a: seq<T>, b: seq<T>, j: nat)
    requires j < |a| + |b|
    ensures |a + b| == |a| + |b|
    ensures (a + b)[j] == if j < |a| then a[j] else b[j - |a|]
  {
  }
}
