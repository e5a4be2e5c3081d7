/** Order-preserving selections from a sequence. */
module Sequences {

  /** `pos` lists, in strictly increasing order, the positions in `xs` of
      the elements of `sub`. */
  ghost predicate Embeds<T>(pos: seq<int>, sub: seq<T>, xs: seq<T>)
  {
    && |pos| == |sub|
    && (forall k :: 0 <= k < |pos| ==> 0 <= pos[k] < |xs| && sub[k] == xs[pos[k]])
    && (forall k, l :: 0 <= k < l < |pos| ==> pos[k] < pos[l])
  }

  /** `sub` keeps some of the elements of `xs`, in their order. */
  ghost predicate IsSubsequence<T>(sub: seq<T>, xs: seq<T>)
  {
    exists pos :: Embeds(pos, sub, xs)
  }

  /** A subsequence of a prefix stays one when the next element of `xs`
      is dropped or kept. */
  lemma SubsequenceSnoc<T>(sub: seq<T>, xs: seq<T>, x: T, keep: bool)
    requires IsSubsequence(sub, xs)
    ensures IsSubsequence(if keep then sub + [x] else sub, xs + [x])
  {
    var pos :| Embeds(pos, sub, xs);
    if keep {
      assert Embeds(pos + [|xs|], sub + [x], xs + [x]);
    } else {
      assert Embeds(pos, sub, xs + [x]);
    }
  }
}
