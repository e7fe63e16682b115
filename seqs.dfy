/** Concatenation of sequences: the facts about `+` that the proofs
    elsewhere use, and the concatenation of a sequence of blocks. */
module Seqs {

  lemma ConsAppend<T>(x: T, a: seq<T>, b: seq<T>)
    ensures ([x] + a) + b == [x] + (a + b)
  {
  }

  lemma AppendAssoc<T>(a: seq<T>, b: seq<T>, c: seq<T>)
    ensures (a + b) + c == a + (b + c)
  {
  }

  lemma TailOfAppend<T>(a: seq<T>, b: seq<T>)
    requires a != []
    ensures (a + b)[1..] == a[1..] + b
    ensures (a + b)[0] == a[0]
    ensures a == [a[0]] + a[1..]
  {
  }

  /** The blocks one after the other. */
  function Concat<T>(blocks: seq<seq<T>>): seq<T>
  {
    if blocks == [] then [] else Concat(blocks[..|blocks| - 1]) + blocks[|blocks| - 1]
  }

  /** Appending a block appends its elements. */
  lemma ConcatSnoc<T>(blocks: seq<seq<T>>, l: seq<T>)
    ensures Concat(blocks + [l]) == Concat(blocks) + l
  {
    assert (blocks + [l])[..|blocks|] == blocks;
  }

  /** Blocks of two elements each concatenate to twice as many elements. */
  lemma {:induction false} ConcatPairsLength<T>(blocks: seq<seq<T>>)
    requires forall j :: 0 <= j < |blocks| ==> |blocks[j]| == 2
    ensures |Concat(blocks)| == |blocks| + |blocks|
  {
    if blocks != [] {
      ConcatPairsLength(blocks[..|blocks| - 1]);
    }
  }

  /** In a concatenation of pairs, element `2 * i` and `2 * i + 1` are the two
      halves of pair `i`. */
  lemma {:induction false} ConcatPairsAt<T>(blocks: seq<seq<T>>, i: nat)
    requires i < |blocks|
    requires forall j :: 0 <= j < |blocks| ==> |blocks[j]| == 2
    ensures |Concat(blocks)| == |blocks| + |blocks|
    ensures Concat(blocks)[i + i] == blocks[i][0]
    ensures Concat(blocks)[i + i + 1] == blocks[i][1]
  {
    var n := |blocks| - 1;
    var init := blocks[..n];
    assert Concat(blocks) == Concat(init) + blocks[n];
    ConcatPairsLength(init);
    ConcatPairsLength(blocks);
    if i < n {
      ConcatPairsAt(init, i);
      assert init[i] == blocks[i];
    }
  }
}
