/**
 * The Merkle branch handed to miners and its fold over a coinbase hash, against the root of the whole
 * level-by-level tree in which an odd level pairs its last node with itself.
 */
module Merkle {
  import opened Bytes

  datatype Node = Missing | Present(hash: Hash)

  function Pair(left: Hash, right: Hash): (bytes: seq<Byte>)
    ensures |bytes| == 64
  {
    var l: seq<Byte>, r: seq<Byte> := left, right;
    l + r
  }

  /** One level up. */
  function Derive(H: HashFunction, level: seq<Hash>): (up: seq<Hash>)
    ensures |up| == (|level| + 1) / 2
  {
    if level == [] then []
    else if |level| == 1 then [H(Pair(level[0], level[0]))]
    else [H(Pair(level[0], level[1]))] + Derive(H, level[2..])
  }

  /** The root of the whole tree. */
  function Root(H: HashFunction, leaves: seq<Hash>): Hash
    requires leaves != []
    decreases |leaves|
  {
    if |leaves| == 1 then leaves[0] else Root(H, Derive(H, leaves))
  }

  /**
   * merkle-lib's proof for leaf 0: both children on the lowest level, then on every further level an
   * absent left node and the right neighbour, and the root at the end.
   */
  function ProofNodes(H: HashFunction, level: seq<Hash>, lowest: bool): (nodes: seq<Node>)
    requires level != []
    decreases |level|
  {
    if |level| == 1 then [Present(level[0])]
    else [if lowest then Present(level[0]) else Missing, Present(level[1])] + ProofNodes(H, Derive(H, level), false)
  }

  /** `filter(h => h != null)`. */
  function Found(nodes: seq<Node>): seq<Hash> {
    if nodes == [] then []
    else (if nodes[0].Present? then [nodes[0].hash] else []) + Found(nodes[1..])
  }

  /** The right neighbours of the leftmost path: what the branch is meant to be. */
  function Siblings(H: HashFunction, level: seq<Hash>): seq<Hash>
    requires level != []
    decreases |level|
  {
    if |level| == 1 then [] else [level[1]] + Siblings(H, Derive(H, level))
  }

  /** Hashing a leaf up through a branch. */
  function Fold(H: HashFunction, leaf: Hash, branch: seq<Hash>): Hash
    decreases |branch|
  {
    if branch == [] then leaf else Fold(H, H(Pair(leaf, branch[0])), branch[1..])
  }

  /** Node i of the next level hashes nodes 2i and 2i + 1 side by side, or the last node twice. */
  lemma {:induction false} DeriveAt(H: HashFunction, level: seq<Hash>, i: nat)
    requires 2 * i < |level|
    ensures i < |Derive(H, level)|
    ensures var left: seq<Byte>, right: seq<Byte> := level[2 * i], level[if 2 * i + 1 < |level| then 2 * i + 1 else 2 * i];
            Derive(H, level)[i] == H(left + right)
  {
    if i > 0 {
      DeriveAt(H, level[2..], i - 1);
    }
  }

  /** Three leaves: the third is paired with itself. */
  lemma RootOfThree(H: HashFunction, a: Hash, b: Hash, c: Hash)
    ensures var x: seq<Byte>, y: seq<Byte>, z: seq<Byte> := a, b, c;
            var left: seq<Byte>, right: seq<Byte> := H(x + y), H(z + z);
            Root(H, [a, b, c]) == H(left + right)
  {
    var leaves := [a, b, c];
    DeriveAt(H, leaves, 0);
    DeriveAt(H, leaves, 1);
    var up := Derive(H, leaves);
    assert up == [up[0], up[1]];
    DeriveAt(H, up, 0);
    var top := Derive(H, up);
    assert |top| == 1 && Root(H, up) == Root(H, top) == top[0];
  }

  lemma FoundTwo(first: Node, second: Hash, up: seq<Node>)
    ensures Found([first, Present(second)] + up)
         == (if first.Present? then [first.hash] else []) + ([second] + Found(up))
  {
    var nodes := [first, Present(second)] + up;
    assert nodes[1..] == [Present(second)] + up && nodes[1..][1..] == up;
  }

  lemma ProofStep(H: HashFunction, level: seq<Hash>, lowest: bool)
    requires |level| > 1
    ensures var up := Derive(H, level);
            var first := if lowest then Present(level[0]) else Missing;
            && ProofNodes(H, level, lowest) == [first, Present(level[1])] + ProofNodes(H, up, false)
            && Siblings(H, level) == [level[1]] + Siblings(H, up)
            && Root(H, level) == Root(H, up)
  {
  }

  lemma {:induction false} FoundNodes(H: HashFunction, level: seq<Hash>, lowest: bool)
    requires level != []
    ensures Found(ProofNodes(H, level, lowest))
         == (if |level| > 1 && lowest then [level[0]] else []) + (Siblings(H, level) + [Root(H, level)])
    decreases |level|
  {
    if |level| == 1 {
      assert ProofNodes(H, level, lowest)[1..] == [];
    } else {
      var first := if lowest then Present(level[0]) else Missing;
      var up := Derive(H, level);
      ProofStep(H, level, lowest);
      FoundTwo(first, level[1], ProofNodes(H, up, false));
      FoundNodes(H, up, false);
    }
  }

  /** The branch as the jobs service extracts it: drop the absent nodes, pop the root, slice off the leaf. */
  method ExtractBranch(H: HashFunction, leaves: seq<Hash>) returns (root: Hash, branch: seq<Hash>)
    requires leaves != []
    ensures root == Root(H, leaves)
    ensures branch == Siblings(H, leaves)
  {
    FoundNodes(H, leaves, true);
    var branches := Found(ProofNodes(H, leaves, true));
    root := branches[|branches| - 1];
    branches := branches[..|branches| - 1];
    branch := if |branches| >= 1 then branches[1..] else [];
  }

  /** The fold with the reused 64-byte buffer. */
  method CalculateMerkleRootHash(H: HashFunction, newRoot: Hash, merkleBranches: seq<Hash>) returns (root: Hash)
    ensures root == Fold(H, newRoot, merkleBranches)
  {
    var bothMerkles := new Byte[64](_ => 0);
    Put(bothMerkles, 0, newRoot);
    var current := newRoot;
    for i := 0 to |merkleBranches|
      invariant bothMerkles[..32] == current
      invariant Fold(H, current, merkleBranches[i..]) == Fold(H, newRoot, merkleBranches)
    {
      Put(bothMerkles, 32, merkleBranches[i]);
      assert bothMerkles[..] == Pair(current, merkleBranches[i]);
      current := H(bothMerkles[..]);
      Put(bothMerkles, 0, current);
      assert merkleBranches[i..][1..] == merkleBranches[i + 1..];
    }
    root := bothMerkles[..32];
  }

  lemma {:induction false} DeriveReplaced(H: HashFunction, level: seq<Hash>, leaf: Hash)
    requires |level| >= 2
    ensures Derive(H, level[0 := leaf]) == Derive(H, level)[0 := H(Pair(leaf, level[1]))]
  {
    assert level[0 := leaf][2..] == level[2..];
  }

  /** The branch does not depend on leaf 0. */
  lemma {:induction false} SiblingsIgnoreLeaf(H: HashFunction, leaves: seq<Hash>, leaf: Hash)
    requires leaves != []
    ensures Siblings(H, leaves[0 := leaf]) == Siblings(H, leaves)
    decreases |leaves|
  {
    if |leaves| > 1 {
      DeriveReplaced(H, leaves, leaf);
      SiblingsIgnoreLeaf(H, Derive(H, leaves), H(Pair(leaf, leaves[1])));
    }
  }

  /** Folding any coinbase hash through the branch gives the root of the tree with leaf 0 replaced. */
  lemma {:induction false} FoldIsRoot(H: HashFunction, leaves: seq<Hash>, leaf: Hash)
    requires leaves != []
    ensures Fold(H, leaf, Siblings(H, leaves)) == Root(H, leaves[0 := leaf])
    decreases |leaves|
  {
    if |leaves| > 1 {
      DeriveReplaced(H, leaves, leaf);
      FoldIsRoot(H, Derive(H, leaves), H(Pair(leaf, leaves[1])));
      assert Siblings(H, leaves)[1..] == Siblings(H, Derive(H, leaves));
    }
  }
}
