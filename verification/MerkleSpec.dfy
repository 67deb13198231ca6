/**
  The abstract object behind every append-only accumulator of the chain: a
  binary tree of fixed depth whose unused leaves hold the zero digest.

  The pair hash is a parameter, so nothing here depends on how digests are
  computed.  A node is named by its level (0 for leaves) and its index within
  that level; the ancestor of leaf `i` at a level is `Up(i, level)`.
 */
module MerkleSpec {

  /** The pair hash together with the digest of an unused leaf. */
  datatype Hasher<!D> = Hasher(pair: (D, D) -> D, zero: D)

  function Pow2(n: nat): (p: nat)
    ensures p > 0
  {
    if n == 0 then 1 else 2 * Pow2(n - 1)
  }

  /** Index of the ancestor of leaf `i` at `level`: `i >> level`. */
  function Up(i: nat, level: nat): nat {
    if level == 0 then i else Up(i, level - 1) / 2
  }

  /** The other child of the same parent: `x ^ 1`. */
  function Sibling(x: nat): nat {
    if x % 2 == 0 then x + 1 else x - 1
  }

  /** Root of an all-zero subtree. */
  function Zero<D>(hs: Hasher<D>, level: nat): D {
    if level == 0 then hs.zero else hs.pair(Zero(hs, level - 1), Zero(hs, level - 1))
  }

  function LeafAt<D>(hs: Hasher<D>, leaves: seq<D>, i: nat): D {
    if i < |leaves| then leaves[i] else hs.zero
  }

  /** The node at (level, index) of the tree holding `leaves` and zeroes after them. */
  function SubtreeRoot<D>(hs: Hasher<D>, leaves: seq<D>, level: nat, index: nat): D
    decreases level
  {
    if level == 0 then LeafAt(hs, leaves, index)
    else hs.pair(SubtreeRoot(hs, leaves, level - 1, 2 * index),
                 SubtreeRoot(hs, leaves, level - 1, 2 * index + 1))
  }

  function Root<D>(hs: Hasher<D>, depth: nat, leaves: seq<D>): D {
    SubtreeRoot(hs, leaves, depth, 0)
  }

  /** Some appended leaf lies below node (level, index). */
  ghost predicate Touched(count: nat, level: nat, index: nat) {
    exists i: nat :: i < count && Up(i, level) == index
  }

  /** Folding a leaf upwards through the first `k` digests of a witness. */
  function Climb<D>(hs: Hasher<D>, leaf: D, i: nat, path: seq<D>, k: nat): D
    requires k <= |path|
  {
    if k == 0 then leaf
    else
      var below := Climb(hs, leaf, i, path, k - 1);
      if Up(i, k - 1) % 2 == 1 then hs.pair(path[k - 1], below) else hs.pair(below, path[k - 1])
  }

  /** The first `|path|` sibling digests met on the way up from leaf `i`. */
  ghost predicate IsWitness<D>(hs: Hasher<D>, leaves: seq<D>, i: nat, path: seq<D>) {
    forall l {:trigger path[l]} :: 0 <= l < |path| ==> path[l] == SubtreeRoot(hs, leaves, l, Sibling(Up(i, l)))
  }

  // ----- positions

  lemma MulAtLeast(d: nat, k: int)
    ensures k >= 1 ==> d * k >= d
    ensures k <= -1 ==> d * k <= 0 - d
  {
    if k >= 1 {
      assert d * k == d * (k - 1) + d;
    } else if k <= -1 {
      assert d * k == d * (k + 1) - d;
    }
  }

  lemma QuotientUnique(x: nat, d: nat, q: nat, r: nat)
    requires d > 0 && r < d && x == d * q + r
    ensures x / d == q
  {
    var k := x / d - q;
    assert d * k == d * (x / d) - d * q;
    assert d * k == r - x % d;
    MulAtLeast(d, k);
  }

  lemma HalveQuotient(i: nat, p: nat)
    requires p > 0
    ensures i / (2 * p) == (i / p) / 2
  {
    var q, r := i / p, i % p;
    assert i == p * q + r;
    var h := q / 2;
    if q % 2 == 0 {
      assert p * q == (2 * p) * h by { assert q == 2 * h; }
      QuotientUnique(i, 2 * p, h, r);
    } else {
      assert p * q == (2 * p) * h + p by { assert q == 2 * h + 1; }
      QuotientUnique(i, 2 * p, h, p + r);
    }
  }

  /** `Up` is the shift the code writes with `>>` and with `& (1 << level)`. */
  lemma {:induction false} UpIsShift(i: nat, level: nat)
    ensures Up(i, level) == i / Pow2(level)
  {
    if level > 0 {
      UpIsShift(i, level - 1);
      HalveQuotient(i, Pow2(level - 1));
    }
  }

  /** A leaf index fits a tree of some depth exactly when its top ancestor is node 0. */
  lemma FitsIffTopIsZero(i: nat, depth: nat)
    ensures i < Pow2(depth) <==> Up(i, depth) == 0
  {
    UpIsShift(i, depth);
    var p := Pow2(depth);
    MulAtLeast(p, i / p);
    if i < p {
      QuotientUnique(i, p, 0, i);
    }
  }

  lemma {:induction false} UpMonotone(i: nat, j: nat, level: nat)
    requires i <= j
    ensures Up(i, level) <= Up(j, level)
  {
    if level > 0 {
      UpMonotone(i, j, level - 1);
    }
  }

  /** Moving to the next leaf moves each ancestor by at most one. */
  lemma {:induction false} UpNext(i: nat, level: nat)
    ensures Up(i + 1, level) == Up(i, level) || Up(i + 1, level) == Up(i, level) + 1
  {
    if level > 0 {
      UpNext(i, level - 1);
    }
  }

  /** After one more append exactly the new leaf's ancestors become touched. */
  lemma TouchedNext(count: nat, level: nat, index: nat)
    ensures Touched(count + 1, level, index) <==> Touched(count, level, index) || index == Up(count, level)
  {
    if Touched(count, level, index) {
      var i: nat :| i < count && Up(i, level) == index;
      assert i < count + 1 && Up(i, level) == index;
    }
    if index == Up(count, level) {
      assert count < count + 1 && Up(count, level) == index;
    }
  }

  // ----- subtrees

  lemma UntouchedChild(count: nat, level: nat, index: nat, child: nat)
    requires level > 0 && child / 2 == index
    requires !Touched(count, level, index)
    ensures !Touched(count, level - 1, child)
  {
    var below := level - 1;
    forall i: nat | i < count
      ensures Up(i, below) != child
    {
      assert Up(i, level) != index;
    }
  }

  lemma {:induction false} UntouchedIsZero<D>(hs: Hasher<D>, leaves: seq<D>, level: nat, index: nat)
    requires !Touched(|leaves|, level, index)
    ensures SubtreeRoot(hs, leaves, level, index) == Zero(hs, level)
    decreases level
  {
    if level == 0 {
      if index < |leaves| {
        assert Up(index, 0) == index;
      }
    } else {
      UntouchedChild(|leaves|, level, index, 2 * index);
      UntouchedChild(|leaves|, level, index, 2 * index + 1);
      UntouchedIsZero(hs, leaves, level - 1, 2 * index);
      UntouchedIsZero(hs, leaves, level - 1, 2 * index + 1);
    }
  }

  /** Nodes that lie to the right of the last leaf's ancestor are untouched. */
  lemma RightOfLastIsUntouched(count: nat, level: nat, index: nat)
    requires count > 0 ==> index > Up(count - 1, level)
    ensures !Touched(count, level, index)
  {
    forall i: nat | i < count
      ensures Up(i, level) != index
    {
      UpMonotone(i, count - 1, level);
    }
  }

  /** Appending a leaf changes no node outside that leaf's own ancestors. */
  lemma {:induction false} AppendElsewhere<D>(hs: Hasher<D>, leaves: seq<D>, leaf: D, level: nat, index: nat)
    requires index != Up(|leaves|, level)
    ensures SubtreeRoot(hs, leaves + [leaf], level, index) == SubtreeRoot(hs, leaves, level, index)
    decreases level
  {
    if level > 0 {
      AppendElsewhere(hs, leaves, leaf, level - 1, 2 * index);
      AppendElsewhere(hs, leaves, leaf, level - 1, 2 * index + 1);
    }
  }

  /** A parent is the hash of a node and its sibling, in the order the index bit says. */
  lemma ParentIsPair<D>(hs: Hasher<D>, leaves: seq<D>, i: nat, level: nat)
    ensures
      var x := Up(i, level);
      var node, sibling := SubtreeRoot(hs, leaves, level, x), SubtreeRoot(hs, leaves, level, Sibling(x));
      SubtreeRoot(hs, leaves, level + 1, Up(i, level + 1))
      == if x % 2 == 0 then hs.pair(node, sibling) else hs.pair(sibling, node)
  {
    assert Up(i, level + 1) == Up(i, level) / 2;
  }

  /** The tree had this root after some append. */
  ghost predicate WasRoot<D>(hs: Hasher<D>, depth: nat, leaves: seq<D>, root: D) {
    exists k :: 0 < k <= |leaves| && Root(hs, depth, leaves[..k]) == root
  }

  lemma WasRootNext<D>(hs: Hasher<D>, depth: nat, leaves: seq<D>, leaf: D, root: D)
    ensures WasRoot(hs, depth, leaves + [leaf], root) <==>
              WasRoot(hs, depth, leaves, root) || root == Root(hs, depth, leaves + [leaf])
  {
    var grown := leaves + [leaf];
    assert grown[..|grown|] == grown;
    if WasRoot(hs, depth, leaves, root) {
      var k :| 0 < k <= |leaves| && Root(hs, depth, leaves[..k]) == root;
      assert grown[..k] == leaves[..k];
    }
    if WasRoot(hs, depth, grown, root) {
      var k :| 0 < k <= |grown| && Root(hs, depth, grown[..k]) == root;
      if k <= |leaves| {
        assert grown[..k] == leaves[..k];
      }
    }
  }

  // ----- witnesses

  /** A witness made of the tree's own siblings folds to the ancestor node at every height. */
  lemma {:induction false} WitnessClimbs<D>(hs: Hasher<D>, leaves: seq<D>, i: nat, path: seq<D>, k: nat)
    requires k <= |path|
    requires IsWitness(hs, leaves, i, path)
    ensures Climb(hs, LeafAt(hs, leaves, i), i, path, k) == SubtreeRoot(hs, leaves, k, Up(i, k))
  {
    if k > 0 {
      WitnessClimbs(hs, leaves, i, path, k - 1);
      var x := Up(i, k - 1);
      assert path[k - 1] == SubtreeRoot(hs, leaves, k - 1, Sibling(x));
      assert Up(i, k) == x / 2;
    }
  }

  /** At level `l` the fold hashes a pair that is not the tree's own, and yet gets the tree's digest. */
  ghost predicate CollidesAt<D>(hs: Hasher<D>, leaves: seq<D>, leaf: D, i: nat, path: seq<D>, l: nat)
    requires l < |path|
  {
    var x := Up(i, l);
    var below, node := Climb(hs, leaf, i, path, l), SubtreeRoot(hs, leaves, l, x);
    var sibling := SubtreeRoot(hs, leaves, l, Sibling(x));
    && (below != node || path[l] != sibling)
    && (if x % 2 == 1 then hs.pair(path[l], below) == hs.pair(sibling, node)
        else hs.pair(below, path[l]) == hs.pair(node, sibling))
  }

  /** The path exhibits a collision of the pair hash. */
  ghost predicate Collides<D>(hs: Hasher<D>, leaves: seq<D>, leaf: D, i: nat, path: seq<D>, k: nat)
    requires k <= |path|
  {
    exists l :: 0 <= l < k && CollidesAt(hs, leaves, leaf, i, path, l)
  }

  lemma WitnessSplits<D>(hs: Hasher<D>, leaves: seq<D>, i: nat, path: seq<D>, k: nat)
    requires 0 < k <= |path|
    ensures IsWitness(hs, leaves, i, path[..k]) <==>
              && IsWitness(hs, leaves, i, path[..k - 1])
              && path[k - 1] == SubtreeRoot(hs, leaves, k - 1, Sibling(Up(i, k - 1)))
  {
    var longer, shorter := path[..k], path[..k - 1];
    if IsWitness(hs, leaves, i, longer) {
      assert longer[k - 1] == path[k - 1];
      forall l | 0 <= l < k - 1
        ensures shorter[l] == SubtreeRoot(hs, leaves, l, Sibling(Up(i, l)))
      {
        assert shorter[l] == longer[l];
      }
    }
    if IsWitness(hs, leaves, i, shorter) && path[k - 1] == SubtreeRoot(hs, leaves, k - 1, Sibling(Up(i, k - 1))) {
      forall l | 0 <= l < k
        ensures longer[l] == SubtreeRoot(hs, leaves, l, Sibling(Up(i, l)))
      {
        assert l < k - 1 ==> longer[l] == shorter[l];
      }
    }
  }

  lemma {:induction false} ClimbPrefix<D>(hs: Hasher<D>, leaf: D, i: nat, path: seq<D>, k: nat)
    requires k <= |path|
    ensures Climb(hs, leaf, i, path[..k], k) == Climb(hs, leaf, i, path, k)
    decreases k
  {
    if k > 0 {
      ClimbPrefix(hs, leaf, i, path, k - 1);
      ClimbPrefix(hs, leaf, i, path[..k], k - 1);
      assert path[..k][..k - 1] == path[..k - 1];
    }
  }

  /** Conversely, what folds to a node is the true leaf with its true siblings, unless it exhibits a collision. */
  lemma {:induction false} ClimbIsBinding<D>(hs: Hasher<D>, leaves: seq<D>, leaf: D, i: nat, path: seq<D>, k: nat)
    requires k <= |path|
    requires Climb(hs, leaf, i, path, k) == SubtreeRoot(hs, leaves, k, Up(i, k))
    ensures leaf == LeafAt(hs, leaves, i) && IsWitness(hs, leaves, i, path[..k]) <==>
              !Collides(hs, leaves, leaf, i, path, k)
  {
    if k > 0 {
      var x := Up(i, k - 1);
      var below := Climb(hs, leaf, i, path, k - 1);
      ParentIsPair(hs, leaves, i, k - 1);
      assert CollidesAt(hs, leaves, leaf, i, path, k - 1) <==>
        below != SubtreeRoot(hs, leaves, k - 1, x) || path[k - 1] != SubtreeRoot(hs, leaves, k - 1, Sibling(x));
      WitnessSplits(hs, leaves, i, path, k);
      if below == SubtreeRoot(hs, leaves, k - 1, x) {
        ClimbIsBinding(hs, leaves, leaf, i, path, k - 1);
      } else if leaf == LeafAt(hs, leaves, i) && IsWitness(hs, leaves, i, path[..k - 1]) {
        WitnessClimbs(hs, leaves, i, path[..k - 1], k - 1);
        ClimbPrefix(hs, leaf, i, path, k - 1);
        assert false;
      }
    }
  }

  /** Whatever folds to a root the tree has had is a leaf of the tree of that time, or exhibits a collision. */
  lemma KnownRootBinds<D>(hs: Hasher<D>, depth: nat, leaves: seq<D>, root: D, leaf: D, i: nat, path: seq<D>)
    returns (k: nat)
    requires WasRoot(hs, depth, leaves, root) && |path| == depth && i < Pow2(depth)
    requires Climb(hs, leaf, i, path, depth) == root
    ensures 0 < k <= |leaves| && Root(hs, depth, leaves[..k]) == root
    ensures Collides(hs, leaves[..k], leaf, i, path, depth) ||
            (IsWitness(hs, leaves[..k], i, path) && leaf == if i < k then leaves[i] else hs.zero)
  {
    k :| 0 < k <= |leaves| && Root(hs, depth, leaves[..k]) == root;
    FitsIffTopIsZero(i, depth);
    ClimbIsBinding(hs, leaves[..k], leaf, i, path, depth);
    assert path[..depth] == path;
  }

  /** `path` is the only way to open leaf `i` under the tree's root, short of a collision. */
  ghost predicate OpensOnly<D(!new)>(hs: Hasher<D>, depth: nat, leaves: seq<D>, i: nat, path: seq<D>) {
    forall leaf, other {:trigger Climb(hs, leaf, i, other, depth)} ::
      |other| == depth && Climb(hs, leaf, i, other, depth) == Root(hs, depth, leaves) ==>
        (leaf == LeafAt(hs, leaves, i) && other == path) || Collides(hs, leaves, leaf, i, other, depth)
  }

  lemma WitnessOpensOnly<D(!new)>(hs: Hasher<D>, depth: nat, leaves: seq<D>, i: nat, path: seq<D>)
    requires |path| == depth && i < Pow2(depth) && IsWitness(hs, leaves, i, path)
    ensures OpensOnly(hs, depth, leaves, i, path)
  {
    FitsIffTopIsZero(i, depth);
    forall leaf, other | |other| == depth && Climb(hs, leaf, i, other, depth) == Root(hs, depth, leaves)
      ensures (leaf == LeafAt(hs, leaves, i) && other == path) || Collides(hs, leaves, leaf, i, other, depth)
    {
      ClimbIsBinding(hs, leaves, leaf, i, other, depth);
      assert other[..depth] == other;
    }
  }
}
