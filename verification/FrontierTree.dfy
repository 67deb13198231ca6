/**
  The first note tree.  It keeps one pending node per level (the frontier) and
  freezes the witness of every leaf at the moment the leaf is appended.
 */
module FrontierTree {
  import opened Common
  import opened MerkleSpec
  import opened Slots

  datatype MerklePath = MerklePath(commitment: Hash, index: nat, root: Hash, path: seq<Hash>, pathIndex: seq<nat>)

  // ----- what the slots mean, in terms of the leaves appended so far

  /** Where the next index has bit 1, the pending node is the completed left sibling. */
  ghost predicate FrontierInv(hs: Hasher<Hash>, depth: nat, leaves: seq<Hash>, frontier: map<nat, Hash>) {
    forall l: nat {:trigger Slot(frontier, l)} :: l < depth && Up(|leaves|, l) % 2 == 1 ==>
      Slot(frontier, l) == SubtreeRoot(hs, leaves, l, Up(|leaves|, l) - 1)
  }

  /** The siblings of leaf `i` in the tree as it stood right after leaf `i` was appended. */
  ghost predicate FrozenWitness(hs: Hasher<Hash>, depth: nat, leaves: seq<Hash>, i: nat, path: map<(Hash, nat), Hash>)
    requires i < |leaves|
  {
    forall l: nat {:trigger Slot(path, (leaves[i], l))} :: l < depth ==>
      Slot(path, (leaves[i], l)) == SubtreeRoot(hs, leaves[..i + 1], l, Sibling(Up(i, l)))
  }

  /** Every index slot holds index + 1 of its own leaf, whose frozen witness is stored beside it. */
  ghost predicate WitnessInv(hs: Hasher<Hash>, depth: nat, leaves: seq<Hash>,
                             index: map<Hash, nat>, path: map<(Hash, nat), Hash>)
  {
    && (forall c {:trigger Number(index, c)} :: c in leaves ==> Number(index, c) > 0)
    && (forall c {:trigger Number(index, c)} :: Number(index, c) > 0 ==>
          && Number(index, c) <= |leaves|
          && leaves[Number(index, c) - 1] == c
          && FrozenWitness(hs, depth, leaves, Number(index, c) - 1, path))
  }

  /** The marked roots are exactly the roots the tree has had after some append. */
  ghost predicate RootsInv(hs: Hasher<Hash>, depth: nat, leaves: seq<Hash>, rootTx: map<Hash, Hash>) {
    forall r :: Slot(rootTx, r) != ZERO_HASH <==> WasRoot(hs, depth, leaves, r)
  }

  /** The witness an append of `commitment` after `leaves` produces. */
  ghost function AppendPath(hs: Hasher<Hash>, depth: nat, leaves: seq<Hash>, commitment: Hash): MerklePath {
    var grown := leaves + [commitment];
    MerklePath(commitment, |leaves|, Root(hs, depth, grown),
               seq(depth, l requires 0 <= l => SubtreeRoot(hs, grown, l, Sibling(Up(|leaves|, l)))),
               seq(depth, l requires 0 <= l => Up(|leaves|, l) % 2))
  }

  // ----- how one append moves those meanings

  lemma RootsNext(hs: Hasher<Hash>, depth: nat, leaves: seq<Hash>, leaf: Hash, rootTx: map<Hash, Hash>, txHash: Hash)
    requires RootsInv(hs, depth, leaves, rootTx) && txHash != ZERO_HASH
    ensures RootsInv(hs, depth, leaves + [leaf], rootTx[Root(hs, depth, leaves + [leaf]) := txHash])
  {
    var root := Root(hs, depth, leaves + [leaf]);
    var rootTx' := rootTx[root := txHash];
    forall r
      ensures Slot(rootTx', r) != ZERO_HASH <==> WasRoot(hs, depth, leaves + [leaf], r)
    {
      WasRootNext(hs, depth, leaves, leaf, r);
      assert Slot(rootTx', r) == if r == root then txHash else Slot(rootTx, r);
    }
  }

  /** The witness slots of the newest leaf are filled below `level`; no other leaf's slots moved. */
  ghost predicate PathWritten(hs: Hasher<Hash>, grown: seq<Hash>, n: nat, level: nat,
                              path: map<(Hash, nat), Hash>, path': map<(Hash, nat), Hash>)
    requires n < |grown|
  {
    && (forall c, l: nat {:trigger Slot(path', (c, l))} {:trigger Slot(path, (c, l))} ::
          c != grown[n] ==> Slot(path', (c, l)) == Slot(path, (c, l)))
    && (forall l: nat {:trigger Slot(path', (grown[n], l))} :: l < level ==>
          Slot(path', (grown[n], l)) == SubtreeRoot(hs, grown, l, Sibling(Up(n, l))))
  }

  /** An append under another commitment leaves a frozen witness as it was. */
  lemma FrozenKept(hs: Hasher<Hash>, depth: nat, leaves: seq<Hash>, leaf: Hash, i: nat,
                   path: map<(Hash, nat), Hash>, path': map<(Hash, nat), Hash>)
    requires i < |leaves| && leaves[i] != leaf && FrozenWitness(hs, depth, leaves, i, path)
    requires PathWritten(hs, leaves + [leaf], |leaves|, depth, path, path')
    ensures FrozenWitness(hs, depth, leaves + [leaf], i, path')
  {
    var grown := leaves + [leaf];
    assert grown[..i + 1] == leaves[..i + 1];
    forall l: nat | l < depth
      ensures Slot(path', (grown[i], l)) == SubtreeRoot(hs, grown[..i + 1], l, Sibling(Up(i, l)))
    {
      assert Slot(path', (leaves[i], l)) == Slot(path, (leaves[i], l));
    }
  }

  lemma FrozenNew(hs: Hasher<Hash>, depth: nat, leaves: seq<Hash>, leaf: Hash,
                  path: map<(Hash, nat), Hash>, path': map<(Hash, nat), Hash>)
    requires PathWritten(hs, leaves + [leaf], |leaves|, depth, path, path')
    ensures FrozenWitness(hs, depth, leaves + [leaf], |leaves|, path')
  {
    var grown := leaves + [leaf];
    assert grown[..|grown|] == grown;
  }

  lemma WitnessNext(hs: Hasher<Hash>, depth: nat, leaves: seq<Hash>, leaf: Hash,
                    index: map<Hash, nat>, path: map<(Hash, nat), Hash>, path': map<(Hash, nat), Hash>)
    requires WitnessInv(hs, depth, leaves, index, path)
    requires PathWritten(hs, leaves + [leaf], |leaves|, depth, path, path')
    ensures WitnessInv(hs, depth, leaves + [leaf], index[leaf := |leaves| + 1], path')
  {
    var grown, index' := leaves + [leaf], index[leaf := |leaves| + 1];
    forall c | c in grown
      ensures Number(index', c) > 0
    {
      assert c != leaf ==> c in leaves && Number(index', c) == Number(index, c);
    }
    forall c | Number(index', c) > 0
      ensures
        && Number(index', c) <= |grown|
        && grown[Number(index', c) - 1] == c
        && FrozenWitness(hs, depth, grown, Number(index', c) - 1, path')
    {
      if c == leaf {
        FrozenNew(hs, depth, leaves, leaf, path, path');
      } else {
        assert Number(index', c) == Number(index, c);
        FrozenKept(hs, depth, leaves, leaf, Number(index, c) - 1, path, path');
      }
    }
  }

  /** The frontier of the next state: levels with a clear bit hold the new ancestor, the others are untouched. */
  ghost predicate FrontierMoved(hs: Hasher<Hash>, grown: seq<Hash>, n: nat, level: nat,
                                frontier: map<nat, Hash>, frontier': map<nat, Hash>)
  {
    forall l: nat {:trigger Slot(frontier', l)} {:trigger Slot(frontier, l)} ::
      Slot(frontier', l)
      == if l < level && Up(n, l) % 2 == 0 then SubtreeRoot(hs, grown, l, Up(n, l)) else Slot(frontier, l)
  }

  lemma FrontierNext(hs: Hasher<Hash>, depth: nat, leaves: seq<Hash>, leaf: Hash,
                     frontier: map<nat, Hash>, frontier': map<nat, Hash>)
    requires FrontierInv(hs, depth, leaves, frontier)
    requires FrontierMoved(hs, leaves + [leaf], |leaves|, depth, frontier, frontier')
    ensures FrontierInv(hs, depth, leaves + [leaf], frontier')
  {
    var n, grown := |leaves|, leaves + [leaf];
    forall l: nat | l < depth && Up(n + 1, l) % 2 == 1
      ensures Slot(frontier', l) == SubtreeRoot(hs, grown, l, Up(n + 1, l) - 1)
    {
      UpNext(n, l);
      if Up(n, l) % 2 == 1 {
        assert Up(n + 1, l) == Up(n, l);
        AppendElsewhere(hs, leaves, leaf, l, Up(n, l) - 1);
      }
    }
  }

  /** The sibling the code picks at one level is the sibling in the grown tree. */
  lemma SiblingAt(hs: Hasher<Hash>, depth: nat, leaves: seq<Hash>, leaf: Hash, frontier: map<nat, Hash>, level: nat)
    requires FrontierInv(hs, depth, leaves, frontier) && level < depth
    ensures SubtreeRoot(hs, leaves + [leaf], level, Sibling(Up(|leaves|, level)))
         == if Up(|leaves|, level) % 2 == 0 then Zero(hs, level) else Slot(frontier, level)
  {
    var n, grown := |leaves|, leaves + [leaf];
    var x := Up(n, level);
    if x % 2 == 0 {
      RightOfLastIsUntouched(n + 1, level, x + 1);
      UntouchedIsZero(hs, grown, level, x + 1);
    } else {
      AppendElsewhere(hs, leaves, leaf, level, x - 1);
    }
  }

  // One turn of the append loop, slot family by slot family.

  lemma FrontierStep(hs: Hasher<Hash>, grown: seq<Hash>, n: nat, level: nat, current: Hash,
                     frontier0: map<nat, Hash>, frontier: map<nat, Hash>)
    requires current == SubtreeRoot(hs, grown, level, Up(n, level))
    requires FrontierMoved(hs, grown, n, level, frontier0, frontier)
    ensures FrontierMoved(hs, grown, n, level + 1, frontier0,
                          if Up(n, level) % 2 == 0 then frontier[level := current] else frontier)
  {
    var frontier' := if Up(n, level) % 2 == 0 then frontier[level := current] else frontier;
    forall l: nat
      ensures Slot(frontier', l)
           == if l <= level && Up(n, l) % 2 == 0 then SubtreeRoot(hs, grown, l, Up(n, l)) else Slot(frontier0, l)
    {
      assert l != level ==> Slot(frontier', l) == Slot(frontier, l);
      assert Slot(frontier, level) == Slot(frontier0, level);
    }
  }

  lemma PathStep(hs: Hasher<Hash>, grown: seq<Hash>, n: nat, level: nat, sibling: Hash,
                 path0: map<(Hash, nat), Hash>, path: map<(Hash, nat), Hash>)
    requires n < |grown|
    requires sibling == SubtreeRoot(hs, grown, level, Sibling(Up(n, level)))
    requires PathWritten(hs, grown, n, level, path0, path)
    ensures PathWritten(hs, grown, n, level + 1, path0, path[(grown[n], level) := sibling])
  {
    var path' := path[(grown[n], level) := sibling];
    forall l: nat | l <= level
      ensures Slot(path', (grown[n], l)) == SubtreeRoot(hs, grown, l, Sibling(Up(n, l)))
    {
      assert l < level ==> Slot(path, (grown[n], l)) == Slot(path', (grown[n], l));
    }
  }

  /** The whole meaning of the tree slots. */
  ghost predicate SlotsInv(hs: Hasher<Hash>, depth: nat, leaves: seq<Hash>, frontier: map<nat, Hash>,
                           index: map<Hash, nat>, path: map<(Hash, nat), Hash>, rootTx: map<Hash, Hash>)
  {
    && FrontierInv(hs, depth, leaves, frontier)
    && WitnessInv(hs, depth, leaves, index, path)
    && RootsInv(hs, depth, leaves, rootTx)
  }

  lemma SlotsNext(hs: Hasher<Hash>, depth: nat, leaves: seq<Hash>, leaf: Hash, txHash: Hash, index: map<Hash, nat>,
                  rootTx: map<Hash, Hash>, frontier: map<nat, Hash>, frontier': map<nat, Hash>,
                  path: map<(Hash, nat), Hash>, path': map<(Hash, nat), Hash>)
    requires SlotsInv(hs, depth, leaves, frontier, index, path, rootTx) && txHash != ZERO_HASH
    requires FrontierMoved(hs, leaves + [leaf], |leaves|, depth, frontier, frontier')
    requires PathWritten(hs, leaves + [leaf], |leaves|, depth, path, path')
    ensures SlotsInv(hs, depth, leaves + [leaf], frontier', index[leaf := |leaves| + 1], path',
                     rootTx[Root(hs, depth, leaves + [leaf]) := txHash])
  {
    WitnessNext(hs, depth, leaves, leaf, index, path, path');
    FrontierNext(hs, depth, leaves, leaf, frontier, frontier');
    RootsNext(hs, depth, leaves, leaf, rootTx, txHash);
  }

  // ----- folding a witness

  /** The code's fold: missing path entries read as zero, and any direction but 1 puts the sibling right. */
  function FoldDirections(hs: Hasher<Hash>, leaf: Hash, path: seq<Hash>, pathIndex: seq<nat>, k: nat): Hash {
    if k == 0 then leaf
    else
      var below := FoldDirections(hs, leaf, path, pathIndex, k - 1);
      var sibling := if k - 1 < |path| then path[k - 1] else ZERO_HASH;
      var direction := if k - 1 < |pathIndex| then pathIndex[k - 1] else 0;
      if direction == 1 then hs.pair(sibling, below) else hs.pair(below, sibling)
  }

  lemma {:induction false} FoldIsClimb(hs: Hasher<Hash>, leaf: Hash, i: nat, path: seq<Hash>, pathIndex: seq<nat>,
                                       k: nat)
    requires k <= |path| && k <= |pathIndex|
    requires forall l {:trigger pathIndex[l]} :: 0 <= l < k ==> pathIndex[l] == Up(i, l) % 2
    ensures FoldDirections(hs, leaf, path, pathIndex, k) == Climb(hs, leaf, i, path, k)
  {
    if k > 0 {
      FoldIsClimb(hs, leaf, i, path, pathIndex, k - 1);
    }
  }

  method ComputeRoot(hs: Hasher<Hash>, depth: nat, commitment: Hash, path: seq<Hash>, pathIndex: seq<nat>)
    returns (root: Hash)
    ensures root == FoldDirections(hs, commitment, path, pathIndex, depth)
  {
    root := commitment;
    for level := 0 to depth
      invariant root == FoldDirections(hs, commitment, path, pathIndex, level)
    {
      var sibling := ZERO_HASH;
      if level < |path| {
        sibling := path[level];
      }
      var direction := 0;
      if level < |pathIndex| {
        direction := pathIndex[level];
      }
      if direction == 1 {
        root := hs.pair(sibling, root);
      } else {
        root := hs.pair(root, sibling);
      }
    }
  }

  method ZeroHashes(hs: Hasher<Hash>, depth: nat) returns (zeroes: seq<Hash>)
    requires hs.zero == ZERO_HASH
    ensures |zeroes| == depth
    ensures forall l :: 0 <= l < depth ==> zeroes[l] == Zero(hs, l)
  {
    zeroes := seq(depth, _ => ZERO_HASH);
    var level := 1;
    while level < depth
      invariant |zeroes| == depth && 1 <= level
      invariant forall l :: 0 <= l < level && l < depth ==> zeroes[l] == Zero(hs, l)
    {
      zeroes := zeroes[level := hs.pair(zeroes[level - 1], zeroes[level - 1])];
      level := level + 1;
    }
  }

  /** Folding the frozen witness of an append gives the root recorded by that append. */
  lemma AppendPathFolds(hs: Hasher<Hash>, depth: nat, leaves: seq<Hash>, commitment: Hash)
    requires |leaves| < Pow2(depth)
    ensures var p := AppendPath(hs, depth, leaves, commitment);
            FoldDirections(hs, commitment, p.path, p.pathIndex, depth) == p.root
  {
    var n, grown := |leaves|, leaves + [commitment];
    var p := AppendPath(hs, depth, leaves, commitment);
    FoldIsClimb(hs, commitment, n, p.path, p.pathIndex, depth);
    WitnessClimbs(hs, grown, n, p.path, depth);
    FitsIffTopIsZero(n, depth);
  }

  /** The leaves after offering outputs (commitment, payload hash, transaction) one after another. */
  ghost function Grown(depth: nat, leaves: seq<Hash>, outs: seq<(Hash, Hash, Hash)>): seq<Hash> {
    if outs == [] then leaves
    else
      var before, c := Grown(depth, leaves, outs[..|outs| - 1]), outs[|outs| - 1].0;
      if c !in before && |before| < Pow2(depth) then before + [c] else before
  }

  /** Each output in turn joins exactly if it is new and there is room. */
  lemma GrownSnoc(depth: nat, leaves: seq<Hash>, outs: seq<(Hash, Hash, Hash)>, o: (Hash, Hash, Hash))
    ensures Grown(depth, leaves, []) == leaves
    ensures var before := Grown(depth, leaves, outs);
            Grown(depth, leaves, outs + [o])
            == if o.0 in before || |before| >= Pow2(depth) then before else before + [o.0]
  {
    assert (outs + [o])[..|outs|] == outs;
  }

  class Tree {
    const depth: nat
    const hs: Hasher<Hash>

    var nextIndex: nat
    var frontier: map<nat, Hash>
    var commitmentIndex: map<Hash, nat>
    var commitmentPath: map<(Hash, nat), Hash>
    var rootTx: map<Hash, Hash>
    var payload: map<Hash, Hash>

    /** Every leaf ever appended, in order. */
    ghost var leaves: seq<Hash>

    /** What the tree slots alone guarantee, whichever commitments are appended. */
    ghost predicate TreeValid()
      reads this
    {
      && hs.zero == ZERO_HASH
      && nextIndex == |leaves| <= Pow2(depth)
      && SlotsInv(hs, depth, leaves, frontier, commitmentIndex, commitmentPath, rootTx)
    }

    ghost predicate Valid()
      reads this
    {
      && TreeValid()
      && (forall c :: Slot(payload, c) != ZERO_HASH <==> c in leaves)
    }

    constructor (depth: nat, pair: (Hash, Hash) -> Hash)
      ensures Valid() && leaves == [] && this.depth == depth && hs.pair == pair
    {
      this.depth := depth;
      hs := Hasher(pair, ZERO_HASH);
      nextIndex, frontier, commitmentIndex, commitmentPath, rootTx, payload := 0, map[], map[], map[], map[], map[];
      leaves := [];
      new;
      forall l: nat
        ensures Up(0, l) == 0
      {
        UpIsShift(0, l);
      }
    }

    /** The zero hash is never a known root, whatever its slot holds. */
    predicate RootKnown(root: Hash)
      reads this
    {
      root != ZERO_HASH && Slot(rootTx, root) != ZERO_HASH
    }

    /** The accepted anchors are the roots the tree has had, the zero hash excepted. */
    lemma KnownExactly(root: Hash)
      requires TreeValid()
      ensures RootKnown(root) <==> root != ZERO_HASH && WasRoot(hs, depth, leaves, root)
    {
    }

    /** What is proved to fold to an accepted anchor was in the tree when it had that root, short of a collision. */
    lemma AnchorBinds(anchor: Hash, leaf: Hash, i: nat, path: seq<Hash>) returns (k: nat)
      requires Valid() && RootKnown(anchor)
      requires |path| == depth && i < Pow2(depth) && Climb(hs, leaf, i, path, depth) == anchor
      ensures 0 < k <= |leaves| && Root(hs, depth, leaves[..k]) == anchor
      ensures Collides(hs, leaves[..k], leaf, i, path, depth) || leaf == if i < k then leaves[i] else ZERO_HASH
    {
      k := KnownRootBinds(hs, depth, leaves, anchor, leaf, i, path);
    }

    /** The level loop of appendShieldedMerkleLeaf. */
    method RecordAncestors(commitment: Hash, index: nat, zeroes: seq<Hash>) returns (current: Hash)
      requires FrontierInv(hs, depth, leaves, frontier)
      requires index == |leaves|
      requires |zeroes| == depth && forall l :: 0 <= l < depth ==> zeroes[l] == Zero(hs, l)
      modifies this`frontier, this`commitmentPath
      ensures current == SubtreeRoot(hs, leaves + [commitment], depth, Up(index, depth))
      ensures FrontierMoved(hs, leaves + [commitment], index, depth, old(frontier), frontier)
      ensures PathWritten(hs, leaves + [commitment], index, depth, old(commitmentPath), commitmentPath)
    {
      current := commitment;
      ghost var grown, frontier0, path0 := leaves + [commitment], frontier, commitmentPath;
      for level := 0 to depth
        invariant current == SubtreeRoot(hs, grown, level, Up(index, level))
        invariant FrontierMoved(hs, grown, index, level, frontier0, frontier)
        invariant PathWritten(hs, grown, index, level, path0, commitmentPath)
      {
        UpIsShift(index, level);
        SiblingAt(hs, depth, leaves, commitment, frontier0, level);
        ParentIsPair(hs, grown, index, level);
        FrontierStep(hs, grown, index, level, current, frontier0, frontier);
        var sibling;
        if (index / Pow2(level)) % 2 == 0 {
          sibling := zeroes[level];
          frontier := frontier[level := current];
          current := hs.pair(current, sibling);
        } else {
          sibling := Slot(frontier, level);
          assert sibling == Slot(frontier0, level);
          current := hs.pair(sibling, current);
        }
        PathStep(hs, grown, index, level, sibling, path0, commitmentPath);
        commitmentPath := commitmentPath[(commitment, level) := sibling];
      }
    }

    /** appendShieldedMerkleLeaf: fails only on a full tree, and then changes nothing. */
    method AppendLeaf(commitment: Hash, txHash: Hash) returns (ok: bool)
      requires TreeValid()
      requires txHash != ZERO_HASH
      modifies this`nextIndex, this`frontier, this`commitmentIndex, this`commitmentPath, this`rootTx, this`leaves
      ensures ok <==> old(|leaves|) < Pow2(depth)
      ensures !ok ==> unchanged(this)
      ensures ok ==> leaves == old(leaves) + [commitment]
      ensures ok ==> commitmentIndex == old(commitmentIndex)[commitment := old(|leaves|) + 1]
      ensures ok ==> rootTx == old(rootTx)[Root(hs, depth, leaves) := txHash]
      ensures TreeValid()
    {
      var index := nextIndex;
      if index >= Pow2(depth) {
        return false;
      }
      var zeroes := ZeroHashes(hs, depth);
      var current := RecordAncestors(commitment, index, zeroes);
      FitsIffTopIsZero(index, depth);
      SlotsNext(hs, depth, leaves, commitment, txHash, commitmentIndex, rootTx,
                old(frontier), frontier, old(commitmentPath), commitmentPath);
      commitmentIndex := commitmentIndex[commitment := index + 1];
      nextIndex := index + 1;
      rootTx := rootTx[current := txHash];
      leaves := leaves + [commitment];
      return true;
    }

    /** The output part of processShieldedTransaction: one fresh commitment enters the tree. */
    method AddOutput(commitment: Hash, payloadHash: Hash, txHash: Hash) returns (ok: bool)
      requires Valid()
      requires txHash != ZERO_HASH && payloadHash != ZERO_HASH
      modifies this
      ensures ok <==> commitment !in old(leaves) && old(|leaves|) < Pow2(depth)
      ensures ok ==> Valid() && leaves == old(leaves) + [commitment]
      ensures ok ==> commitmentIndex == old(commitmentIndex)[commitment := old(|leaves|) + 1]
      ensures ok ==> payload == old(payload)[commitment := payloadHash]
      ensures ok ==> rootTx == old(rootTx)[Root(hs, depth, leaves) := txHash]
      ensures !ok ==> leaves == old(leaves) && TreeValid()
      ensures !ok && commitment in old(leaves) ==> unchanged(this)
      ensures forall r :: old(RootKnown(r)) ==> RootKnown(r)
    {
      if Slot(payload, commitment) != ZERO_HASH {
        return false;
      }
      payload := payload[commitment := payloadHash];
      ok := AppendLeaf(commitment, txHash);
    }

    /** The frozen witness of a commitment is the one its own append produced. */
    method CommitmentPath(commitment: Hash) returns (p: MerklePath, found: bool)
      requires Valid()
      ensures found <==> commitment in leaves
      ensures found ==> p.index + 1 == Number(commitmentIndex, commitment)
      ensures found ==> p.index < |leaves| && leaves[p.index] == commitment
      ensures found ==> p == AppendPath(hs, depth, leaves[..p.index], commitment)
      ensures found && p.root != ZERO_HASH ==> RootKnown(p.root)
    {
      var indexPlusOne := Number(commitmentIndex, commitment);
      if indexPlusOne == 0 {
        return MerklePath(commitment, 0, ZERO_HASH, [], []), false;
      }
      var index := indexPlusOne - 1;
      var path: seq<Hash> := seq(depth, _ => ZERO_HASH);
      var pathIndex: seq<nat> := seq(depth, _ => 0);
      for level := 0 to depth
        invariant |path| == |pathIndex| == depth
        invariant forall l: nat {:trigger path[l]} :: l < level ==> path[l] == Slot(commitmentPath, (commitment, l))
        invariant forall l: nat {:trigger pathIndex[l]} :: l < level ==> pathIndex[l] == Up(index, l) % 2
        invariant forall l: nat :: level <= l < depth ==> pathIndex[l] == 0
      {
        UpIsShift(index, level);
        path := path[level := Slot(commitmentPath, (commitment, level))];
        if (index / Pow2(level)) % 2 != 0 {
          pathIndex := pathIndex[level := 1];
        }
      }
      var root := ComputeRoot(hs, depth, commitment, path, pathIndex);
      ghost var before := leaves[..index];
      assert before + [commitment] == leaves[..index + 1];
      assert path == AppendPath(hs, depth, before, commitment).path;
      assert pathIndex == AppendPath(hs, depth, before, commitment).pathIndex;
      AppendPathFolds(hs, depth, before, commitment);
      assert WasRoot(hs, depth, leaves, root);
      return MerklePath(commitment, index, root, path, pathIndex), true;
    }

    /** The witness the next append would freeze, computed without appending. */
    method NextPath(commitment: Hash) returns (p: MerklePath)
      requires Valid()
      ensures |leaves| < Pow2(depth) ==> p == AppendPath(hs, depth, leaves, commitment)
    {
      var index := nextIndex;
      var path: seq<Hash> := seq(depth, _ => ZERO_HASH);
      var pathIndex: seq<nat> := seq(depth, _ => 0);
      var zeroes := ZeroHashes(hs, depth);
      for level := 0 to depth
        invariant |path| == |pathIndex| == depth
        invariant forall l: nat :: l < level ==>
          path[l] == SubtreeRoot(hs, leaves + [commitment], l, Sibling(Up(index, l)))
        invariant forall l: nat {:trigger pathIndex[l]} :: l < level ==> pathIndex[l] == Up(index, l) % 2
        invariant forall l: nat :: level <= l < depth ==> pathIndex[l] == 0
      {
        UpIsShift(index, level);
        SiblingAt(hs, depth, leaves, commitment, frontier, level);
        if (index / Pow2(level)) % 2 == 0 {
          path := path[level := zeroes[level]];
        } else {
          path := path[level := Slot(frontier, level)];
          pathIndex := pathIndex[level := 1];
        }
      }
      var root := ComputeRoot(hs, depth, commitment, path, pathIndex);
      p := MerklePath(commitment, index, root, path, pathIndex);
      if |leaves| < Pow2(depth) {
        assert path == AppendPath(hs, depth, leaves, commitment).path;
        assert pathIndex == AppendPath(hs, depth, leaves, commitment).pathIndex;
        AppendPathFolds(hs, depth, leaves, commitment);
      }
    }

    /** Any number of outputs, one after another: new ones join while there is room, and nothing else moves. */
    method AddOutputs(outs: seq<(Hash, Hash, Hash)>)
      requires Valid()
      requires forall o :: o in outs ==> o.1 != ZERO_HASH && o.2 != ZERO_HASH
      modifies this
      ensures Valid()
      ensures leaves == Grown(depth, old(leaves), outs) && old(leaves) <= leaves
      ensures forall c :: c in old(leaves) ==>
                && Number(commitmentIndex, c) == Number(old(commitmentIndex), c)
                && Slot(payload, c) == Slot(old(payload), c)
    {
      assert outs[..0] == [];
      for k := 0 to |outs|
        invariant Valid()
        invariant leaves == Grown(depth, old(leaves), outs[..k]) && old(leaves) <= leaves
        invariant forall c :: c in old(leaves) ==>
                    Number(commitmentIndex, c) == Number(old(commitmentIndex), c)
        invariant forall c :: c in old(leaves) ==> Slot(payload, c) == Slot(old(payload), c)
      {
        assert outs[..k + 1][..k] == outs[..k];
        if Slot(payload, outs[k].0) == ZERO_HASH && nextIndex < Pow2(depth) {
          var added := AddOutput(outs[k].0, outs[k].1, outs[k].2);
        }
      }
      assert outs[..|outs|] == outs;
    }

    /** The predicted witness is the stored witness, now and after any further outputs. */
    method PredictedWitnessIsStored(commitment: Hash, payloadHash: Hash, txHash: Hash, later: seq<(Hash, Hash, Hash)>)
      returns (predicted: MerklePath, stored: MerklePath)
      requires Valid()
      requires commitment !in leaves && |leaves| < Pow2(depth)
      requires txHash != ZERO_HASH && payloadHash != ZERO_HASH
      requires forall o :: o in later ==> o.1 != ZERO_HASH && o.2 != ZERO_HASH
      requires forall a, b :: hs.pair(a, b) != ZERO_HASH
      requires depth > 0
      modifies this
      ensures predicted == stored
      ensures RootKnown(stored.root)
      ensures Slot(payload, commitment) == payloadHash
      ensures leaves == Grown(depth, old(leaves) + [commitment], later)
    {
      predicted := NextPath(commitment);
      var ok := AddOutput(commitment, payloadHash, txHash);
      ghost var n := old(|leaves|);
      assert leaves[n] == commitment;
      AddOutputs(later);
      var found;
      stored, found := CommitmentPath(commitment);
      assert leaves[..n] == old(leaves);
    }
  }
}
