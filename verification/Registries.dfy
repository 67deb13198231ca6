/**
  The two registries built on the sparse tree: one stamp per address and per
  owner, and one recipient key binding per stamped owner.
 */
module Registries {
  import opened Common
  import opened MerkleSpec
  import opened SparseTree
  import opened Sequences

  function TxOf(slots: map<Address, Word>, a: Address): Word {
    if a in slots then slots[a] else ZERO_WORD
  }

  /**
    Stamped addresses and stamp owners correspond one to one: the i-th registration
    recorded its owner under its address and put that owner's leaf at index i.
   */
  ghost predicate StampsInv(addressTx: map<Address, Word>, addressOwner: map<Address, Digest>, leafOf: Digest -> Digest,
                            stamped: seq<Address>, owners: seq<Digest>, leaves: seq<Digest>)
  {
    && |stamped| == |owners| == |leaves|
    && Distinct(stamped) && Distinct(owners)
    && (forall a :: TxOf(addressTx, a) != ZERO_WORD <==> a in stamped)
    && (forall i :: 0 <= i < |stamped| ==>
          stamped[i] in addressOwner && addressOwner[stamped[i]] == owners[i] && leaves[i] == leafOf(owners[i]))
  }

  lemma StampsNext(addressTx: map<Address, Word>, addressOwner: map<Address, Digest>, leafOf: Digest -> Digest,
                   stamped: seq<Address>, owners: seq<Digest>, leaves: seq<Digest>, a: Address, owner: Digest,
                   txHash: Word)
    requires StampsInv(addressTx, addressOwner, leafOf, stamped, owners, leaves)
    requires a !in stamped && owner !in owners && txHash != ZERO_WORD
    ensures StampsInv(addressTx[a := txHash], addressOwner[a := owner], leafOf,
                      stamped + [a], owners + [owner], leaves + [leafOf(owner)])
  {
  }

  /** No owner holds two stamps, so owners cannot multiply by registering more addresses. */
  lemma OneStampPerOwner(addressTx: map<Address, Word>, addressOwner: map<Address, Digest>, leafOf: Digest -> Digest,
                         stamped: seq<Address>, owners: seq<Digest>, leaves: seq<Digest>, a: Address, b: Address)
    requires StampsInv(addressTx, addressOwner, leafOf, stamped, owners, leaves)
    requires TxOf(addressTx, a) != ZERO_WORD && TxOf(addressTx, b) != ZERO_WORD
    ensures a in addressOwner && b in addressOwner
    ensures addressOwner[a] == addressOwner[b] <==> a == b
  {
    var i :| 0 <= i < |stamped| && stamped[i] == a;
    var j :| 0 <= j < |stamped| && stamped[j] == b;
    if i != j {
      assert owners[i] != owners[j];
    }
  }

  class StampRegistry {
    const tree: Tree
    const leafOf: Digest -> Digest

    var addressTx: map<Address, Word>
    var addressOwner: map<Address, Digest>

    /** The beneficiary of every registration, in order. */
    ghost var stamped: seq<Address>

    ghost predicate Valid()
      reads this, tree
    {
      tree.Valid() && StampsInv(addressTx, addressOwner, leafOf, stamped, tree.keys, tree.leaves)
    }

    constructor (depth: nat, hs: Hasher<Digest>, leafOf: Digest -> Digest)
      requires HashIsNative(hs) && depth > 0
      ensures Valid() && fresh(tree) && stamped == [] && this.leafOf == leafOf
      ensures addressTx == map[] && addressOwner == map[]
    {
      tree := new Tree(depth, hs);
      this.leafOf, addressTx, addressOwner, stamped := leafOf, map[], map[], [];
    }

    /** IsAntarticalStamped. */
    predicate IsStamped(a: Address)
      reads this
    {
      TxOf(addressTx, a) != ZERO_WORD
    }

    /**
      The registry part of ProcessAntarticalStamp.  `accepted` stands for the
      envelope, signature, sponsorship and ownership-proof checks.  A second
      processing stage of the same transaction is a no-op.
     */
    method Register(beneficiary: Address, owner: Digest, txHash: Word, accepted: bool) returns (ok: bool)
      requires Valid() && txHash != ZERO_WORD
      modifies this, tree
      ensures Valid()
      ensures TxOf(old(addressTx), beneficiary) == txHash ==> ok
      ensures !ok || TxOf(old(addressTx), beneficiary) == txHash ==> unchanged(this) && unchanged(tree)
      ensures TxOf(old(addressTx), beneficiary) != txHash ==>
                (ok <==> accepted && beneficiary !in old(stamped) && owner !in old(tree.keys)
                         && Canonical(owner) && Canonical(leafOf(owner)) && |old(tree.leaves)| < Pow2(tree.depth))
      ensures ok && TxOf(old(addressTx), beneficiary) != txHash ==>
                && stamped == old(stamped) + [beneficiary]
                && tree.keys == old(tree.keys) + [owner]
                && tree.leaves == old(tree.leaves) + [leafOf(owner)]
                && addressTx == old(addressTx)[beneficiary := txHash]
                && addressOwner == old(addressOwner)[beneficiary := owner]
                && RootFiled(old(tree.storage), tree.storage, Root(tree.hs, tree.depth, tree.leaves), txHash)
    {
      var existing := TxOf(addressTx, beneficiary);
      if existing == txHash {
        return true;
      }
      if existing != ZERO_WORD {
        return false;
      }
      if Get(tree.storage, KeyIndex(owner)) != ZERO_WORD {
        assert IndexOf(tree.storage, owner) > 0;
        return false;
      }
      assert IndexOf(tree.storage, owner) == 0;
      if !accepted || !Canonical(owner) {
        return false;
      }
      ghost var owners, leaves := tree.keys, tree.leaves;
      ok := tree.Append(leafOf(owner), owner, txHash);
      if !ok {
        return;
      }
      StampsNext(addressTx, addressOwner, leafOf, stamped, owners, leaves, beneficiary, owner, txHash);
      addressTx := addressTx[beneficiary := txHash];
      addressOwner := addressOwner[beneficiary := owner];
      stamped := stamped + [beneficiary];
    }

    /** AntarticalStampPath: a witness for the stamp of `owner` against the current root. */
    method StampPath(owner: Digest) returns (r: Checked<TreePath>)
      requires Valid()
      ensures r.Ok? && (r.value.found <==> owner in tree.keys)
      ensures r.value.found ==>
                && |r.value.path| == tree.depth
                && Climb(tree.hs, leafOf(owner), r.value.index, r.value.path, tree.depth) == r.value.root
                && OpensOnly(tree.hs, tree.depth, tree.leaves, r.value.index, r.value.path)
                && r.value.root == Root(tree.hs, tree.depth, tree.leaves)
                && tree.RootKnown(r.value.root)
    {
      r := tree.Path(owner);
    }
  }

  /** Each owner bound one key commitment, stored under the owner and hashed into its leaf. */
  ghost predicate BindingsInv(bound: map<Digest, Digest>, leafOf: (Digest, Digest) -> Digest,
                              owners: seq<Digest>, leaves: seq<Digest>)
  {
    && |owners| == |leaves|
    && Distinct(owners)
    && (forall i :: 0 <= i < |owners| ==> owners[i] in bound && leaves[i] == leafOf(owners[i], bound[owners[i]]))
  }

  lemma BindingsNext(bound: map<Digest, Digest>, leafOf: (Digest, Digest) -> Digest,
                     owners: seq<Digest>, leaves: seq<Digest>, owner: Digest, commitment: Digest)
    requires BindingsInv(bound, leafOf, owners, leaves) && owner !in owners
    ensures BindingsInv(bound[owner := commitment], leafOf, owners + [owner], leaves + [leafOf(owner, commitment)])
  {
  }

  /** An owner is bound once, and its leaf commits to the one commitment stored for it. */
  lemma OneBindingPerOwner(bound: map<Digest, Digest>, leafOf: (Digest, Digest) -> Digest,
                           owners: seq<Digest>, leaves: seq<Digest>, i: nat, j: nat)
    requires BindingsInv(bound, leafOf, owners, leaves) && i < |owners| && j < |owners|
    ensures owners[i] == owners[j] <==> i == j
    ensures owners[i] in bound && leaves[i] == leafOf(owners[i], bound[owners[i]])
  {
  }

  class BindingRegistry {
    const tree: Tree
    const leafOf: (Digest, Digest) -> Digest

    var bound: map<Digest, Digest>

    ghost predicate Valid()
      reads this, tree
    {
      tree.Valid() && BindingsInv(bound, leafOf, tree.keys, tree.leaves)
    }

    constructor (depth: nat, hs: Hasher<Digest>, leafOf: (Digest, Digest) -> Digest)
      requires HashIsNative(hs) && depth > 0
      ensures Valid() && fresh(tree) && tree.keys == [] && bound == map[] && this.leafOf == leafOf
    {
      tree := new Tree(depth, hs);
      this.leafOf, bound := leafOf, map[];
    }

    /** processShieldedV6Binding: the owner is taken from the sender's own stamp and may bind once. */
    method Register(stamps: StampRegistry, from: Address, claimed: Digest, commitment: Digest, txHash: Word,
                    suspended: bool)
      returns (ok: bool)
      requires Valid() && stamps.Valid() && stamps.tree != tree && txHash != ZERO_WORD
      modifies this, tree
      ensures Valid()
      ensures !ok ==> unchanged(this) && unchanged(tree)
      ensures ok <==> && from in stamps.stamped && !suspended
                      && stamps.addressOwner[from] == claimed != ZERO_DIGEST && claimed !in old(tree.keys)
                      && Canonical(commitment) && commitment != ZERO_DIGEST && Canonical(leafOf(claimed, commitment))
                      && |old(tree.leaves)| < Pow2(tree.depth)
      ensures ok ==>
                && tree.keys == old(tree.keys) + [claimed]
                && tree.leaves == old(tree.leaves) + [leafOf(claimed, commitment)]
                && bound == old(bound)[claimed := commitment]
                && RootFiled(old(tree.storage), tree.storage, Root(tree.hs, tree.depth, tree.leaves), txHash)
    {
      if !stamps.IsStamped(from) || suspended {
        return false;
      }
      var owner := stamps.addressOwner[from];
      if Get(tree.storage, KeyIndex(owner)) != ZERO_WORD || ToUint64(Get(tree.storage, Count)) >= Pow2(tree.depth) {
        assert IndexOf(tree.storage, owner) > 0 || |tree.leaves| >= Pow2(tree.depth);
        return false;
      }
      assert IndexOf(tree.storage, owner) == 0;
      if !Canonical(commitment) || commitment == ZERO_DIGEST || owner != claimed || owner == ZERO_DIGEST {
        return false;
      }
      ghost var owners, leaves := tree.keys, tree.leaves;
      ok := tree.Append(leafOf(owner, commitment), owner, txHash);
      if ok {
        BindingsNext(bound, leafOf, owners, leaves, owner, commitment);
        bound := bound[owner := commitment];
      }
    }

    /** ShieldedV6BindingPath: the returned commitment is the one hashed into the witnessed leaf. */
    method BindingPath(owner: Digest) returns (r: Checked<TreePath>, commitment: Digest)
      requires Valid()
      ensures r.Ok? && (r.value.found <==> owner in tree.keys)
      ensures r.value.found ==>
                && |r.value.path| == tree.depth
                && Climb(tree.hs, leafOf(owner, commitment), r.value.index, r.value.path, tree.depth) == r.value.root
                && OpensOnly(tree.hs, tree.depth, tree.leaves, r.value.index, r.value.path)
                && r.value.root == Root(tree.hs, tree.depth, tree.leaves)
                && tree.RootKnown(r.value.root)
    {
      commitment := ZERO_DIGEST;
      var index := IndexOf(tree.storage, owner);
      if index > ToUint64(Get(tree.storage, Count)) {
        return Err(NotCanonical), commitment;
      }
      r := tree.Path(owner);
      if r.Ok? && r.value.found {
        commitment := bound[owner];
      }
    }
  }
}
