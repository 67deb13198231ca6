/**
  The later trees keep every node they ever touched, so a witness can be
  rebuilt against the current root at any time.  The note tree, the stamp
  registry and the registry of recipient key bindings all run this code, each
  under its own slot roles.

  A storage word is four 8-byte lanes.  A digest is five lanes and occupies two
  words; it is canonical when every lane is below the field modulus.
 */
module SparseTree {
  import opened Common
  import opened MerkleSpec

  const FIELD_MODULUS: nat := 0xffff_ffff_0000_0001

  datatype Word = Word(w0: nat, w1: nat, w2: nat, w3: nat)
  const ZERO_WORD := Word(0, 0, 0, 0)

  datatype Digest = Digest(d0: nat, d1: nat, d2: nat, d3: nat, d4: nat)
  const ZERO_DIGEST := Digest(0, 0, 0, 0, 0)

  datatype DigestError = NotCanonical
  type Checked<T> = Result<T, DigestError>

  predicate Canonical(d: Digest) {
    d.d0 < FIELD_MODULUS && d.d1 < FIELD_MODULUS && d.d2 < FIELD_MODULUS && d.d3 < FIELD_MODULUS && d.d4 < FIELD_MODULUS
  }

  /** The two digests a tree stores in pairs of words. */
  datatype Role = Node(level: nat, index: nat) | CurrentRoot

  datatype Slot =
    | Half(role: Role, second: bool)
    | Present(level: nat, index: nat)
    | KeyIndex(key: Digest)
    | Count
    | RootMark(root: Digest)

  type Storage = map<Slot, Word>

  function Get(st: Storage, slot: Slot): Word {
    if slot in st then st[slot] else ZERO_WORD
  }

  /** uint64Hash and uint64FromHash: the low eight bytes of a word. */
  function FromUint64(v: nat): Word {
    Word(0, 0, 0, v)
  }

  function ToUint64(w: Word): nat {
    w.w3
  }

  function WriteDigest(st: Storage, role: Role, d: Digest): Storage {
    st[Half(role, false) := Word(d.d0, d.d1, d.d2, d.d3)][Half(role, true) := Word(0, 0, 0, d.d4)]
  }

  function ReadDigest(st: Storage, role: Role): Checked<Digest> {
    var head, tail := Get(st, Half(role, false)), Get(st, Half(role, true));
    if tail.w0 != 0 || tail.w1 != 0 || tail.w2 != 0 then Err(NotCanonical)
    else
      var d := Digest(head.w0, head.w1, head.w2, head.w3, tail.w3);
      if Canonical(d) then Ok(d) else Err(NotCanonical)
  }

  /** HashPair refuses non-canonical arguments and non-canonical results. */
  function HashPair(hs: Hasher<Digest>, left: Digest, right: Digest): Checked<Digest> {
    if !Canonical(left) || !Canonical(right) then Err(NotCanonical)
    else if Canonical(hs.pair(left, right)) then Ok(hs.pair(left, right)) else Err(NotCanonical)
  }

  /** The native hash always returns field elements. */
  ghost predicate HashIsNative(hs: Hasher<Digest>) {
    hs.zero == ZERO_DIGEST && forall a, b :: Canonical(hs.pair(a, b))
  }

  function ReadNode(st: Storage, level: nat, index: nat, zeroes: seq<Digest>): Checked<Digest>
    requires level < |zeroes|
  {
    if Get(st, Present(level, index)) == ZERO_WORD then Ok(zeroes[level]) else ReadDigest(st, Node(level, index))
  }

  function IndexOf(st: Storage, key: Digest): nat {
    ToUint64(Get(st, KeyIndex(key)))
  }

  // ----- what the slots mean, in terms of the keys and leaves appended so far

  ghost predicate AllCanonical(leaves: seq<Digest>) {
    forall i :: 0 <= i < |leaves| ==> Canonical(leaves[i])
  }

  /** A node is present exactly when an appended leaf lies below it, and then it holds the subtree root. */
  ghost predicate NodesAt(st: Storage, hs: Hasher<Digest>, leaves: seq<Digest>, level: nat) {
    forall index: nat {:trigger Get(st, Present(level, index))} ::
      && (Get(st, Present(level, index)) != ZERO_WORD <==> Touched(|leaves|, level, index))
      && (Touched(|leaves|, level, index) ==>
            ReadDigest(st, Node(level, index)) == Ok(SubtreeRoot(hs, leaves, level, index)))
  }

  ghost predicate NodesInv(st: Storage, hs: Hasher<Digest>, depth: nat, leaves: seq<Digest>) {
    forall level: nat :: level <= depth ==> NodesAt(st, hs, leaves, level)
  }

  /** Index slots hold index + 1 of a leaf that was appended under that key. */
  ghost predicate KeysInv(st: Storage, keys: seq<Digest>) {
    && (forall k {:trigger IndexOf(st, k)} :: k in keys ==> IndexOf(st, k) > 0)
    && (forall k {:trigger IndexOf(st, k)} :: IndexOf(st, k) > 0 ==>
          IndexOf(st, k) <= |keys| && keys[IndexOf(st, k) - 1] == k)
    && (forall k {:trigger Get(st, KeyIndex(k))} :: Get(st, KeyIndex(k)) == FromUint64(IndexOf(st, k)))
  }

  /** The marked roots are exactly the roots the tree has had after some append. */
  ghost predicate RootsInv(st: Storage, hs: Hasher<Digest>, depth: nat, leaves: seq<Digest>) {
    forall r {:trigger Get(st, RootMark(r))} :: Get(st, RootMark(r)) != ZERO_WORD <==> WasRoot(hs, depth, leaves, r)
  }

  ghost predicate TreeInv(st: Storage, hs: Hasher<Digest>, depth: nat, keys: seq<Digest>, leaves: seq<Digest>) {
    && |keys| == |leaves| <= Pow2(depth)
    && AllCanonical(leaves)
    && ToUint64(Get(st, Count)) == |leaves|
    && NodesInv(st, hs, depth, leaves)
    && (leaves != [] ==> ReadDigest(st, CurrentRoot) == Ok(Root(hs, depth, leaves)))
    && KeysInv(st, keys)
    && RootsInv(st, hs, depth, leaves)
  }

  // ----- digests in two words

  lemma DigestRoundTrip(st: Storage, role: Role, d: Digest)
    ensures ReadDigest(WriteDigest(st, role, d), role) == if Canonical(d) then Ok(d) else Err(NotCanonical)
    ensures Canonical(d) <==>
              && d.d0 < 0xffff_ffff_0000_0001 && d.d1 < 0xffff_ffff_0000_0001 && d.d2 < 0xffff_ffff_0000_0001
              && d.d3 < 0xffff_ffff_0000_0001 && d.d4 < 0xffff_ffff_0000_0001
  {
  }

  /** And conversely: a digest that reads back is in storage as writing it would put it there. */
  lemma ReadIsWritten(st: Storage, role: Role, slot: Slot)
    requires ReadDigest(st, role).Ok?
    ensures Canonical(ReadDigest(st, role).value)
    ensures Get(WriteDigest(st, role, ReadDigest(st, role).value), slot) == Get(st, slot)
  {
  }

  lemma {:induction false} SubtreeCanonical(hs: Hasher<Digest>, leaves: seq<Digest>, level: nat, index: nat)
    requires HashIsNative(hs) && AllCanonical(leaves)
    ensures Canonical(SubtreeRoot(hs, leaves, level, index))
  {
    if level > 0 {
      var left := SubtreeRoot(hs, leaves, level - 1, 2 * index);
      var right := SubtreeRoot(hs, leaves, level - 1, 2 * index + 1);
      assert Canonical(hs.pair(left, right));
    }
  }

  // ----- one level of an append

  ghost function NodeWritten(st: Storage, level: nat, index: nat, d: Digest): Storage {
    WriteDigest(st, Node(level, index), d)[Present(level, index) := FromUint64(1)]
  }

  /** Writing the new leaf's ancestor brings its whole level up to date. */
  lemma LevelUpdated(st: Storage, hs: Hasher<Digest>, leaves: seq<Digest>, leaf: Digest, level: nat)
    requires NodesAt(st, hs, leaves, level)
    requires Canonical(SubtreeRoot(hs, leaves + [leaf], level, Up(|leaves|, level)))
    ensures
      var grown, cursor := leaves + [leaf], Up(|leaves|, level);
      NodesAt(NodeWritten(st, level, cursor, SubtreeRoot(hs, grown, level, cursor)), hs, grown, level)
  {
    var grown, cursor := leaves + [leaf], Up(|leaves|, level);
    var d := SubtreeRoot(hs, grown, level, cursor);
    var st' := NodeWritten(st, level, cursor, d);
    forall index: nat
      ensures Get(st', Present(level, index)) != ZERO_WORD <==> Touched(|grown|, level, index)
      ensures Touched(|grown|, level, index) ==>
                ReadDigest(st', Node(level, index)) == Ok(SubtreeRoot(hs, grown, level, index))
    {
      TouchedNext(|leaves|, level, index);
      if index == cursor {
        DigestRoundTrip(st, Node(level, cursor), d);
      } else {
        AppendElsewhere(hs, leaves, leaf, level, index);
        assert Get(st', Present(level, index)) == Get(st, Present(level, index));
      }
    }
  }

  /** ... and leaves every other level as it was. */
  lemma OtherLevelKept(st: Storage, hs: Hasher<Digest>, leaves: seq<Digest>, level: nat, written: nat, index: nat,
                       d: Digest)
    requires NodesAt(st, hs, leaves, level) && level != written
    ensures NodesAt(NodeWritten(st, written, index, d), hs, leaves, level)
  {
    var st' := NodeWritten(st, written, index, d);
    forall i: nat
      ensures Get(st', Present(level, i)) == Get(st, Present(level, i))
      ensures ReadDigest(st', Node(level, i)) == ReadDigest(st, Node(level, i))
    {
    }
  }

  /** Levels below `level` already match the grown tree, the others still match the old one. */
  ghost predicate HalfWay(st: Storage, hs: Hasher<Digest>, depth: nat, leaves: seq<Digest>, leaf: Digest, level: nat) {
    && (forall l: nat :: l < level && l <= depth ==> NodesAt(st, hs, leaves + [leaf], l))
    && (forall l: nat :: level <= l <= depth ==> NodesAt(st, hs, leaves, l))
  }

  lemma HalfWayNext(st: Storage, hs: Hasher<Digest>, depth: nat, leaves: seq<Digest>, leaf: Digest, level: nat)
    requires HashIsNative(hs) && AllCanonical(leaves) && Canonical(leaf) && level <= depth
    requires HalfWay(st, hs, depth, leaves, leaf, level)
    ensures
      var grown, cursor := leaves + [leaf], Up(|leaves|, level);
      HalfWay(NodeWritten(st, level, cursor, SubtreeRoot(hs, grown, level, cursor)), hs, depth, leaves, leaf, level + 1)
  {
    var grown, cursor := leaves + [leaf], Up(|leaves|, level);
    var d := SubtreeRoot(hs, grown, level, cursor);
    SubtreeCanonical(hs, grown, level, cursor);
    LevelUpdated(st, hs, leaves, leaf, level);
    var st' := NodeWritten(st, level, cursor, d);
    forall l: nat | l < level && l <= depth
      ensures NodesAt(st', hs, grown, l)
    {
      OtherLevelKept(st, hs, grown, l, level, cursor, d);
    }
    forall l: nat | level < l <= depth
      ensures NodesAt(st', hs, leaves, l)
    {
      OtherLevelKept(st, hs, leaves, l, level, cursor, d);
    }
  }

  /** Reading any node of an up-to-date level, present or not, gives the subtree root. */
  lemma NodeReads(st: Storage, hs: Hasher<Digest>, leaves: seq<Digest>, level: nat, index: nat, zeroes: seq<Digest>)
    requires NodesAt(st, hs, leaves, level)
    requires level < |zeroes| && zeroes[level] == Zero(hs, level)
    ensures ReadNode(st, level, index, zeroes) == Ok(SubtreeRoot(hs, leaves, level, index))
  {
    if Get(st, Present(level, index)) == ZERO_WORD {
      UntouchedIsZero(hs, leaves, level, index);
    }
  }

  // ----- the slots written after the climb

  ghost function Sealed(st: Storage, key: Digest, count: nat, root: Digest, txHash: Word): Storage {
    WriteDigest(st[KeyIndex(key) := FromUint64(count)][Count := FromUint64(count)][RootMark(root) := txHash],
                CurrentRoot, root)
  }

  /** What the final writes change, slot family by slot family. */
  lemma SealedSlots(st: Storage, key: Digest, count: nat, root: Digest, txHash: Word)
    ensures
      var st' := Sealed(st, key, count, root, txHash);
      && Get(st', Count) == FromUint64(count)
      && ReadDigest(st', CurrentRoot) == (if Canonical(root) then Ok(root) else Err(NotCanonical))
      && (forall k :: Get(st', KeyIndex(k)) == if k == key then FromUint64(count) else Get(st, KeyIndex(k)))
      && (forall r :: Get(st', RootMark(r)) == if r == root then txHash else Get(st, RootMark(r)))
      && (forall l: nat, i: nat :: Get(st', Present(l, i)) == Get(st, Present(l, i)))
      && (forall l: nat, i: nat :: ReadDigest(st', Node(l, i)) == ReadDigest(st, Node(l, i)))
  {
  }

  lemma RootsNext(st: Storage, st': Storage, hs: Hasher<Digest>, depth: nat, leaves: seq<Digest>, leaf: Digest,
                  txHash: Word)
    requires RootsInv(st, hs, depth, leaves) && txHash != ZERO_WORD
    requires forall r ::
               Get(st', RootMark(r)) == if r == Root(hs, depth, leaves + [leaf]) then txHash else Get(st, RootMark(r))
    ensures RootsInv(st', hs, depth, leaves + [leaf])
  {
    forall r {
      WasRootNext(hs, depth, leaves, leaf, r);
    }
  }

  lemma KeysNext(st: Storage, st': Storage, keys: seq<Digest>, key: Digest)
    requires KeysInv(st, keys)
    requires forall k :: Get(st', KeyIndex(k)) == if k == key then FromUint64(|keys| + 1) else Get(st, KeyIndex(k))
    ensures KeysInv(st', keys + [key])
  {
    forall k
      ensures IndexOf(st', k) == if k == key then |keys| + 1 else IndexOf(st, k)
    {
    }
  }

  lemma NodesFrame(st: Storage, st': Storage, hs: Hasher<Digest>, depth: nat, leaves: seq<Digest>)
    requires NodesInv(st, hs, depth, leaves)
    requires forall l: nat, i: nat :: Get(st', Present(l, i)) == Get(st, Present(l, i))
    requires forall l: nat, i: nat :: ReadDigest(st', Node(l, i)) == ReadDigest(st, Node(l, i))
    ensures NodesInv(st', hs, depth, leaves)
  {
    forall level: nat | level <= depth
      ensures NodesAt(st', hs, leaves, level)
    {
      assert NodesAt(st, hs, leaves, level);
      forall i: nat
        ensures Get(st', Present(level, i)) != ZERO_WORD <==> Touched(|leaves|, level, i)
        ensures Touched(|leaves|, level, i) ==> ReadDigest(st', Node(level, i)) == Ok(SubtreeRoot(hs, leaves, level, i))
      {
        assert Get(st', Present(level, i)) == Get(st, Present(level, i));
        assert ReadDigest(st', Node(level, i)) == ReadDigest(st, Node(level, i));
      }
    }
  }

  /** Nothing but node slots differs. */
  ghost predicate OnlyNodesMoved(st: Storage, st': Storage) {
    forall s: Slot {:trigger Get(st', s)} :: !s.Present? && !(s.Half? && s.role.Node?) ==> Get(st', s) == Get(st, s)
  }

  /** Root marks are never cleared. */
  ghost predicate MarksKept(st: Storage, st': Storage) {
    forall r {:trigger Get(st', RootMark(r))} :: Get(st, RootMark(r)) != ZERO_WORD ==>
        Get(st', RootMark(r)) != ZERO_WORD
  }

  /** The root is filed under the transaction, and every other root as before. */
  ghost predicate RootFiled(st: Storage, st': Storage, root: Digest, txHash: Word) {
    forall r {:trigger Get(st', RootMark(r))} ::
      Get(st', RootMark(r)) == if r == root then txHash else Get(st, RootMark(r))
  }

  /** The climb followed by the final writes re-establishes the whole tree invariant. */
  lemma TreeNext(st: Storage, mid: Storage, hs: Hasher<Digest>, depth: nat,
                 keys: seq<Digest>, leaves: seq<Digest>, key: Digest, leaf: Digest, txHash: Word)
    requires HashIsNative(hs) && |leaves| < Pow2(depth)
    requires TreeInv(st, hs, depth, keys, leaves) && Canonical(leaf) && txHash != ZERO_WORD
    requires OnlyNodesMoved(st, mid)
    requires NodesInv(mid, hs, depth, leaves + [leaf])
    ensures
      var st' := Sealed(mid, key, |leaves| + 1, Root(hs, depth, leaves + [leaf]), txHash);
      && TreeInv(st', hs, depth, keys + [key], leaves + [leaf])
      && MarksKept(st, st')
      && RootFiled(st, st', Root(hs, depth, leaves + [leaf]), txHash)
  {
    var grown, root := leaves + [leaf], Root(hs, depth, leaves + [leaf]);
    var st' := Sealed(mid, key, |leaves| + 1, root, txHash);
    SubtreeCanonical(hs, grown, depth, 0);
    SealedSlots(mid, key, |leaves| + 1, root, txHash);
    assert RootFiled(st, st', root, txHash);
    assert RootsInv(st', hs, depth, grown) by { RootsNext(st, st', hs, depth, leaves, leaf, txHash); }
    assert KeysInv(st', keys + [key]) by { KeysNext(st, st', keys, key); }
    assert NodesInv(st', hs, depth, grown) by { NodesFrame(mid, st', hs, depth, grown); }
  }

  lemma EmptyTree(hs: Hasher<Digest>, depth: nat)
    ensures TreeInv(map[], hs, depth, [], [])
  {
    forall level: nat | level <= depth
      ensures NodesAt(map[], hs, [], level)
    {
      forall index: nat
        ensures Get(map[], Present(level, index)) == ZERO_WORD && !Touched(0, level, index)
      {
      }
    }
  }

  /** A full sibling path folds to the current root, which is a marked one. */
  lemma PathFolds(st: Storage, hs: Hasher<Digest>, depth: nat, keys: seq<Digest>, leaves: seq<Digest>, i: nat,
                  path: seq<Digest>)
    requires TreeInv(st, hs, depth, keys, leaves) && i < |leaves|
    requires |path| == depth && IsWitness(hs, leaves, i, path)
    ensures Climb(hs, leaves[i], i, path, depth) == Root(hs, depth, leaves)
    ensures Get(st, RootMark(Root(hs, depth, leaves))) != ZERO_WORD
  {
    WitnessClimbs(hs, leaves, i, path, depth);
    FitsIffTopIsZero(i, depth);
    assert leaves[..|leaves|] == leaves;
    assert WasRoot(hs, depth, leaves, Root(hs, depth, leaves));
  }

  // ----- the running tree

  /** v3Zeroes: the digests of empty subtrees up to and including the root level. */
  method Zeroes(hs: Hasher<Digest>, depth: nat) returns (zeroes: seq<Digest>)
    requires HashIsNative(hs)
    ensures |zeroes| == depth + 1
    ensures forall l :: 0 <= l <= depth ==> zeroes[l] == Zero(hs, l)
  {
    zeroes := seq(depth + 1, _ => ZERO_DIGEST);
    var i := 1;
    while i < |zeroes|
      invariant 1 <= i <= |zeroes| == depth + 1
      invariant forall l :: 0 <= l < i ==> zeroes[l] == Zero(hs, l)
    {
      zeroes := zeroes[i := hs.pair(zeroes[i - 1], zeroes[i - 1])];
      i := i + 1;
    }
  }

  datatype TreePath = TreePath(index: nat, root: Digest, path: seq<Digest>, found: bool)

  class Tree {
    const depth: nat
    const hs: Hasher<Digest>

    var storage: Storage

    /** The key and the leaf of every append, in order. */
    ghost var keys: seq<Digest>
    ghost var leaves: seq<Digest>

    ghost predicate Valid()
      reads this
    {
      HashIsNative(hs) && depth > 0 && TreeInv(storage, hs, depth, keys, leaves)
    }

    constructor (depth: nat, hs: Hasher<Digest>)
      requires HashIsNative(hs) && depth > 0
      ensures Valid() && this.depth == depth && this.hs == hs && keys == [] && leaves == []
    {
      this.depth, this.hs, storage, keys, leaves := depth, hs, map[], [], [];
      new;
      EmptyTree(hs, depth);
    }

    /** The level loop of an append.  A non-canonical leaf is refused after its own slot was written. */
    method RecordAncestors(leaf: Digest, index: nat, zeroes: seq<Digest>) returns (ok: bool, current: Digest)
      requires HashIsNative(hs) && depth > 0
      requires index == |leaves| && AllCanonical(leaves)
      requires NodesInv(storage, hs, depth, leaves)
      requires |zeroes| == depth + 1 && forall l :: 0 <= l <= depth ==> zeroes[l] == Zero(hs, l)
      modifies this`storage
      ensures ok <==> Canonical(leaf)
      ensures ok ==> NodesInv(storage, hs, depth, leaves + [leaf])
      ensures ok ==> current == SubtreeRoot(hs, leaves + [leaf], depth, Up(index, depth))
      ensures OnlyNodesMoved(old(storage), storage)
    {
      current := leaf;
      var cursor, level := index, 0;
      ghost var grown := leaves + [leaf];
      while level <= depth
        invariant level <= depth
        invariant cursor == Up(index, level)
        invariant current == SubtreeRoot(hs, grown, level, cursor)
        invariant level > 0 ==> Canonical(leaf)
        invariant HalfWay(storage, hs, depth, leaves, leaf, level)
        invariant OnlyNodesMoved(old(storage), storage)
        decreases depth - level
      {
        ghost var st := storage;
        storage := WriteDigest(storage, Node(level, cursor), current);
        storage := storage[Present(level, cursor) := FromUint64(1)];
        assert OnlyNodesMoved(st, storage);
        if Canonical(leaf) {
          HalfWayNext(st, hs, depth, leaves, leaf, level);
          NodeReads(storage, hs, grown, level, Sibling(cursor), zeroes);
          SubtreeCanonical(hs, grown, level, cursor);
          SubtreeCanonical(hs, grown, level, Sibling(cursor));
        }
        if level == depth {
          break;
        }
        var sibling := ReadNode(storage, level, Sibling(cursor), zeroes);
        if sibling.Err? {
          return false, current;
        }
        var parent := if cursor % 2 == 0 then HashPair(hs, current, sibling.value)
          else HashPair(hs, sibling.value, current);
        if parent.Err? {
          return false, current;
        }
        ParentIsPair(hs, grown, index, level);
        current := parent.value;
        cursor := cursor / 2;
        level := level + 1;
      }
      ok := true;
    }

    /** Append one leaf, all or nothing: the caller's snapshot is restored when the climb fails. */
    method Append(leaf: Digest, key: Digest, txHash: Word) returns (ok: bool)
      requires Valid() && txHash != ZERO_WORD
      modifies this
      ensures Valid()
      ensures ok <==> old(|leaves|) < Pow2(depth) && Canonical(leaf)
      ensures ok ==> leaves == old(leaves) + [leaf] && keys == old(keys) + [key]
      ensures ok ==> RootFiled(old(storage), storage, Root(hs, depth, leaves), txHash)
      ensures !ok ==> unchanged(this)
      ensures MarksKept(old(storage), storage)
    {
      var snapshot := storage;
      var index := ToUint64(Get(storage, Count));
      if index >= Pow2(depth) {
        return false;
      }
      var zeroes := Zeroes(hs, depth);
      var current;
      ok, current := RecordAncestors(leaf, index, zeroes);
      if !ok {
        storage := snapshot;
        return;
      }
      FitsIffTopIsZero(index, depth);
      ghost var mid := storage;
      TreeNext(snapshot, mid, hs, depth, keys, leaves, key, leaf, txHash);
      storage := storage[KeyIndex(key) := FromUint64(index + 1)];
      storage := storage[Count := FromUint64(index + 1)];
      storage := storage[RootMark(current) := txHash];
      storage := WriteDigest(storage, CurrentRoot, current);
      assert storage == Sealed(mid, key, index + 1, current, txHash);
      keys := keys + [key];
      leaves := leaves + [leaf];
    }

    /** A root is an accepted anchor exactly when the tree has had it. */
    predicate RootKnown(root: Digest)
      reads this
    {
      Get(storage, RootMark(root)) != ZERO_WORD
    }

    /** The accepted anchors are the roots the tree has had. */
    lemma KnownExactly(root: Digest)
      requires Valid()
      ensures RootKnown(root) <==> WasRoot(hs, depth, leaves, root)
    {
    }

    /** What is proved to fold to an accepted anchor was in the tree when it had that root, short of a collision. */
    lemma AnchorBinds(anchor: Digest, leaf: Digest, i: nat, path: seq<Digest>) returns (k: nat)
      requires Valid() && RootKnown(anchor)
      requires |path| == depth && i < Pow2(depth) && Climb(hs, leaf, i, path, depth) == anchor
      ensures 0 < k <= |leaves| && Root(hs, depth, leaves[..k]) == anchor
      ensures Collides(hs, leaves[..k], leaf, i, path, depth) || leaf == if i < k then leaves[i] else ZERO_DIGEST
    {
      k := KnownRootBinds(hs, depth, leaves, anchor, leaf, i, path);
    }

    /** ShieldedV3Root and its twins. */
    method CurrentRootDigest() returns (root: Checked<Digest>)
      requires Valid()
      ensures root == Ok(Root(hs, depth, leaves))
    {
      var zeroes := Zeroes(hs, depth);
      if ToUint64(Get(storage, Count)) == 0 {
        forall i: nat
          ensures !Touched(0, depth, i)
        {
        }
        UntouchedIsZero(hs, leaves, depth, 0);
        return Ok(zeroes[depth]);
      }
      return ReadDigest(storage, CurrentRoot);
    }

    /** The sibling loop of a path lookup. */
    method Siblings(index: nat) returns (r: Checked<seq<Digest>>)
      requires HashIsNative(hs) && NodesInv(storage, hs, depth, leaves)
      ensures r.Ok? && |r.value| == depth && IsWitness(hs, leaves, index, r.value)
    {
      var zeroes := Zeroes(hs, depth);
      var path: seq<Digest> := seq(depth, _ => ZERO_DIGEST);
      var cursor := index;
      for level := 0 to depth
        invariant |path| == depth && cursor == Up(index, level)
        invariant forall l {:trigger path[l]} :: 0 <= l < level ==>
                    path[l] == SubtreeRoot(hs, leaves, l, Sibling(Up(index, l)))
      {
        NodeReads(storage, hs, leaves, level, Sibling(cursor), zeroes);
        var sibling := ReadNode(storage, level, Sibling(cursor), zeroes);
        if sibling.Err? {
          return Err(NotCanonical);
        }
        path := path[level := sibling.value];
        cursor := cursor / 2;
      }
      r := Ok(path);
    }

    /** A witness for the leaf stored under `key`, rebuilt against the current root. */
    method Path(key: Digest) returns (r: Checked<TreePath>)
      requires Valid()
      ensures r.Ok? && (r.value.found <==> key in keys)
      ensures r.value.found ==>
                && r.value.index < |leaves| && keys[r.value.index] == key
                && |r.value.path| == depth
                && r.value.root == Root(hs, depth, leaves)
                && Climb(hs, leaves[r.value.index], r.value.index, r.value.path, depth) == r.value.root
                && OpensOnly(hs, depth, leaves, r.value.index, r.value.path)
                && RootKnown(r.value.root)
    {
      var indexPlusOne := IndexOf(storage, key);
      if indexPlusOne == 0 {
        return Ok(TreePath(0, ZERO_DIGEST, [], false));
      }
      var index := indexPlusOne - 1;
      var path := Siblings(index);
      if path.Err? {
        return Err(NotCanonical);
      }
      PathFolds(storage, hs, depth, keys, leaves, index, path.value);
      WitnessOpensOnly(hs, depth, leaves, index, path.value);
      var root := ReadDigest(storage, CurrentRoot);
      if root.Err? {
        return Err(NotCanonical);
      }
      return Ok(TreePath(index, root.value, path.value, true));
    }
  }
}
