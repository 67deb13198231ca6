/**
  The canonical chain index: number to hash, transaction to number, and the head
  markers, as `reorg` and its callers rewrite them.
 */
module BlockChain {
  import opened Common
  import opened ChainSpec
  import opened Sequences

  datatype Outcome = Done | UnknownAncestor | InvalidOldChain | InvalidNewChain | CheckpointReorg | CheckpointMismatch

  /** `c` is the height where the two chains part. */
  ghost predicate ForkAt(db: Store, a: Hash, b: Hash, c: nat) {
    && Closed(db) && a in db && b in db
    && c <= db[a].number && c <= db[b].number
    && Ancestor(db, a, c) == Ancestor(db, b, c)
    && (c < db[a].number && c < db[b].number ==> Ancestor(db, a, c + 1) != Ancestor(db, b, c + 1))
  }

  /** A branch as the walk gathers it: top block first, down to just above height `c`. */
  ghost predicate IsBranch(db: Store, top: Hash, c: nat, chain: seq<Hash>)
    requires Closed(db) && top in db
  {
    && c <= db[top].number && |chain| == db[top].number - c
    && forall i {:trigger chain[i]} :: 0 <= i < |chain| ==> chain[i] == Ancestor(db, top, db[top].number - i)
  }

  function Max(x: nat, y: nat): nat {
    if x < y then y else x
  }

  /** The number index once heights above `c` up to `k` were rewritten for the new branch. */
  ghost function MixedMap(db: Store, a: Hash, b: Hash, c: nat, k: nat): map<nat, Hash>
    requires ForkAt(db, a, b, c) && c <= k <= db[b].number
  {
    map n: nat | 0 <= n <= Max(db[a].number, k) :: if c < n <= k then Ancestor(db, b, n) else Ancestor(db, a, n)
  }

  lemma MixedStart(db: Store, a: Hash, b: Hash, c: nat)
    requires ForkAt(db, a, b, c)
    ensures MixedMap(db, a, b, c, c) == ChainMap(db, a)
  {
  }

  lemma MixedStep(db: Store, a: Hash, b: Hash, c: nat, k: nat)
    requires ForkAt(db, a, b, c) && c <= k < db[b].number
    ensures MixedMap(db, a, b, c, k)[k + 1 := Ancestor(db, b, k + 1)] == MixedMap(db, a, b, c, k + 1)
  {
  }

  /** Cutting the mixed index above `k` leaves the ancestors of the new branch's block at `k`. */
  lemma MixedCut(db: Store, a: Hash, b: Hash, c: nat, k: nat, cut: set<nat>)
    requires ForkAt(db, a, b, c) && c <= k <= db[b].number
    requires forall n: nat :: n in cut <==> k < n <= db[a].number
    ensures MixedMap(db, a, b, c, k) - cut == ChainMap(db, Ancestor(db, b, k))
  {
    var l, r := MixedMap(db, a, b, c, k) - cut, ChainMap(db, Ancestor(db, b, k));
    forall n: nat
      ensures n in l <==> n in r
      ensures n in l ==> l[n] == r[n]
    {
      if n <= k {
        AncestorOfAncestor(db, b, k, n);
        if n <= c {
          MeetBelow(db, a, b, c, n);
        }
      }
    }
    assert l.Keys == r.Keys;
  }

  // ----- transaction lookup

  function WithEntries(lookup: map<Tx, nat>, txs: seq<Tx>, number: nat): map<Tx, nat> {
    lookup + (map t | t in txs :: number)
  }

  /** The lookup once the new branch's blocks above `c` up to `k` were indexed over `before`. */
  ghost predicate LookupMixed(db: Store, b: Hash, c: nat, k: nat, before: map<Tx, nat>, lookup: map<Tx, nat>)
    requires Closed(db) && b in db && c <= k <= db[b].number
  {
    forall t {:trigger t in lookup} ::
      if t in TxsBetween(db, b, c + 1, k + 1)
      then t in lookup && c < lookup[t] <= k && TxAt(db, b, lookup[t], t)
      else (t in lookup <==> t in before) && (t in before ==> lookup[t] == before[t])
  }

  lemma LookupStep(db: Store, b: Hash, c: nat, k: nat, before: map<Tx, nat>, lookup: map<Tx, nat>)
    requires Closed(db) && b in db && c <= k < db[b].number
    requires LookupMixed(db, b, c, k, before, lookup)
    ensures LookupMixed(db, b, c, k + 1, before, WithEntries(lookup, db[Ancestor(db, b, k + 1)].txs, k + 1))
  {
    var txs := db[Ancestor(db, b, k + 1)].txs;
    var next := WithEntries(lookup, txs, k + 1);
    forall t
      ensures t in next <==> t in lookup || t in txs
      ensures t in next ==> next[t] == if t in txs then k + 1 else lookup[t]
    {
    }
  }

  /** In a chain without repeats, a transaction at or below `c` occurs nowhere above it. */
  lemma NotAbove(db: Store, h: Hash, c: nat, n: nat, t: Tx, hi: nat)
    requires Closed(db) && h in db && UniqueTxs(db, h) && n <= c <= db[h].number && hi <= db[h].number + 1
    requires TxAt(db, h, n, t)
    ensures t !in TxsBetween(db, h, c + 1, hi)
  {
    if t in TxsBetween(db, h, c + 1, hi) {
      var m := HeightOf(db, h, c + 1, hi, t);
      assert false;
    }
  }

  /** Below the fork both chains hold the same transactions. */
  lemma SameTxBelow(db: Store, a: Hash, b: Hash, c: nat, n: nat, t: Tx)
    requires ForkAt(db, a, b, c) && n <= c
    ensures TxAt(db, a, n, t) <==> TxAt(db, b, n, t)
  {
    MeetBelow(db, a, b, c, n);
  }

  lemma SameTxInside(db: Store, b: Hash, k: nat, n: nat, t: Tx)
    requires Closed(db) && b in db && n <= k <= db[b].number
    ensures TxAt(db, Ancestor(db, b, k), n, t) <==> TxAt(db, b, n, t)
  {
    AncestorOfAncestor(db, b, k, n);
  }

  /** The reorganised lookup before the old branch's leftovers are dropped. */
  ghost predicate ReadyToCut(db: Store, a: Hash, b: Hash, c: nat, k: nat, before: map<Tx, nat>, lookup: map<Tx, nat>) {
    && ForkAt(db, a, b, c) && c <= k <= db[b].number
    && UniqueTxs(db, a) && UniqueTxs(db, b)
    && LookupExact(db, a, before)
    && LookupMixed(db, b, c, k, before, lookup)
  }

  lemma SurvivorIsCanonical(db: Store, a: Hash, b: Hash, c: nat, k: nat, before: map<Tx, nat>, lookup: map<Tx, nat>,
                            t: Tx)
    requires ReadyToCut(db, a, b, c, k, before, lookup) && t in lookup
    requires t in TxsBetween(db, a, c + 1, db[a].number + 1) ==> t in TxsBetween(db, b, c + 1, k + 1)
    ensures lookup[t] <= k && TxAt(db, b, lookup[t], t)
  {
    if t !in TxsBetween(db, b, c + 1, k + 1) {
      var m := before[t];
      assert t in before && TxAt(db, a, m, t);
      if m > c {
        InTxsBetween(db, a, c + 1, db[a].number + 1, m, t);
        assert false;
      }
      SameTxBelow(db, a, b, c, m, t);
    }
  }

  lemma CanonicalSurvives(db: Store, a: Hash, b: Hash, c: nat, k: nat, before: map<Tx, nat>, lookup: map<Tx, nat>,
                          n: nat, t: Tx)
    requires ReadyToCut(db, a, b, c, k, before, lookup)
    requires n <= k && TxAt(db, b, n, t)
    ensures t in lookup && lookup[t] == n
    ensures t in TxsBetween(db, a, c + 1, db[a].number + 1) ==> t in TxsBetween(db, b, c + 1, k + 1)
  {
    if n > c {
      InTxsBetween(db, b, c + 1, k + 1, n, t);
      assert t in lookup;
    } else {
      NotAbove(db, b, c, n, t, k + 1);
      SameTxBelow(db, a, b, c, n, t);
      NotAbove(db, a, c, n, t, db[a].number + 1);
      assert t in before && before[t] == n;
      assert t in lookup;
    }
  }

  /**
    Dropping the old branch's transactions, except those the new branch brought back,
    leaves exactly the lookup of the new branch's block at `k`.
   */
  lemma LookupCut(db: Store, a: Hash, b: Hash, c: nat, k: nat, before: map<Tx, nat>, lookup: map<Tx, nat>,
                  dropped: set<Tx>)
    requires ReadyToCut(db, a, b, c, k, before, lookup)
    requires dropped == TxsBetween(db, a, c + 1, db[a].number + 1) - TxsBetween(db, b, c + 1, k + 1)
    ensures LookupExact(db, Ancestor(db, b, k), lookup - dropped)
  {
    var top, after := Ancestor(db, b, k), lookup - dropped;
    forall t | t in after
      ensures TxAt(db, top, after[t], t)
    {
      SurvivorIsCanonical(db, a, b, c, k, before, lookup, t);
      SameTxInside(db, b, k, after[t], t);
    }
    forall n: nat, t | TxAt(db, top, n, t)
      ensures t in after && after[t] == n
    {
      SameTxInside(db, b, k, n, t);
      CanonicalSurvives(db, a, b, c, k, before, lookup, n, t);
    }
  }

  // ----- the head write

  /** Writing a block on top of an index that is exact for its parent makes the index exact for it. */
  lemma HeadExtends(db: Store, h: Hash, canon: map<nat, Hash>, lookup: map<Tx, nat>)
    requires Closed(db) && h in db && db[h].number > 0 && UniqueTxs(db, h) && Linked(db, h)
    requires canon == ChainMap(db, db[h].parent) && LookupExact(db, db[h].parent, lookup)
    ensures canon[db[h].number := h] == ChainMap(db, h)
    ensures LookupExact(db, h, WithEntries(lookup, db[h].txs, db[h].number))
  {
    var p, top, next := db[h].parent, db[h].number, WithEntries(lookup, db[h].txs, db[h].number);
    forall n: nat, t
      ensures TxAt(db, h, n, t) <==> TxAt(db, p, n, t) || (n == top && t in db[h].txs)
    {
    }
    forall n: nat, t | TxAt(db, h, n, t)
      ensures t in next && next[t] == n
    {
      assert t in db[h].txs ==> TxAt(db, h, top, t);
    }
  }

  /** Writing a block that already is the exact head changes nothing. */
  lemma HeadRepeats(db: Store, h: Hash, canon: map<nat, Hash>, lookup: map<Tx, nat>)
    requires Closed(db) && h in db
    requires canon == ChainMap(db, h) && LookupExact(db, h, lookup)
    ensures canon[db[h].number := h] == canon
    ensures WithEntries(lookup, db[h].txs, db[h].number) == lookup
  {
    assert Ancestor(db, h, db[h].number) == h;
    var next := WithEntries(lookup, db[h].txs, db[h].number);
    forall t | t in db[h].txs
      ensures t in lookup && lookup[t] == db[h].number
    {
      assert TxAt(db, h, db[h].number, t);
    }
    assert next.Keys == lookup.Keys;
  }

  // ----- finding the fork

  /** A walk from `top` has reached `at`, gathering every block above it. */
  ghost predicate Reached(db: Store, top: Hash, at: Hash, chain: seq<Hash>)
    requires Closed(db) && top in db
  {
    at in db && IsBranch(db, top, db[at].number, chain) && at == Ancestor(db, top, db[at].number)
  }

  lemma ReachedParent(db: Store, top: Hash, at: Hash, chain: seq<Hash>)
    requires Closed(db) && top in db && Reached(db, top, at, chain) && db[at].number > 0
    ensures Linked(db, at)
    ensures Reached(db, top, db[at].parent, chain + [at])
  {
    assert Linked(db, at);
    AncestorParent(db, top, db[at].number);
  }

  /** Reduce the longer chain to the height of the shorter one. */
  method WalkDown(db: Store, top: Hash, height: nat) returns (ok: bool, at: Hash, chain: seq<Hash>)
    requires Closed(db) && top in db && height <= db[top].number
    ensures ok && Reached(db, top, at, chain) && db[at].number == height
  {
    at, chain := top, [];
    while db[at].number != height
      invariant Reached(db, top, at, chain) && height <= db[at].number
      decreases db[at].number
    {
      ReachedParent(db, top, at, chain);
      chain := chain + [at];
      var parent := GetHeader(db, db[at].parent, db[at].number - 1);
      if parent.None? {
        return false, at, chain;
      }
      at := db[at].parent;
    }
    ok := true;
  }

  /**
    The walks of reorg.  They fail exactly when the chains have different first
    blocks, and then on the old side.
   */
  method FindFork(db: Store, oldTop: Hash, newTop: Hash)
    returns (err: Outcome, common: Hash, oldChain: seq<Hash>, newChain: seq<Hash>)
    requires Closed(db) && oldTop in db && newTop in db
    ensures err == if Ancestor(db, oldTop, 0) == Ancestor(db, newTop, 0) then Done else InvalidOldChain
    ensures err == Done ==>
              && Reached(db, oldTop, common, oldChain) && Reached(db, newTop, common, newChain)
              && ForkAt(db, oldTop, newTop, db[common].number)
  {
    var o, n := oldTop, newTop;
    oldChain, newChain, common := [], [], oldTop;
    var ok;
    if db[o].number > db[n].number {
      ok, o, oldChain := WalkDown(db, oldTop, db[newTop].number);
      if !ok {
        return InvalidOldChain, common, oldChain, newChain;
      }
    } else {
      ok, n, newChain := WalkDown(db, newTop, db[oldTop].number);
      if !ok {
        return InvalidNewChain, common, oldChain, newChain;
      }
    }
    while o != n
      invariant Reached(db, oldTop, o, oldChain) && Reached(db, newTop, n, newChain)
      invariant db[o].number == db[n].number
      invariant var c := db[o].number;
                c < db[oldTop].number && c < db[newTop].number ==>
                    Ancestor(db, oldTop, c + 1) != Ancestor(db, newTop, c + 1)
      decreases db[o].number
    {
      if db[o].number > 0 {
        ReachedParent(db, oldTop, o, oldChain);
        ReachedParent(db, newTop, n, newChain);
      }
      oldChain := oldChain + [o];
      newChain := newChain + [n];
      var oldParent := GetHeader(db, db[o].parent, db[o].number - 1);
      if oldParent.None? {
        return InvalidOldChain, common, oldChain, newChain;
      }
      var newParent := GetHeader(db, db[n].parent, db[n].number - 1);
      if newParent.None? {
        return InvalidNewChain, common, oldChain, newChain;
      }
      o, n := db[o].parent, db[n].parent;
    }
    MeetBelow(db, oldTop, newTop, db[o].number, 0);
    return Done, o, oldChain, newChain;
  }

  // ----- checkpoints

  datatype Checkpoints = Checkpoints(points: map<nat, Hash>, validateAll: bool, mandatory: set<nat>) {
    /** ShouldValidateCheckpoint together with GetCheckpoint. */
    predicate Enforced(n: nat) {
      (validateAll || n in mandatory) && n in points
    }
  }

  /** No enforced checkpoint would be dropped, and every enforced height that is adopted carries its checkpoint. */
  ghost predicate CheckpointsAllow(db: Store, cp: Checkpoints, a: Hash, b: Hash, c: nat)
    requires ForkAt(db, a, b, c)
  {
    && (forall n: nat :: c < n <= db[a].number && cp.Enforced(n) ==> cp.points[n] != Ancestor(db, a, n))
    && (forall n: nat :: c < n <= db[b].number && cp.Enforced(n) ==> cp.points[n] == Ancestor(db, b, n))
  }

  method CheckCheckpoints(db: Store, cp: Checkpoints, oldChain: seq<Hash>, newChain: seq<Hash>,
                          ghost a: Hash, ghost b: Hash, ghost c: nat)
    returns (err: Outcome)
    requires ForkAt(db, a, b, c) && IsBranch(db, a, c, oldChain) && IsBranch(db, b, c, newChain)
    ensures err in {Done, CheckpointReorg, CheckpointMismatch}
    ensures err == Done <==> CheckpointsAllow(db, cp, a, b, c)
    ensures err == CheckpointReorg <==>
              exists n: nat :: c < n <= db[a].number && cp.Enforced(n) && cp.points[n] == Ancestor(db, a, n)
  {
    for i := 0 to |oldChain|
      invariant forall n: nat :: db[a].number - i < n <= db[a].number && cp.Enforced(n) ==>
                  cp.points[n] != Ancestor(db, a, n)
    {
      var number := db[oldChain[i]].number;
      if cp.Enforced(number) && cp.points[number] == oldChain[i] {
        assert c < number <= db[a].number && cp.points[number] == Ancestor(db, a, number);
        return CheckpointReorg;
      }
    }
    for i := 0 to |newChain|
      invariant forall n: nat :: db[b].number - i < n <= db[b].number && cp.Enforced(n) ==>
                  cp.points[n] == Ancestor(db, b, n)
    {
      var number := db[newChain[i]].number;
      if cp.Enforced(number) && cp.points[number] != newChain[i] {
        return CheckpointMismatch;
      }
    }
    return Done;
  }

  /** The chains of `a` and `b` have a fork point at which the checkpoints permit the move. */
  ghost predicate MoveAllowed(db: Store, cp: Checkpoints, a: Hash, b: Hash) {
    exists c: nat :: ForkAt(db, a, b, c) && CheckpointsAllow(db, cp, a, b, c)
  }

  lemma ForkIsUnique(db: Store, a: Hash, b: Hash, c: nat, c': nat)
    requires ForkAt(db, a, b, c) && ForkAt(db, a, b, c')
    ensures c == c'
  {
    if c < c' {
      MeetBelow(db, a, b, c', c + 1);
    } else if c' < c {
      MeetBelow(db, a, b, c, c' + 1);
    }
  }

  lemma MoveDecided(db: Store, cp: Checkpoints, a: Hash, b: Hash, c: nat)
    requires ForkAt(db, a, b, c)
    ensures MoveAllowed(db, cp, a, b) <==> CheckpointsAllow(db, cp, a, b, c)
  {
    forall c': nat | ForkAt(db, a, b, c')
      ensures c' == c
    {
      ForkIsUnique(db, a, b, c, c');
    }
  }

  lemma NoForkNoMove(db: Store, cp: Checkpoints, a: Hash, b: Hash)
    requires Closed(db) && a in db && b in db && Ancestor(db, a, 0) != Ancestor(db, b, 0)
    ensures !MoveAllowed(db, cp, a, b)
  {
    forall c: nat | ForkAt(db, a, b, c)
      ensures false
    {
      MeetBelow(db, a, b, c, 0);
    }
  }

  /** Two chains with the same genesis block part somewhere. */
  lemma ForkExists(db: Store, a: Hash, b: Hash, m: nat) returns (c: nat)
    requires Closed(db) && a in db && b in db && m <= db[a].number && m <= db[b].number
    requires Ancestor(db, a, m) == Ancestor(db, b, m)
    ensures ForkAt(db, a, b, c)
    decreases db[a].number - m
  {
    if m < db[a].number && m < db[b].number && Ancestor(db, a, m + 1) == Ancestor(db, b, m + 1) {
      c := ForkExists(db, a, b, m + 1);
    } else {
      c := m;
    }
  }

  /** Above the fork the chains share nothing. */
  lemma PartAboveFork(db: Store, a: Hash, b: Hash, c: nat, n: nat)
    requires ForkAt(db, a, b, c) && n <= db[a].number && n <= db[b].number
    ensures n <= c <==> Ancestor(db, a, n) == Ancestor(db, b, n)
  {
    if n <= c {
      MeetBelow(db, a, b, c, n);
    } else if Ancestor(db, a, n) == Ancestor(db, b, n) {
      MeetBelow(db, a, b, n, c + 1);
      assert false;
    }
  }

  /**
    The exact condition for a move between branches, without the fork: the chains start at one
    genesis block, a checkpoint that is canonical stays so, and a block that becomes canonical at
    the height of a checkpoint is that checkpoint.
   */
  lemma MoveExactly(db: Store, cp: Checkpoints, a: Hash, b: Hash)
    requires Closed(db) && a in db && b in db
    ensures MoveAllowed(db, cp, a, b) <==>
              && Ancestor(db, a, 0) == Ancestor(db, b, 0)
              && forall n: nat {:trigger n in cp.points} :: (cp.validateAll || n in cp.mandatory) && n in cp.points ==>
                   && (n <= db[a].number && Ancestor(db, a, n) == cp.points[n] ==>
                         n <= db[b].number && Ancestor(db, b, n) == cp.points[n])
                   && (n <= db[b].number && (n > db[a].number || Ancestor(db, a, n) != Ancestor(db, b, n)) ==>
                         Ancestor(db, b, n) == cp.points[n])
  {
    if Ancestor(db, a, 0) != Ancestor(db, b, 0) {
      NoForkNoMove(db, cp, a, b);
    } else {
      var c := ForkExists(db, a, b, 0);
      MoveDecided(db, cp, a, b, c);
      forall n: nat | n <= db[a].number && n <= db[b].number
        ensures n <= c <==> Ancestor(db, a, n) == Ancestor(db, b, n)
      {
        PartAboveFork(db, a, b, c, n);
      }
    }
  }

  /** With validation off and nothing mandatory, checkpoints refuse no move. */
  lemma NoCheckpointsNoRefusal(db: Store, cp: Checkpoints, a: Hash, b: Hash)
    requires Closed(db) && a in db && b in db && !cp.validateAll && cp.mandatory == {}
    ensures MoveAllowed(db, cp, a, b) <==> Ancestor(db, a, 0) == Ancestor(db, b, 0)
  {
    MoveExactly(db, cp, a, b);
  }

  /** Every checkpoint that has to be validated and was canonical still is. */
  ghost predicate CheckpointsHeld(cp: Checkpoints, canon: map<nat, Hash>, canon': map<nat, Hash>) {
    forall n: nat {:trigger n in cp.points} ::
      (cp.validateAll || n in cp.mandatory) && n in cp.points && n in canon && canon[n] == cp.points[n] ==>
        n in canon' && canon'[n] == cp.points[n]
  }

  /** What an allowed move from head `a` to head `b` means for the checkpoints. */
  lemma CheckpointsSurvive(db: Store, cp: Checkpoints, a: Hash, b: Hash, c: nat, n: nat)
    requires ForkAt(db, a, b, c) && CheckpointsAllow(db, cp, a, b, c) && cp.Enforced(n)
    ensures n <= db[a].number && Ancestor(db, a, n) == cp.points[n] ==>
              n <= db[b].number && Ancestor(db, b, n) == cp.points[n]
  {
    if n <= c {
      MeetBelow(db, a, b, c, n);
    }
  }

  /** Both indexes after the new branch's blocks up to height `k` were applied, and the transactions they brought. */
  ghost predicate Applied(db: Store, a: Hash, b: Hash, c: nat, k: nat, before: map<Tx, nat>,
                          canon: map<nat, Hash>, lookup: map<Tx, nat>, brought: set<Tx>)
  {
    && ForkAt(db, a, b, c) && c <= k <= db[b].number
    && canon == MixedMap(db, a, b, c, k)
    && LookupMixed(db, b, c, k, before, lookup)
    && brought == TxsBetween(db, b, c + 1, k + 1)
  }

  lemma AppliedStart(db: Store, a: Hash, b: Hash, c: nat, lookup: map<Tx, nat>)
    requires ForkAt(db, a, b, c)
    ensures Applied(db, a, b, c, c, lookup, ChainMap(db, a), lookup, {})
  {
    MixedStart(db, a, b, c);
    assert TxsBetween(db, b, c + 1, c + 1) == {};
  }

  lemma AppliedNext(db: Store, a: Hash, b: Hash, c: nat, k: nat, before: map<Tx, nat>,
                    canon: map<nat, Hash>, lookup: map<Tx, nat>, brought: set<Tx>, h: Hash)
    requires Applied(db, a, b, c, k, before, canon, lookup, brought) && k < db[b].number && h == Ancestor(db, b, k + 1)
    ensures Applied(db, a, b, c, k + 1, before, canon[k + 1 := h],
                    WithEntries(lookup, db[h].txs, k + 1), brought + ToSet(db[h].txs))
  {
    MixedStep(db, a, b, c, k);
    LookupStep(db, b, c, k, before, lookup);
  }

  lemma UniqueKept(db: Store, h: Hash, block: Block, k: Hash)
    requires Closed(db) && k in db && (h in db ==> db[h] == block) && Closed(db[h := block]) && UniqueTxs(db, k)
    ensures UniqueTxs(db[h := block], k)
  {
    var db' := db[h := block];
    forall n: nat, t
      ensures TxAt(db', k, n, t) <==> TxAt(db, k, n, t)
    {
      if n <= db[k].number {
        AncestorKept(db, db', k, n);
      }
    }
  }

  /** Storing one more block disturbs neither the ancestry nor the indexes of what is stored. */
  lemma StoreKept(db: Store, h: Hash, block: Block, top: Hash, canon: map<nat, Hash>, lookup: map<Tx, nat>)
    requires Closed(db) && top in db && h != ZERO_HASH && (h in db ==> db[h] == block)
    requires GetHeader(db, block.parent, block.number - 1).Some?
    requires canon == ChainMap(db, top) && LookupExact(db, top, lookup) && UniqueTxs(db, top)
    ensures Closed(db[h := block])
    ensures canon == ChainMap(db[h := block], top) && LookupExact(db[h := block], top, lookup)
    ensures UniqueTxs(db[h := block], top)
  {
    var db' := db[h := block];
    forall k | k in db'
      ensures Linked(db', k)
    {
      if k != h {
        assert Linked(db, k);
      }
    }
    forall n: nat | n <= db[top].number
      ensures Ancestor(db', top, n) == Ancestor(db, top, n)
    {
      AncestorKept(db, db', top, n);
    }
    forall n: nat, t
      ensures TxAt(db', top, n, t) <==> TxAt(db, top, n, t)
    {
    }
  }

  /** Store a block and make it the head, only store it, or make a stored block the head. */
  datatype Step = Import(h: Hash, block: Block) | Keep(h: Hash, block: Block) | MakeHead(h: Hash)

  /** A block may become the head: it extends the head, or the checkpoints permit the move. */
  ghost predicate Movable(db: Store, cp: Checkpoints, head: Hash, h: Hash)
    requires h in db
  {
    db[h].parent == head || MoveAllowed(db, cp, head, h)
  }

  /** What decides everything else: the stored blocks and the head. */
  datatype ChainView = ChainView(db: Store, head: Hash)

  ghost function NextView(cp: Checkpoints, v: ChainView, s: Step): ChainView {
    if s.MakeHead? then (if s.h in v.db && Movable(v.db, cp, v.head, s.h) then v.(head := s.h) else v)
    else if !(s.block.parent in v.db && v.db[s.block.parent].number == s.block.number - 1) then v
    else
      var db := v.db[s.h := s.block];
      ChainView(db, if s.Import? && Movable(db, cp, v.head, s.h) then s.h else v.head)
  }

  ghost function RunView(cp: Checkpoints, v: ChainView, steps: seq<Step>): ChainView {
    if steps == [] then v else NextView(cp, RunView(cp, v, steps[..|steps| - 1]), steps[|steps| - 1])
  }

  /** A run is its steps, one after another; an imported child of the head becomes the head. */
  lemma RunViewSnoc(cp: Checkpoints, v: ChainView, steps: seq<Step>, s: Step)
    ensures RunView(cp, v, []) == v
    ensures RunView(cp, v, steps + [s]) == NextView(cp, RunView(cp, v, steps), s)
    ensures s.Import? && s.block.parent == v.head && v.head in v.db && v.db[v.head].number + 1 == s.block.number ==>
              NextView(cp, v, s) == ChainView(v.db[s.h := s.block], s.h)
  {
    assert (steps + [s])[..|steps|] == steps;
  }

  ghost predicate Within(db: Store, world: Store) {
    forall h {:trigger h in db} :: h in db ==> h in world && world[h] == db[h]
  }

  /** A block of the world whose parent is stored can be stored without repeating a transaction. */
  lemma ImportedIsSound(db: Store, world: Store, h: Hash)
    requires Closed(db) && Closed(world) && Within(db, world) && h in world && UniqueTxs(world, h)
    requires forall k :: k in world ==> UniqueTxs(world, k)
    ensures GetHeader(db, world[h].parent, world[h].number - 1).Some? ==>
              Closed(db[h := world[h]]) && UniqueTxs(db[h := world[h]], h)
  {
    if GetHeader(db, world[h].parent, world[h].number - 1).Some? {
      var db' := db[h := world[h]];
      forall k | k in db'
        ensures Linked(db', k)
      {
        if k in db {
          assert Linked(db, k);
        }
      }
      forall n: nat, t
        ensures TxAt(db', h, n, t) <==> TxAt(world, h, n, t)
      {
        if n <= world[h].number {
          AncestorKept(db', world, h, n);
        }
      }
    }
  }

  // ----- the running index

  /** Every transaction of the old branch, top block first. */
  method CollectTxs(db: Store, chain: seq<Hash>, ghost top: Hash, ghost c: nat) returns (txs: seq<Tx>)
    requires Closed(db) && top in db && IsBranch(db, top, c, chain)
    ensures ToSet(txs) == TxsBetween(db, top, c + 1, db[top].number + 1)
  {
    txs := [];
    for i := 0 to |chain|
      invariant ToSet(txs) + TxsBetween(db, top, c + 1, db[top].number + 1 - i)
             == TxsBetween(db, top, c + 1, db[top].number + 1)
    {
      ToSetConcat(txs, db[chain[i]].txs);
      txs := txs + db[chain[i]].txs;
    }
  }

  /** HashDifference. */
  method Difference(a: seq<Tx>, b: seq<Tx>) returns (keep: seq<Tx>)
    ensures ToSet(keep) == ToSet(a) - ToSet(b)
  {
    keep := [];
    var remove := ToSet(b);
    for i := 0 to |a|
      invariant ToSet(keep) == ToSet(a[..i]) - ToSet(b)
    {
      assert a[..i + 1] == a[..i] + [a[i]];
      ToSetConcat(a[..i], [a[i]]);
      if a[i] !in remove {
        ToSetConcat(keep, [a[i]]);
        keep := keep + [a[i]];
      }
    }
    assert a[..|a|] == a;
  }

  class Chain {
    const cp: Checkpoints

    var db: Store
    var canon: map<nat, Hash>
    var lookup: map<Tx, nat>
    var head: Hash
    var headHeader: Hash
    var headFast: Hash

    ghost predicate StoreValid()
      reads this
    {
      Closed(db) && forall h {:trigger UniqueTxs(db, h)} :: h in db ==> UniqueTxs(db, h)
    }

    /** Both indexes describe exactly the chain that ends in `h`. */
    ghost predicate IndexedFor(h: Hash)
      reads this
    {
      Closed(db) && h in db && canon == ChainMap(db, h) && LookupExact(db, h, lookup)
    }

    ghost predicate Valid()
      reads this
    {
      StoreValid() && IndexedFor(head) && headHeader == headFast == head
    }

    constructor (genesis: Hash, block: Block, cp: Checkpoints)
      requires genesis != ZERO_HASH && block.number == 0 && block.parent == ZERO_HASH
      ensures Valid() && head == genesis && db == map[genesis := block] && this.cp == cp
    {
      this.cp := cp;
      db, canon := map[genesis := block], map[0 := genesis];
      lookup := WithEntries(map[], block.txs, 0);
      head, headHeader, headFast := genesis, genesis, genesis;
      new;
      assert Linked(db, genesis);
      assert forall n: nat, t :: TxAt(db, genesis, n, t) <==> n == 0 && t in block.txs;
    }

    /** writeHeadBlock. */
    method WriteHeadBlock(h: Hash)
      requires h in db
      modifies this`canon, this`lookup, this`head, this`headHeader, this`headFast
      ensures canon == old(canon)[db[h].number := h]
      ensures lookup == WithEntries(old(lookup), db[h].txs, db[h].number)
      ensures head == headHeader == headFast == h
    {
      headHeader, headFast := h, h;
      canon := canon[db[h].number := h];
      lookup := WithEntries(lookup, db[h].txs, db[h].number);
      head := h;
    }

    method ApplyBlock(block: Hash, ghost a: Hash, ghost b: Hash, ghost c: nat, ghost k: nat,
                      ghost before: map<Tx, nat>, ghost brought: set<Tx>)
      requires Applied(db, a, b, c, k, before, canon, lookup, brought)
      requires k < db[b].number && block == Ancestor(db, b, k + 1)
      modifies this`canon, this`lookup, this`head, this`headHeader, this`headFast
      ensures Applied(db, a, b, c, k + 1, before, canon, lookup, brought + ToSet(db[block].txs))
    {
      AppliedNext(db, a, b, c, k, before, canon, lookup, brought, block);
      WriteHeadBlock(block);
    }

    /** The forward loop of reorg: every new block except the new head becomes canonical. */
    method ApplyBranch(newChain: seq<Hash>, ghost a: Hash, ghost b: Hash, ghost c: nat)
      returns (rebirth: seq<Tx>, ghost k: nat)
      requires ForkAt(db, a, b, c) && IsBranch(db, b, c, newChain)
      requires canon == ChainMap(db, a)
      modifies this`canon, this`lookup, this`head, this`headHeader, this`headFast
      ensures k == if c == db[b].number then c else db[b].number - 1
      ensures Applied(db, a, b, c, k, old(lookup), canon, lookup, ToSet(rebirth))
    {
      rebirth := [];
      k := c;
      AppliedStart(db, a, b, c, lookup);
      var i := |newChain| - 1;
      while i >= 1
        invariant i < |newChain| && (if |newChain| > 0 then 0 <= i && k == db[b].number - 1 - i else k == c)
        invariant Applied(db, a, b, c, k, old(lookup), canon, lookup, ToSet(rebirth))
      {
        var block := newChain[i];
        ApplyBlock(block, a, b, c, k, old(lookup), ToSet(rebirth));
        ToSetConcat(rebirth, db[block].txs);
        rebirth := rebirth + db[block].txs;
        i, k := i - 1, k + 1;
      }
    }

    /** Delete every number assignment from `start` up to the first gap. */
    method DeleteNumbersFrom(start: nat, ghost last: nat) returns (ghost cut: set<nat>)
      requires forall n: nat :: n in canon <==> n <= last
      modifies this`canon
      ensures forall n: nat :: n in cut <==> start <= n <= last
      ensures canon == old(canon) - cut
    {
      var gone: set<nat> := {};
      var i: nat := start;
      while i in canon
        invariant start <= i
        invariant forall n: nat :: n in gone <==> start <= n < i
        invariant i == start || i <= last + 1
        decreases last + 1 - i
      {
        gone := gone + {i};
        i := i + 1;
      }
      assert i > last;
      canon := canon - gone;
      cut := gone;
    }

    method DeleteEntries(txs: seq<Tx>)
      modifies this`lookup
      ensures lookup == old(lookup) - ToSet(txs)
    {
      for i := 0 to |txs|
        invariant lookup == old(lookup) - ToSet(txs[..i])
      {
        assert txs[..i + 1] == txs[..i] + [txs[i]];
        lookup := lookup - {txs[i]};
      }
      assert txs[..|txs|] == txs;
    }

    /** Delete the entries of transactions that only the old branch held. */
    method DropOldEntries(oldChain: seq<Hash>, rebirth: seq<Tx>,
                          ghost a: Hash, ghost b: Hash, ghost c: nat, ghost k: nat, ghost before: map<Tx, nat>)
      requires ReadyToCut(db, a, b, c, k, before, lookup) && IsBranch(db, a, c, oldChain)
      requires ToSet(rebirth) == TxsBetween(db, b, c + 1, k + 1)
      modifies this`lookup
      ensures LookupExact(db, Ancestor(db, b, k), lookup)
    {
      var deleted := CollectTxs(db, oldChain, a, c);
      var gone := Difference(deleted, rebirth);
      LookupCut(db, a, b, c, k, before, lookup, ToSet(gone));
      DeleteEntries(gone);
    }

    /** Delete the number assignments above the last applied block. */
    method CutNumbers(common: Hash, newChain: seq<Hash>, ghost a: Hash, ghost b: Hash, ghost k: nat)
      requires Closed(db) && common in db && b in db
      requires ForkAt(db, a, b, db[common].number) && IsBranch(db, b, db[common].number, newChain)
      requires k == if db[common].number == db[b].number then db[b].number else db[b].number - 1
      requires canon == MixedMap(db, a, b, db[common].number, k)
      modifies this`canon
      ensures canon == ChainMap(db, Ancestor(db, b, k))
    {
      var number := db[common].number;
      if |newChain| > 1 {
        number := db[newChain[1]].number;
      }
      ghost var cut := DeleteNumbersFrom(number + 1, Max(db[a].number, k));
      MixedCut(db, a, b, db[common].number, k, cut);
    }

    /** The rewriting half of reorg, once the fork is known and allowed. */
    method Rewrite(common: Hash, oldChain: seq<Hash>, newChain: seq<Hash>, ghost a: Hash, ghost b: Hash)
      requires StoreValid() && IndexedFor(a) && b in db
      requires Reached(db, a, common, oldChain) && Reached(db, b, common, newChain)
      requires ForkAt(db, a, b, db[common].number)
      modifies this`canon, this`lookup, this`head, this`headHeader, this`headFast
      ensures IndexedFor(if db[common].number == db[b].number then b else Ancestor(db, b, db[b].number - 1))
    {
      ghost var c, before := db[common].number, lookup;
      assert UniqueTxs(db, a) && UniqueTxs(db, b);
      var rebirth;
      ghost var k;
      rebirth, k := ApplyBranch(newChain, a, b, c);
      DropOldEntries(oldChain, rebirth, a, b, c, k, before);
      CutNumbers(common, newChain, a, b, k);
    }

    /**
      reorg, from an index that is exact for `oldTop`.  It leaves the index exact
      for the new head's parent, because the caller still has to write the new
      head itself, or for the new head when that already lies on the old chain.
     */
    method Reorg(oldTop: Hash, newTop: Hash) returns (err: Outcome, ghost c: nat)
      requires StoreValid() && IndexedFor(oldTop) && newTop in db
      modifies this`canon, this`lookup, this`head, this`headHeader, this`headFast
      ensures err in {Done, InvalidOldChain, CheckpointReorg, CheckpointMismatch}
      ensures err != Done ==> unchanged(this)
      ensures err == InvalidOldChain <==> Ancestor(db, oldTop, 0) != Ancestor(db, newTop, 0)
      ensures err != InvalidOldChain ==>
                && ForkAt(db, oldTop, newTop, c)
                && (err == Done <==> CheckpointsAllow(db, cp, oldTop, newTop, c))
      ensures err == Done ==>
                IndexedFor(if c == db[newTop].number then newTop else Ancestor(db, newTop, db[newTop].number - 1))
    {
      var common, oldChain, newChain;
      err, common, oldChain, newChain := FindFork(db, oldTop, newTop);
      c := 0;
      if err != Done {
        return;
      }
      c := db[common].number;
      err := CheckCheckpoints(db, cp, oldChain, newChain, oldTop, newTop, c);
      if err != Done {
        return;
      }
      Rewrite(common, oldChain, newChain, oldTop, newTop);
    }

    /** The caller's head write completes the index. */
    method FinishHead(h: Hash, ghost already: bool)
      requires StoreValid() && h in db && Linked(db, h) && (db[h].number == 0 ==> already)
      requires IndexedFor(if already then h else db[h].parent)
      modifies this`canon, this`lookup, this`head, this`headHeader, this`headFast
      ensures IndexedFor(h) && head == headHeader == headFast == h
    {
      assert UniqueTxs(db, h);
      if already {
        HeadRepeats(db, h, canon, lookup);
      } else {
        HeadExtends(db, h, canon, lookup);
      }
      WriteHeadBlock(h);
    }

    /**
      The shared tail of writeBlockAndSetHead, writeKnownBlock and SetCanonical:
      reorganise unless the block extends the head, then write the head.
     */
    method SetHead(h: Hash) returns (err: Outcome)
      requires Valid() && h in db
      modifies this`canon, this`lookup, this`head, this`headHeader, this`headFast
      ensures err in {Done, InvalidOldChain, CheckpointReorg, CheckpointMismatch}
      ensures old(db[h].parent == head) ==> err == Done
      ensures err == Done <==> Movable(db, cp, old(head), h)
      ensures err != Done ==> unchanged(this)
      ensures err == InvalidOldChain <==>
                old(db[h].parent != head && Ancestor(db, head, 0) != Ancestor(db, h, 0))
      ensures err == Done ==> head == headHeader == headFast == h
      ensures Valid()
      ensures forall n: nat {:trigger n in cp.points} ::
                n in cp.points && (cp.validateAll || n in cp.mandatory) ==>
                  n in old(canon) && old(canon)[n] == cp.points[n] ==> n in canon && canon[n] == cp.points[n]
    {
      var previous := head;
      assert UniqueTxs(db, h) && Linked(db, h);
      if db[h].parent != head {
        ghost var c;
        err, c := Reorg(head, h);
        if err == InvalidOldChain {
          NoForkNoMove(db, cp, previous, h);
          return;
        }
        MoveDecided(db, cp, previous, h, c);
        if err != Done {
          return;
        }
        forall n: nat | cp.Enforced(n) && n in old(canon) && old(canon)[n] == cp.points[n]
          ensures n <= db[h].number && Ancestor(db, h, n) == cp.points[n]
        {
          CheckpointsSurvive(db, cp, previous, h, c, n);
        }
        if db[h].number > 0 {
          AncestorParent(db, h, db[h].number);
        }
        FinishHead(h, c == db[h].number);
      } else {
        FinishHead(h, false);
      }
      err := Done;
    }

    /** writeBlockWithState: a block whose parent is known is stored; the head stays. */
    method WriteBlock(h: Hash, block: Block) returns (err: Outcome)
      requires Valid() && h != ZERO_HASH && (h in db ==> db[h] == block)
      requires GetHeader(db, block.parent, block.number - 1).Some? ==>
                 Closed(db[h := block]) && UniqueTxs(db[h := block], h)
      modifies this`db
      ensures Valid() && err in {Done, UnknownAncestor}
      ensures err == UnknownAncestor <==>
                !(block.parent in old(db) && old(db)[block.parent].number == block.number - 1)
      ensures db == if err == UnknownAncestor then old(db) else old(db)[h := block]
    {
      if GetHeader(db, block.parent, block.number - 1).None? {
        return UnknownAncestor;
      }
      forall k | k in db
        ensures UniqueTxs(db[h := block], k)
      {
        assert UniqueTxs(db, k);
        UniqueKept(db, h, block, k);
      }
      StoreKept(db, h, block, head, canon, lookup);
      db := db[h := block];
      return Done;
    }

    /** writeBlockAndSetHead: store the block, then make it the head. */
    method WriteBlockAndSetHead(h: Hash, block: Block) returns (err: Outcome)
      requires Valid() && h != ZERO_HASH && (h in db ==> db[h] == block)
      requires GetHeader(db, block.parent, block.number - 1).Some? ==>
                 Closed(db[h := block]) && UniqueTxs(db[h := block], h)
      modifies this
      ensures Valid()
      ensures err == UnknownAncestor <==>
                !(block.parent in old(db) && old(db)[block.parent].number == block.number - 1)
      ensures db == if err == UnknownAncestor then old(db) else old(db)[h := block]
      ensures err == Done ==> head == h
      ensures err != UnknownAncestor ==> (err == Done <==> Movable(db, cp, old(head), h))
      ensures err != Done ==> canon == old(canon) && lookup == old(lookup) && head == old(head)
      ensures CheckpointsHeld(cp, old(canon), canon)
    {
      err := WriteBlock(h, block);
      if err != Done {
        return;
      }
      err := SetHead(h);
    }

    /**
      Any sequence of imports, stored side blocks and head changes follows the specification of its
      steps, keeps the index exact and every canonical checkpoint in place.  `world` holds all blocks that ever turn up.
     */
    method Run(steps: seq<Step>, ghost world: Store)
      requires Valid() && Closed(world) && Within(db, world)
      requires forall h :: h in world ==> UniqueTxs(world, h)
      requires forall s :: s in steps && !s.MakeHead? ==> s.h in world && world[s.h] == s.block
      modifies this
      ensures Valid()
      ensures ChainView(db, head) == RunView(cp, old(ChainView(db, head)), steps)
      ensures forall n: nat {:trigger n in cp.points} ::
                n in cp.points && (cp.validateAll || n in cp.mandatory) ==>
                  n in old(canon) && old(canon)[n] == cp.points[n] ==> n in canon && canon[n] == cp.points[n]
    {
      assert steps[..0] == [];
      for i := 0 to |steps|
        invariant Valid() && Within(db, world)
        invariant CheckpointsHeld(cp, old(canon), canon)
        invariant ChainView(db, head) == RunView(cp, old(ChainView(db, head)), steps[..i])
      {
        assert steps[..i + 1][..i] == steps[..i];
        var step := steps[i];
        if step.Import? {
          ImportedIsSound(db, world, step.h);
          var err := WriteBlockAndSetHead(step.h, step.block);
        } else if step.Keep? {
          ImportedIsSound(db, world, step.h);
          var err := WriteBlock(step.h, step.block);
        } else if step.h in db {
          var err := SetHead(step.h);
        }
      }
      assert steps[..|steps|] == steps;
    }
  }
}
