/**
  The block store and the reference notion the chain index must agree with:
  the ancestors of a block, found by plain parent walking.
 */
module ChainSpec {
  import opened Common
  import opened Sequences

  datatype Tx = Tx(id: nat)

  /** A stored block; its header and body are kept together. */
  datatype Block = Block(number: nat, parent: Hash, txs: seq<Tx>)

  type Store = map<Hash, Block>

  ghost predicate Linked(db: Store, h: Hash)
    requires h in db
  {
    if db[h].number == 0 then db[h].parent == ZERO_HASH
    else db[h].parent in db && db[db[h].parent].number == db[h].number - 1
  }

  /** Stored blocks come with their whole ancestry, numbered without gaps. */
  ghost predicate Closed(db: Store) {
    ZERO_HASH !in db && forall h {:trigger Linked(db, h)} :: h in db ==> Linked(db, h)
  }

  /** GetHeader: a lookup by hash and number; the number before 0 names nothing. */
  function GetHeader(db: Store, h: Hash, number: int): Option<Block> {
    if h in db && db[h].number == number then Some(db[h]) else None
  }

  ghost function Ancestor(db: Store, h: Hash, n: nat): (r: Hash)
    requires Closed(db) && h in db && n <= db[h].number
    ensures r in db && db[r].number == n
    decreases db[h].number
  {
    assert Linked(db, h);
    if n == db[h].number then h else Ancestor(db, db[h].parent, n)
  }

  /** The canonical index a given head calls for: its own ancestors and nothing above it. */
  ghost function ChainMap(db: Store, h: Hash): map<nat, Hash>
    requires Closed(db) && h in db
  {
    map n: nat | 0 <= n <= db[h].number :: Ancestor(db, h, n)
  }

  lemma {:induction false} AncestorParent(db: Store, h: Hash, n: nat)
    requires Closed(db) && h in db && 0 < n <= db[h].number
    ensures db[Ancestor(db, h, n)].parent == Ancestor(db, h, n - 1)
    decreases db[h].number
  {
    assert Linked(db, h);
    if n < db[h].number {
      AncestorParent(db, db[h].parent, n);
    }
  }

  lemma {:induction false} AncestorOfAncestor(db: Store, h: Hash, m: nat, n: nat)
    requires Closed(db) && h in db && n <= m <= db[h].number
    ensures Ancestor(db, Ancestor(db, h, m), n) == Ancestor(db, h, n)
    decreases db[h].number
  {
    assert Linked(db, h);
    if m < db[h].number {
      AncestorOfAncestor(db, db[h].parent, m, n);
    }
  }

  /** Two chains that meet at a height agree at every height below it. */
  lemma MeetBelow(db: Store, a: Hash, b: Hash, m: nat, n: nat)
    requires Closed(db) && a in db && b in db
    requires n <= m <= db[a].number && m <= db[b].number
    requires Ancestor(db, a, m) == Ancestor(db, b, m)
    ensures Ancestor(db, a, n) == Ancestor(db, b, n)
  {
    AncestorOfAncestor(db, a, m, n);
    AncestorOfAncestor(db, b, m, n);
  }

  /** Storing another block does not change the ancestors of the blocks already stored. */
  lemma {:induction false} AncestorKept(db: Store, db': Store, h: Hash, n: nat)
    requires Closed(db) && Closed(db') && h in db && n <= db[h].number
    requires forall k :: k in db ==> k in db' && db'[k] == db[k]
    ensures Ancestor(db', h, n) == Ancestor(db, h, n)
    decreases db[h].number
  {
    assert Linked(db, h);
    if n < db[h].number {
      AncestorKept(db, db', db[h].parent, n);
    }
  }

  // ----- transactions

  /** `t` sits in the block at height `n` of the chain of `h`. */
  ghost predicate TxAt(db: Store, h: Hash, n: nat, t: Tx)
    requires Closed(db) && h in db
  {
    n <= db[h].number && t in db[Ancestor(db, h, n)].txs
  }

  /** The transactions of the chain of `h` at heights from `lo` up to but not including `hi`. */
  ghost function TxsBetween(db: Store, h: Hash, lo: nat, hi: nat): set<Tx>
    requires Closed(db) && h in db && hi <= db[h].number + 1
    decreases hi
  {
    if hi <= lo then {} else TxsBetween(db, h, lo, hi - 1) + ToSet(db[Ancestor(db, h, hi - 1)].txs)
  }

  lemma {:induction false} InTxsBetween(db: Store, h: Hash, lo: nat, hi: nat, n: nat, t: Tx)
    requires Closed(db) && h in db && hi <= db[h].number + 1
    requires lo <= n < hi && TxAt(db, h, n, t)
    ensures t in TxsBetween(db, h, lo, hi)
    decreases hi
  {
    if n < hi - 1 {
      InTxsBetween(db, h, lo, hi - 1, n, t);
    }
  }

  lemma {:induction false} HeightOf(db: Store, h: Hash, lo: nat, hi: nat, t: Tx) returns (n: nat)
    requires Closed(db) && h in db && hi <= db[h].number + 1
    requires t in TxsBetween(db, h, lo, hi)
    ensures lo <= n < hi && TxAt(db, h, n, t)
    decreases hi
  {
    if t in db[Ancestor(db, h, hi - 1)].txs {
      n := hi - 1;
    } else {
      n := HeightOf(db, h, lo, hi - 1, t);
    }
  }

  /** No transaction occurs in two blocks of one chain. */
  ghost predicate UniqueTxs(db: Store, h: Hash)
    requires Closed(db) && h in db
  {
    forall m: nat, n: nat, t {:trigger TxAt(db, h, m, t), TxAt(db, h, n, t)} ::
        TxAt(db, h, m, t) && TxAt(db, h, n, t) ==> m == n
  }

  /** The lookup maps exactly the transactions of the chain of `h`, each to its block number. */
  ghost predicate LookupExact(db: Store, h: Hash, lookup: map<Tx, nat>)
    requires Closed(db) && h in db
  {
    && (forall t {:trigger t in lookup} :: t in lookup ==> TxAt(db, h, lookup[t], t))
    && (forall n: nat, t {:trigger TxAt(db, h, n, t)} :: TxAt(db, h, n, t) ==> t in lookup && lookup[t] == n)
  }
}
