/**
  Stamp-owner voting: public votes against an address, counted per stamp owner,
  with a suspension flag at the threshold and a burn for every operation.
 */
module AddressVote {
  import opened Common
  import opened Slots

  datatype Owner = Owner(digest: nat)

  const ZERO_OWNER := Owner(0)
  const VERSION: nat := 1
  const THRESHOLD: nat := 15
  const MAX_REASON: nat := 160
  const BURN_WEI: nat := 50 * 1_000_000_000_000_000_000

  /** A decoded vote; the reason is kept as its length, its UTF-8 validity and its digest. */
  datatype Vote = Vote(version: nat, unvote: bool, target: Address, reasonBytes: nat, reasonUtf8: bool,
                       reasonHash: Hash)

  datatype Outcome =
    | Accepted | BadPayload | SelfVote | Unstamped | NotFound | AlreadyCast | Suspended | Underflow
    | InsufficientBalance

  /** The owners with an active vote on a target. */
  ghost function Voters(active: map<(Address, Owner), Hash>, target: Address): set<Owner> {
    set k | k in active && k.0 == target && active[k] != ZERO_HASH :: k.1
  }

  lemma VoterCast(active: map<(Address, Owner), Hash>, target: Address, owner: Owner, txHash: Hash, other: Address)
    requires txHash != ZERO_HASH
    ensures Voters(active[(target, owner) := txHash], other)
         == if other == target then Voters(active, other) + {owner} else Voters(active, other)
  {
    var active' := active[(target, owner) := txHash];
    assert forall o :: o in Voters(active', other) <==> (other, o) in active' && active'[(other, o)] != ZERO_HASH;
    assert forall o :: o in Voters(active, other) <==> (other, o) in active && active[(other, o)] != ZERO_HASH;
  }

  lemma VoterCleared(active: map<(Address, Owner), Hash>, target: Address, owner: Owner, other: Address)
    ensures Voters(active[(target, owner) := ZERO_HASH], other)
         == if other == target then Voters(active, other) - {owner} else Voters(active, other)
  {
    var active' := active[(target, owner) := ZERO_HASH];
    assert forall o :: o in Voters(active', other) <==> (other, o) in active' && active'[(other, o)] != ZERO_HASH;
    assert forall o :: o in Voters(active, other) <==> (other, o) in active && active[(other, o)] != ZERO_HASH;
  }

  lemma VoterIsActive(active: map<(Address, Owner), Hash>, target: Address, owner: Owner)
    ensures owner in Voters(active, target) <==> Slot(active, (target, owner)) != ZERO_HASH
  {
    if Slot(active, (target, owner)) != ZERO_HASH {
      assert (target, owner) in active;
    }
  }

  /** The voters of one target changed by one owner, and no other target's did. */
  ghost predicate VoterMoved(active: map<(Address, Owner), Hash>, active': map<(Address, Owner), Hash>,
                             target: Address, owner: Owner, gone: bool)
  {
    forall t {:trigger Voters(active', t)} ::
      Voters(active', t) == if t != target then Voters(active, t)
                            else if gone then Voters(active, t) - {owner} else Voters(active, t) + {owner}
  }

  lemma VoterMovedBy(active: map<(Address, Owner), Hash>, target: Address, owner: Owner, h: Hash)
    ensures VoterMoved(active, active[(target, owner) := h], target, owner, h == ZERO_HASH)
  {
    var active' := active[(target, owner) := h];
    forall t
      ensures Voters(active', t) == if t != target then Voters(active, t)
                                    else if h == ZERO_HASH then Voters(active, t) - {owner}
                                    else Voters(active, t) + {owner}
    {
      if h == ZERO_HASH {
        VoterCleared(active, target, owner, t);
      } else {
        VoterCast(active, target, owner, h, t);
      }
    }
  }

  /** Counters, flags and the sets of active voters agree for every target. */
  ghost predicate CountsAgree(active: map<(Address, Owner), Hash>, count: map<Address, nat>,
                              suspended: map<Address, Hash>)
  {
    forall t {:trigger Number(count, t)} {:trigger Slot(suspended, t)} ::
      && Number(count, t) == |Voters(active, t)| <= THRESHOLD
      && (Slot(suspended, t) != ZERO_HASH <==> |Voters(active, t)| == THRESHOLD)
  }

  // ----- total balance

  ghost function Total(balance: map<Address, nat>): nat
    decreases |balance|
  {
    if balance == map[] then 0
    else
      var a :| a in balance;
      balance[a] + Total(balance - {a})
  }

  lemma {:induction false} TotalSplits(balance: map<Address, nat>, a: Address)
    requires a in balance
    ensures Total(balance) == balance[a] + Total(balance - {a})
    decreases |balance|
  {
    var b :| b in balance && Total(balance) == balance[b] + Total(balance - {b});
    if a != b {
      TotalSplits(balance - {b}, a);
      TotalSplits(balance - {a}, b);
      assert balance - {a} - {b} == balance - {b} - {a};
    }
  }

  lemma TotalAfterBurn(balance: map<Address, nat>, a: Address, amount: nat)
    requires a in balance && amount <= balance[a]
    ensures Total(balance[a := balance[a] - amount]) == Total(balance) - amount
  {
    var after := balance[a := balance[a] - amount];
    TotalSplits(balance, a);
    TotalSplits(after, a);
    assert after - {a} == balance - {a};
  }

  lemma UnvoteKeepsCounts(active: map<(Address, Owner), Hash>, count: map<Address, nat>, suspended: map<Address, Hash>,
                          target: Address, owner: Owner)
    requires CountsAgree(active, count, suspended) && owner in Voters(active, target)
    ensures Number(count, target) > 0
    ensures CountsAgree(active[(target, owner) := ZERO_HASH], count[target := Number(count, target) - 1],
                        suspended[target := ZERO_HASH])
  {
    var active', count' := active[(target, owner) := ZERO_HASH], count[target := Number(count, target) - 1];
    var suspended' := suspended[target := ZERO_HASH];
    forall t
      ensures Number(count', t) == |Voters(active', t)| <= THRESHOLD
      ensures Slot(suspended', t) != ZERO_HASH <==> |Voters(active', t)| == THRESHOLD
    {
      VoterCleared(active, target, owner, t);
      assert Number(count, t) == |Voters(active, t)| <= THRESHOLD;
    }
  }

  lemma VoteKeepsCounts(active: map<(Address, Owner), Hash>, count: map<Address, nat>,
                        suspended: map<Address, Hash>, suspended': map<Address, Hash>,
                        target: Address, owner: Owner, txHash: Hash)
    requires CountsAgree(active, count, suspended) && owner !in Voters(active, target) && txHash != ZERO_HASH
    requires Number(count, target) < THRESHOLD
    requires suspended' == if Number(count, target) + 1 >= THRESHOLD then suspended[target := txHash] else suspended
    ensures CountsAgree(active[(target, owner) := txHash], count[target := Number(count, target) + 1], suspended')
  {
    var active', count' := active[(target, owner) := txHash], count[target := Number(count, target) + 1];
    forall t
      ensures Number(count', t) == |Voters(active', t)| <= THRESHOLD
      ensures Slot(suspended', t) != ZERO_HASH <==> |Voters(active', t)| == THRESHOLD
    {
      VoterCast(active, target, owner, txHash, t);
      assert Number(count, t) == |Voters(active, t)| <= THRESHOLD;
    }
  }

  // ----- what the slots stand for: a set of votes

  datatype Call = Call(from: Address, owners: map<Address, Owner>, vote: Vote, txHash: Hash)

  /** Who votes against whom, and what everybody owns. */
  datatype Ballot = Ballot(votes: set<(Address, Owner)>, balance: map<Address, nat>)

  ghost function Votes(active: map<(Address, Owner), Hash>): set<(Address, Owner)> {
    set k | k in active && active[k] != ZERO_HASH
  }

  ghost function Against(votes: set<(Address, Owner)>, target: Address): set<Owner> {
    set v | v in votes && v.0 == target :: v.1
  }

  /** A vote in due form on somebody else than the pool, with a reason exactly if it is not taken back. */
  ghost predicate InForm(pool: Address, vote: Vote) {
    && vote.version == 1 && vote.target != 0 && vote.target != pool
    && (vote.unvote ==> vote.reasonBytes == 0)
    && (!vote.unvote ==> 0 < vote.reasonBytes <= 160 && vote.reasonUtf8)
  }

  /** A stamped owner takes back its own vote, or votes on a target with fewer than 15; both cost 50 TKM. */
  ghost predicate Counts(pool: Address, b: Ballot, c: Call) {
    && InForm(pool, c.vote) && c.from != c.vote.target
    && c.from in c.owners && c.owners[c.from] != ZERO_OWNER
    && (if c.vote.unvote then (c.vote.target, c.owners[c.from]) in b.votes
        else (c.vote.target, c.owners[c.from]) !in b.votes && |Against(b.votes, c.vote.target)| < 15)
    && Number(b.balance, c.from) >= 50_000_000_000_000_000_000
  }

  ghost function Next(pool: Address, b: Ballot, c: Call): Ballot {
    if !Counts(pool, b, c) then b
    else
      var v := {(c.vote.target, c.owners[c.from])};
      Ballot(if c.vote.unvote then b.votes - v else b.votes + v,
             b.balance[c.from := Number(b.balance, c.from) - 50_000_000_000_000_000_000])
  }

  ghost function After(pool: Address, b: Ballot, calls: seq<Call>): Ballot {
    if calls == [] then b else Next(pool, After(pool, b, calls[..|calls| - 1]), calls[|calls| - 1])
  }

  /** A run is its calls, one after another. */
  lemma AfterSnoc(pool: Address, b: Ballot, calls: seq<Call>, c: Call)
    ensures After(pool, b, []) == b
    ensures After(pool, b, calls + [c]) == Next(pool, After(pool, b, calls), c)
  {
    assert (calls + [c])[..|calls|] == calls;
  }

  lemma VotesSet(active: map<(Address, Owner), Hash>, k: (Address, Owner), h: Hash)
    ensures Votes(active[k := h]) == if h == ZERO_HASH then Votes(active) - {k} else Votes(active) + {k}
  {
  }

  /** Writing one active slot and debiting the fee is a step of the ballot. */
  lemma SlotWriteIsStep(pool: Address, active: map<(Address, Owner), Hash>, balance: map<Address, nat>, c: Call)
    requires Counts(pool, Ballot(Votes(active), balance), c) && c.txHash != ZERO_HASH
    ensures Next(pool, Ballot(Votes(active), balance), c) ==
              Ballot(Votes(active[(c.vote.target, c.owners[c.from]) := if c.vote.unvote then ZERO_HASH else c.txHash]),
                     balance[c.from := Number(balance, c.from) - BURN_WEI])
  {
    VotesSet(active, (c.vote.target, c.owners[c.from]), if c.vote.unvote then ZERO_HASH else c.txHash);
  }

  lemma VotersAgree(active: map<(Address, Owner), Hash>, target: Address)
    ensures Voters(active, target) == Against(Votes(active), target)
  {
    forall o
      ensures o in Voters(active, target) <==> o in Against(Votes(active), target)
    {
      assert o in Voters(active, target) <==> (target, o) in active && active[(target, o)] != ZERO_HASH;
      assert o in Against(Votes(active), target) <==> (target, o) in Votes(active);
    }
  }

  // ----- the running ledger of votes

  class VoteBook {
    const pool: Address

    var active: map<(Address, Owner), Hash>
    var reason: map<(Address, Owner), Hash>
    var count: map<Address, nat>
    var suspended: map<Address, Hash>
    var balance: map<Address, nat>

    ghost predicate Valid()
      reads this
    {
      CountsAgree(active, count, suspended)
    }

    ghost function Abstract(): Ballot
      reads this
    {
      Ballot(Votes(active), balance)
    }

    constructor (pool: Address, balance: map<Address, nat>)
      ensures Valid() && this.pool == pool && this.balance == balance
      ensures active == map[] && reason == map[] && count == map[] && suspended == map[]
    {
      this.pool, this.balance := pool, balance;
      active, reason, count, suspended := map[], map[], map[], map[];
    }

    /** validateAddressVotePayload. */
    predicate PayloadOk(vote: Vote) {
      && vote.version == VERSION && vote.target != 0 && vote.target != pool
      && (if vote.unvote then vote.reasonBytes == 0 else 0 < vote.reasonBytes <= MAX_REASON && vote.reasonUtf8)
    }

    /** ValidateAddressVoteState; `owners` is the stamp registry's address-to-owner map. */
    function ValidateState(from: Address, owners: map<Address, Owner>, vote: Vote): (r: Outcome)
      reads this
      ensures r == Accepted <==>
                && InForm(pool, vote) && vote.target != from && from in owners && owners[from] != ZERO_OWNER
                && (vote.unvote <==> Slot(active, (vote.target, owners[from])) != ZERO_HASH)
                && (!vote.unvote ==>
                      Number(count, vote.target) < THRESHOLD && Slot(suspended, vote.target) == ZERO_HASH)
    {
      if !PayloadOk(vote) then BadPayload
      else if vote.target == from then SelfVote
      else if from !in owners || owners[from] == ZERO_OWNER then Unstamped
      else if vote.unvote then (if Slot(active, (vote.target, owners[from])) == ZERO_HASH then NotFound else Accepted)
      else if Slot(active, (vote.target, owners[from])) != ZERO_HASH then AlreadyCast
      else if Number(count, vote.target) >= THRESHOLD || Slot(suspended, vote.target) != ZERO_HASH then Suspended
      else Accepted
    }

    /** burnAddressVoteFee. */
    method Burn(voter: Address) returns (ok: bool)
      modifies this`balance
      ensures ok <==> Number(old(balance), voter) >= BURN_WEI
      ensures !ok ==> unchanged(this)
      ensures ok ==> Total(balance) == Total(old(balance)) - BURN_WEI
      ensures ok ==> balance == old(balance)[voter := Number(old(balance), voter) - BURN_WEI]
    {
      if Number(balance, voter) < BURN_WEI {
        return false;
      }
      TotalAfterBurn(balance, voter, BURN_WEI);
      balance := balance[voter := balance[voter] - BURN_WEI];
      return true;
    }

    method ClearVote(target: Address, owner: Owner)
      requires Valid() && owner in Voters(active, target)
      modifies this`active, this`reason, this`count, this`suspended
      ensures Valid()
      ensures active == old(active)[(target, owner) := ZERO_HASH] && reason == old(reason)[(target, owner) := ZERO_HASH]
      ensures suspended == old(suspended)[target := ZERO_HASH]
    {
      UnvoteKeepsCounts(active, count, suspended, target, owner);
      active := active[(target, owner) := ZERO_HASH];
      reason := reason[(target, owner) := ZERO_HASH];
      var n := Number(count, target) - 1;
      count := count[target := n];
      if n < THRESHOLD {
        suspended := suspended[target := ZERO_HASH];
      }
    }

    method CastVote(target: Address, owner: Owner, reasonHash: Hash, txHash: Hash)
      requires Valid() && owner !in Voters(active, target) && Number(count, target) < THRESHOLD && txHash != ZERO_HASH
      modifies this`active, this`reason, this`count, this`suspended
      ensures Valid()
      ensures active == old(active)[(target, owner) := txHash] && reason == old(reason)[(target, owner) := reasonHash]
      ensures suspended ==
                if Number(count, target) >= THRESHOLD then old(suspended)[target := txHash] else old(suspended)
    {
      active := active[(target, owner) := txHash];
      reason := reason[(target, owner) := reasonHash];
      var n := Number(count, target) + 1;
      count := count[target := n];
      if n >= THRESHOLD {
        suspended := suspended[target := txHash];
      }
      VoteKeepsCounts(old(active), old(count), old(suspended), suspended, target, owner, txHash);
    }

    /** ProcessAddressVote: a refused call changes nothing; the two inner guards never fire. */
    method Process(from: Address, owners: map<Address, Owner>, vote: Vote, txHash: Hash) returns (r: Outcome)
      requires Valid() && txHash != ZERO_HASH
      modifies this
      ensures Valid()
      ensures r != Accepted ==> unchanged(this)
      ensures r == Accepted <==>
                old(ValidateState(from, owners, vote)) == Accepted && Number(old(balance), from) >= BURN_WEI
      ensures r != Underflow
      ensures r == Accepted ==> Total(balance) == Total(old(balance)) - BURN_WEI
      ensures r == Accepted ==> balance == old(balance)[from := Number(old(balance), from) - BURN_WEI]
      ensures r == Accepted ==>
                && active == old(active)[(vote.target, owners[from]) := if vote.unvote then ZERO_HASH else txHash]
                && reason == old(reason)[(vote.target, owners[from]) :=
                                         if vote.unvote then ZERO_HASH else vote.reasonHash]
      ensures r == Accepted ==>
                suspended == if vote.unvote then old(suspended)[vote.target := ZERO_HASH]
                             else if Number(count, vote.target) >= THRESHOLD then old(suspended)[vote.target := txHash]
                             else old(suspended)
      ensures r == Accepted ==> VoterMoved(old(active), active, vote.target, owners[from], vote.unvote)
    {
      r := ValidateState(from, owners, vote);
      if r != Accepted {
        return;
      }
      var owner := owners[from];
      var n := Number(count, vote.target);
      VoterIsActive(active, vote.target, owner);
      if vote.unvote {
        if n == 0 {
          return Underflow;
        }
        var ok := Burn(from);
        if !ok {
          return InsufficientBalance;
        }
        VoterMovedBy(active, vote.target, owner, ZERO_HASH);
        ClearVote(vote.target, owner);
        return Accepted;
      }
      if n >= THRESHOLD {
        return Suspended;
      }
      var ok := Burn(from);
      if !ok {
        return InsufficientBalance;
      }
      VoterMovedBy(active, vote.target, owner, txHash);
      CastVote(vote.target, owner, vote.reasonHash, txHash);
      return Accepted;
    }

    /** The validation and the fee together accept exactly the calls that count. */
    lemma CountsExactly(c: Call)
      requires Valid()
      ensures ValidateState(c.from, c.owners, c.vote) == Accepted && Number(balance, c.from) >= BURN_WEI
         <==> Counts(pool, Abstract(), c)
    {
      VotersAgree(active, c.vote.target);
      if c.from in c.owners {
        assert (c.vote.target, c.owners[c.from]) in Votes(active) <==>
               Slot(active, (c.vote.target, c.owners[c.from])) != ZERO_HASH;
      }
      assert Number(count, c.vote.target) == |Voters(active, c.vote.target)|;
    }

    /** One call, as a step of the set of votes. */
    method Handle(c: Call) returns (r: Outcome)
      requires Valid() && c.txHash != ZERO_HASH
      modifies this
      ensures Valid()
      ensures r == Accepted <==> Counts(pool, old(Abstract()), c)
      ensures Abstract() == Next(pool, old(Abstract()), c)
      ensures Total(old(balance)) - Total(balance) == if r == Accepted then BURN_WEI else 0
    {
      CountsExactly(c);
      if Counts(pool, Abstract(), c) {
        SlotWriteIsStep(pool, active, balance, c);
      }
      r := Process(c.from, c.owners, c.vote, c.txHash);
    }

    /** Over any run of calls the books agree, and 50 TKM are gone per accepted operation. */
    method Run(calls: seq<Call>) returns (accepted: nat)
      requires Valid()
      requires forall c :: c in calls ==> c.txHash != ZERO_HASH
      modifies this
      ensures Valid()
      ensures Abstract() == After(pool, old(Abstract()), calls)
      ensures accepted <= |calls|
      ensures Total(old(balance)) - Total(balance) == BURN_WEI * accepted
    {
      accepted := 0;
      assert calls[..0] == [];
      for i := 0 to |calls|
        invariant Valid() && accepted <= i
        invariant Abstract() == After(pool, old(Abstract()), calls[..i])
        invariant Total(old(balance)) - Total(balance) == BURN_WEI * accepted
      {
        assert calls[..i + 1][..i] == calls[..i];
        var r := Handle(calls[i]);
        if r == Accepted {
          accepted := accepted + 1;
        }
      }
      assert calls[..|calls|] == calls;
    }
  }
}
