/**
  The header chain: its own reorganisation of the number index, and the two
  accelerators that answer ancestor queries faster than walking parents.
 */
module HeaderChain {
  import opened Common
  import opened ChainSpec

  /** Each header is the parent of the next, as ValidateHeaderChain and VerifyHeaders establish. */
  ghost predicate Contiguous(db: Store, headers: seq<Hash>) {
    && (forall i :: 0 <= i < |headers| ==> headers[i] in db)
    && (forall i {:trigger headers[i]} :: 0 < i < |headers| ==>
          db[headers[i]].parent == headers[i - 1] && db[headers[i]].number == db[headers[i - 1]].number + 1)
  }

  lemma {:induction false} HeaderIsAncestor(db: Store, headers: seq<Hash>, i: nat)
    requires Closed(db) && Contiguous(db, headers) && i < |headers|
    ensures var last := headers[|headers| - 1];
            db[last].number == db[headers[i]].number + (|headers| - 1 - i)
            && Ancestor(db, last, db[headers[i]].number) == headers[i]
    decreases |headers| - i
  {
    if i < |headers| - 1 {
      HeaderIsAncestor(db, headers, i + 1);
      AncestorParent(db, headers[|headers| - 1], db[headers[i + 1]].number);
    }
  }

  /** The index while the walk back from `first` stands at height `n`, with everything above `top` gone. */
  ghost function Walked(db: Store, canon: map<nat, Hash>, first: Hash, n: nat, top: nat): map<nat, Hash>
    requires Closed(db) && first in db && n <= db[first].number
  {
    (map k: nat | k in canon && k <= top :: canon[k])
    + (map k: nat | n < k <= db[first].number :: Ancestor(db, first, k))
  }

  lemma WalkedStep(db: Store, canon: map<nat, Hash>, first: Hash, n: nat, top: nat)
    requires Closed(db) && first in db && 0 < n <= db[first].number
    ensures Walked(db, canon, first, n, top)[n := Ancestor(db, first, n)] == Walked(db, canon, first, n - 1, top)
  {
  }

  /** The index holds the ancestors of `first` up to its own height. */
  ghost predicate ReadyFor(db: Store, next: map<nat, Hash>, first: Hash)
    requires Closed(db) && first in db
  {
    forall k: nat {:trigger k in next} :: k < db[first].number ==> k in next && next[k] == Ancestor(db, first, k)
  }

  /** Where the walk meets the index, everything below is shared already. */
  lemma CrossLinked(db: Store, canon: map<nat, Hash>, current: Hash, first: Hash, n: nat, top: nat)
    requires Closed(db) && current in db && first in db && canon == ChainMap(db, current)
    requires n <= db[first].number <= top && n in canon && canon[n] == Ancestor(db, first, n)
    ensures ReadyFor(db, Walked(db, canon, first, n, top), first)
  {
    forall k: nat | k <= n
      ensures k in canon && canon[k] == Ancestor(db, first, k)
    {
      MeetBelow(db, current, first, n, k);
    }
  }

  lemma ReadyNext(db: Store, next: map<nat, Hash>, h: Hash)
    requires Closed(db) && h in db && db[h].number > 0 && Linked(db, h)
    requires ReadyFor(db, next, db[h].parent)
    ensures ReadyFor(db, next[db[h].number - 1 := db[h].parent], h)
  {
    var p := db[h].parent;
    var next' := next[db[h].number - 1 := p];
    forall k: nat | k < db[h].number
      ensures k in next' && next'[k] == Ancestor(db, h, k)
    {
      assert Ancestor(db, h, k) == Ancestor(db, p, k);
      assert k < db[p].number ==> k in next;
    }
  }

  lemma ReadyComplete(db: Store, next: map<nat, Hash>, h: Hash)
    requires Closed(db) && h in db && ReadyFor(db, next, h)
    requires forall k: nat :: k in next ==> k <= db[h].number
    ensures next[db[h].number := h] == ChainMap(db, h)
  {
    var l, r := next[db[h].number := h], ChainMap(db, h);
    forall k: nat
      ensures k in l <==> k in r
      ensures k in l ==> l[k] == r[k]
    {
      assert k < db[h].number ==> k in next;
    }
    assert l.Keys == r.Keys;
  }

  class Headers {
    var db: Store
    var canon: map<nat, Hash>
    var current: Hash

    /** The number index is exactly the ancestor chain of the current header. */
    ghost predicate Valid()
      reads this
    {
      Closed(db) && current in db && canon == ChainMap(db, current)
    }

    /** Drop the assignments above the new head. */
    method DropAbove(last: nat) returns (next: map<nat, Hash>)
      requires Valid()
      ensures next == map k: nat | k in canon && k <= last :: canon[k]
    {
      next := canon;
      var i: nat := last + 1;
      while i in canon
        invariant i > last
        invariant next == map k: nat | k in canon && (k <= last || k >= i) :: canon[k]
        decreases db[current].number + 1 - i
      {
        next := next - {i};
        i := i + 1;
      }
    }

    /** Overwrite stale assignments from `first` back to the cross link of the two chains. */
    method WalkBack(first: Hash, last: nat, start: map<nat, Hash>) returns (ok: bool, next: map<nat, Hash>)
      requires Valid() && first in db && db[first].number <= last
      requires start == map k: nat | k in canon && k <= last :: canon[k]
      ensures ok && ReadyFor(db, next, first)
      ensures forall k: nat :: k in next ==> k <= last
    {
      next := start;
      var headHash, headNumber := first, db[first].number;
      assert next == Walked(db, canon, first, headNumber, last);
      while headNumber !in canon || canon[headNumber] != headHash
        invariant headHash in db && db[headHash].number == headNumber <= db[first].number
        invariant headHash == Ancestor(db, first, headNumber)
        invariant next == Walked(db, canon, first, headNumber, last)
        decreases headNumber
      {
        next := next[headNumber := headHash];
        if headNumber == 0 {
          return true, next;
        }
        WalkedStep(db, canon, first, headNumber, last);
        AncestorParent(db, first, headNumber);
        var parent := GetHeader(db, db[headHash].parent, headNumber - 1);
        if parent.None? {
          return false, next;
        }
        headHash, headNumber := db[headHash].parent, headNumber - 1;
      }
      CrossLinked(db, canon, current, first, headNumber, last);
      ok := true;
    }

    /** Write the headers themselves, each under the hash its successor names. */
    method WriteAll(headers: seq<Hash>, start: map<nat, Hash>) returns (next: map<nat, Hash>)
      requires Closed(db) && |headers| > 0 && Contiguous(db, headers)
      requires ReadyFor(db, start, headers[0])
      requires forall k: nat :: k in start ==> k <= db[headers[|headers| - 1]].number
      ensures next == ChainMap(db, headers[|headers| - 1])
    {
      next := start;
      var i := 0;
      while i < |headers| - 1
        invariant 0 <= i < |headers|
        invariant ReadyFor(db, next, headers[i])
        invariant forall k: nat :: k in next ==> k <= db[headers[|headers| - 1]].number
      {
        HeaderIsAncestor(db, headers, i);
        assert Linked(db, headers[i + 1]);
        ReadyNext(db, next, headers[i + 1]);
        var hash := db[headers[i + 1]].parent;
        next := next[db[headers[i]].number := hash];
        i := i + 1;
      }
      ReadyComplete(db, next, headers[i]);
      next := next[db[headers[|headers| - 1]].number := headers[|headers| - 1]];
    }

    /** HeaderChain.Reorg: the index becomes exact for the last header; an empty list changes nothing. */
    method Reorg(headers: seq<Hash>) returns (ok: bool)
      requires Valid() && Contiguous(db, headers)
      modifies this`canon, this`current
      ensures ok && Valid()
      ensures current == if headers == [] then old(current) else headers[|headers| - 1]
      ensures headers == [] ==> unchanged(this)
    {
      if |headers| == 0 {
        return true;
      }
      var first, last := headers[0], headers[|headers| - 1];
      HeaderIsAncestor(db, headers, 0);
      assert Linked(db, first);
      var next := canon;
      if db[first].parent != current {
        next := DropAbove(db[last].number);
        ok, next := WalkBack(first, db[last].number, next);
        if !ok {
          return false;
        }
      }
      canon := WriteAll(headers, next);
      current := last;
      ok := true;
    }

    /** The `j`-th ancestor of `hash` lies on the canonical chain. */
    ghost predicate CanonicalAfter(hash: Hash, j: nat)
      requires Valid() && hash in db && j <= db[hash].number
      reads this
    {
      var n := db[hash].number - j;
      n <= db[current].number && Ancestor(db, current, n) == Ancestor(db, hash, n)
    }

    /**
      GetAncestor: walk at most `maxNonCanonical` parents, then jump through the
      number index.  A failed query returns the zero hash and number 0.
     */
    method GetAncestor(hash: Hash, number: nat, ancestor: nat, maxNonCanonical: nat)
      returns (h: Hash, n: nat, budget: nat)
      requires Valid() && hash != ZERO_HASH
      ensures budget <= maxNonCanonical
      ensures h == ZERO_HASH ==> n == 0
      ensures h != ZERO_HASH && ancestor > 0 ==>
                && hash in db && db[hash].number == number && ancestor <= number
                && n == number - ancestor && h == Ancestor(db, hash, n)
      ensures ancestor == 0 ==> h == hash && n == number && budget == maxNonCanonical
      ensures ancestor > 0 && hash in db && db[hash].number == number ==>
                (h != ZERO_HASH <==>
                   && ancestor <= number
                   && (ancestor == 1 || ancestor <= maxNonCanonical
                       || exists j: nat :: j < ancestor && j <= maxNonCanonical && CanonicalAfter(hash, j)))
    {
      budget := maxNonCanonical;
      if ancestor > number {
        return ZERO_HASH, 0, budget;
      }
      if ancestor == 1 {
        var header := GetHeader(db, hash, number);
        if header.Some? {
          assert Linked(db, hash);
          return header.value.parent, number - 1, budget;
        }
        return ZERO_HASH, 0, budget;
      }
      h, n := hash, number;
      var left := ancestor;
      ghost var j := 0;
      while left != 0
        invariant 0 <= j <= ancestor <= number && left == ancestor - j && n == number - j
        invariant budget == maxNonCanonical - j
        invariant j > 0 ==> hash in db && db[hash].number == number
        invariant hash in db && db[hash].number == number ==> h == Ancestor(db, hash, n)
        invariant j == 0 ==> h == hash
        invariant hash in db && db[hash].number == number ==> forall i: nat :: i < j ==> !CanonicalAfter(hash, i)
        decreases left
      {
        if n in canon && canon[n] == h {
          var found := canon[n - left];
          assert hash in db && db[hash].number == number && CanonicalAfter(hash, j);
          MeetBelow(db, current, hash, n, n - left);
          return found, n - left, budget;
        }
        if budget == 0 {
          return ZERO_HASH, 0, budget;
        }
        budget := budget - 1;
        left := left - 1;
        var header := GetHeader(db, h, n);
        if header.None? {
          return ZERO_HASH, 0, budget;
        }
        AncestorParent(db, hash, n);
        h := header.value.parent;
        n := n - 1;
        j := j + 1;
      }
    }
  }

  // ----- the caching closure

  /** Plain parent walking from a block known by hash and number, over any store. */
  function Walk(db: Store, h: Hash, number: nat, target: nat): Option<Hash>
    requires target <= number
    decreases number
  {
    if number == target then Some(h)
    else
      var header := GetHeader(db, h, number);
      if header.None? then None else Walk(db, header.value.parent, number - 1, target)
  }

  /** Over a complete store the walk always arrives, at the ancestor. */
  lemma {:induction false} WalkArrives(db: Store, h: Hash, target: nat)
    requires Closed(db) && h in db && target <= db[h].number
    ensures Walk(db, h, db[h].number, target) == Some(Ancestor(db, h, target))
    decreases db[h].number
  {
    assert Linked(db, h);
    if target < db[h].number {
      WalkArrives(db, db[h].parent, target);
    }
  }

  lemma {:induction false} WalkOneMore(db: Store, h: Hash, number: nat, target: nat)
    requires 0 < target <= number
    ensures Walk(db, h, number, target - 1)
         == match Walk(db, h, number, target)
            case None => None
            case Some(at) => match GetHeader(db, at, target) case None => None case Some(b) => Some(b.parent)
    decreases number
  {
    var header := GetHeader(db, h, number);
    if target < number && header.Some? {
      WalkOneMore(db, header.value.parent, number - 1, target);
    }
  }

  lemma {:induction false} WalkStops(db: Store, h: Hash, number: nat, target: nat, lower: nat)
    requires lower <= target <= number && Walk(db, h, number, target).None?
    ensures Walk(db, h, number, lower).None?
    decreases target - lower
  {
    if lower < target {
      WalkOneMore(db, h, number, target);
      WalkStops(db, h, number, target - 1, lower);
    }
  }

  class HashFn {
    const db: Store
    const refNumber: nat
    const refParent: Hash

    var cache: seq<Hash>

    /** Entry i is the ancestor at reference number - 1 - i. */
    ghost predicate Valid()
      reads this
    {
      |cache| <= refNumber
      && forall i {:trigger cache[i]} :: 0 <= i < |cache| ==>
           Walk(db, refParent, refNumber - 1, refNumber - 1 - i) == Some(cache[i])
    }

    constructor (db: Store, refNumber: nat, refParent: Hash)
      ensures Valid() && this.db == db && this.refNumber == refNumber && this.refParent == refParent
    {
      this.db, this.refNumber, this.refParent, cache := db, refNumber, refParent, [];
    }

    /** The closure GetHashFn returns: in any call order it answers as parent walking would. */
    method Get(n: nat) returns (h: Hash)
      requires Valid()
      modifies this
      ensures Valid() && old(cache) <= cache
      ensures h == if n >= refNumber then ZERO_HASH
                   else match Walk(db, refParent, refNumber - 1, n) case None => ZERO_HASH case Some(a) => a
    {
      if refNumber <= n {
        return ZERO_HASH;
      }
      if |cache| == 0 {
        cache := cache + [refParent];
      }
      var idx := refNumber - n - 1;
      if idx < |cache| {
        return cache[idx];
      }
      var lastHash := cache[|cache| - 1];
      var lastNumber := refNumber - |cache|;
      while true
        invariant Valid() && old(cache) <= cache && |cache| > 0
        invariant lastNumber == refNumber - |cache| && n < lastNumber
        invariant lastHash == cache[|cache| - 1]
        decreases lastNumber
      {
        var header := GetHeader(db, lastHash, lastNumber);
        WalkOneMore(db, refParent, refNumber - 1, lastNumber);
        if header.None? {
          WalkStops(db, refParent, refNumber - 1, lastNumber - 1, n);
          break;
        }
        cache := cache + [header.value.parent];
        lastHash := header.value.parent;
        lastNumber := header.value.number - 1;
        if n == lastNumber {
          return lastHash;
        }
      }
      return ZERO_HASH;
    }
  }
}
