/** Types that several components share. */
module Common {

  datatype Hash = Hash(word: nat)

  /** The hash nothing has: an unset slot, or the parent named by a block without parent. */
  const ZERO_HASH := Hash(0)

  type Address = nat

  datatype Option<T> = None | Some(value: T)

  datatype Result<T, E> = Ok(value: T) | Err(error: E)
}

/** Storage slots as typed keys: an absent slot reads as zero. */
module Slots {
  import opened Common

  function Slot<K>(slots: map<K, Hash>, key: K): Hash {
    if key in slots then slots[key] else ZERO_HASH
  }

  function Number<K>(slots: map<K, nat>, key: K): nat {
    if key in slots then slots[key] else 0
  }
}

/** Notions about sequences that several components share. */
module Sequences {

  ghost predicate Distinct<T>(s: seq<T>) {
    forall i, j :: 0 <= i < j < |s| ==> s[i] != s[j]
  }

  function ToSet<T>(s: seq<T>): set<T> {
    set t | t in s
  }

  lemma ToSetConcat<T>(a: seq<T>, b: seq<T>)
    ensures ToSet(a + b) == ToSet(a) + ToSet(b)
  {
  }
}
