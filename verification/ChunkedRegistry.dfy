/**
  Oracle values and cross-chain payloads.  Both are accepted under replay
  protection and stored in 32-byte words, from which they are read back.
 */
module ChunkedRegistry {
  import opened Common

  newtype byte = x: int | 0 <= x < 256

  datatype Id = Id(word: nat)

  const WORD: nat := 32
  const MAX_ORACLE_VALUE: nat := 4096
  const MAX_CROSS_CHAIN_PAYLOAD: nat := 64 * 1024

  /** What a chunked record is stored under. */
  datatype Key = Observation(feed: Id, round: nat) | Message(replay: Id)

  datatype Outcome = Accepted | BadEnvelope | Replayed

  function Limit(key: Key): nat {
    if key.Observation? then MAX_ORACLE_VALUE else MAX_CROSS_CHAIN_PAYLOAD
  }

  function Zeros(n: nat): (z: seq<byte>)
    ensures |z| == n
  {
    seq(n, _ => 0 as byte)
  }

  /** The i-th word of a value, zero padded at the end. */
  function Chunk(value: seq<byte>, i: nat): (w: seq<byte>)
    requires WORD * i < |value|
    ensures |w| == WORD
  {
    if WORD * i + WORD <= |value| then value[WORD * i..WORD * i + WORD]
    else value[WORD * i..] + Zeros(WORD * i + WORD - |value|)
  }

  function ReadWord(chunks: map<(Key, nat), seq<byte>>, key: Key, i: nat): seq<byte> {
    if (key, i) in chunks && |chunks[(key, i)]| == WORD then chunks[(key, i)] else Zeros(WORD)
  }

  lemma WordWritten(chunks: map<(Key, nat), seq<byte>>, key: Key, index: nat, word: seq<byte>)
    requires |word| == WORD
    ensures forall k, i: nat {:trigger ReadWord(chunks[(key, index) := word], k, i)} ::
              ReadWord(chunks[(key, index) := word], k, i)
              == if k == key && i == index then word else ReadWord(chunks, k, i)
  {
  }

  /** `value` is stored in full under `key`. */
  ghost predicate Stored(lengths: map<Key, nat>, chunks: map<(Key, nat), seq<byte>>, key: Key, value: seq<byte>) {
    && 0 < |value| <= Limit(key)
    && key in lengths && lengths[key] == |value|
    && forall i: nat {:trigger ReadWord(chunks, key, i)} :: WORD * i < |value| ==>
          ReadWord(chunks, key, i) == Chunk(value, i)
  }

  /** Storing under one key leaves every other stored record readable. */
  lemma StoredElsewhere(lengths: map<Key, nat>, chunks: map<(Key, nat), seq<byte>>,
                        lengths': map<Key, nat>, chunks': map<(Key, nat), seq<byte>>, written: Key, key: Key,
                        value: seq<byte>)
    requires Stored(lengths, chunks, key, value) && key != written
    requires key in lengths' && lengths'[key] == lengths[key]
    requires forall i: nat :: ReadWord(chunks', key, i) == ReadWord(chunks, key, i)
    ensures Stored(lengths', chunks', key, value)
  {
  }

  /** Concatenating words reproduces the value as far as the words reach. */
  lemma ChunkExtends(value: seq<byte>, read: seq<byte>, i: nat)
    requires WORD * i < |value| && |read| == WORD * i
    requires read == value[..WORD * i]
    ensures
      var more := read + Chunk(value, i);
      && |more| == WORD * (i + 1)
      && (if |more| <= |value| then more == value[..|more|] else more[..|value|] == value)
  {
  }

  datatype Call =
    | Oracle(feed: Id, round: nat, value: seq<byte>, observation: Id, authorised: bool)
    | CrossChain(replay: Id, payload: seq<byte>, txHash: Id, authorised: bool)

  /** Each record was accepted once, and the rounds of a feed were accepted in increasing order. */
  ghost predicate InOrder(log: seq<(Key, seq<byte>)>) {
    forall i, j {:trigger log[i], log[j]} :: 0 <= i < j < |log| ==>
      && log[i].0 != log[j].0
      && (log[i].0.Observation? && log[j].0.Observation? && log[i].0.feed == log[j].0.feed ==>
            log[i].0.round < log[j].0.round)
  }

  /** A record may join the log when its key is new and, for a feed, its round the highest so far. */
  lemma InOrderNext(log: seq<(Key, seq<byte>)>, entry: (Key, seq<byte>))
    requires InOrder(log)
    requires forall i {:trigger log[i]} :: 0 <= i < |log| ==>
               && log[i].0 != entry.0
               && (log[i].0.Observation? && entry.0.Observation? && log[i].0.feed == entry.0.feed ==>
                     log[i].0.round < entry.0.round)
    ensures InOrder(log + [entry])
  {
  }

  // ----- what the registry is for: a map of accepted records

  /** A record joins when it is authorised, of legal size, and ahead of its feed or under a new replay key. */
  ghost function Next(accepted: map<Key, seq<byte>>, c: Call): map<Key, seq<byte>> {
    match c
    case Oracle(feed, round, value, _, authorised) =>
      if authorised && 0 < |value| <= 4096 && round > 0
         && (forall r: nat {:trigger Observation(feed, r)} :: Observation(feed, r) in accepted ==> r < round)
      then accepted[Observation(feed, round) := value] else accepted
    case CrossChain(replay, payload, _, authorised) =>
      if authorised && 0 < |payload| <= 65536 && Message(replay) !in accepted
      then accepted[Message(replay) := payload] else accepted
  }

  ghost function After(accepted: map<Key, seq<byte>>, calls: seq<Call>): map<Key, seq<byte>> {
    if calls == [] then accepted else Next(After(accepted, calls[..|calls| - 1]), calls[|calls| - 1])
  }

  /** A run is its calls, one after another. */
  lemma AfterSnoc(accepted: map<Key, seq<byte>>, calls: seq<Call>, c: Call)
    ensures After(accepted, []) == accepted
    ensures After(accepted, calls + [c]) == Next(After(accepted, calls), c)
  {
    assert (calls + [c])[..|calls|] == calls;
  }

  function RoundOf(rounds: map<Id, nat>, feed: Id): nat {
    if feed in rounds then rounds[feed] else 0
  }

  /** The recorded round of a feed is the highest accepted one. */
  ghost predicate RoundsInv(rounds: map<Id, nat>, accepted: map<Key, seq<byte>>) {
    && (forall f, r: nat {:trigger Observation(f, r)} :: Observation(f, r) in accepted ==> 0 < r <= RoundOf(rounds, f))
    && (forall f {:trigger RoundOf(rounds, f)} ::
          RoundOf(rounds, f) == 0 || Observation(f, RoundOf(rounds, f)) in accepted)
  }

  lemma RoundsNext(rounds: map<Id, nat>, accepted: map<Key, seq<byte>>, feed: Id, round: nat, value: seq<byte>)
    requires RoundsInv(rounds, accepted)
    ensures round > RoundOf(rounds, feed) <==>
              && round > 0
              && forall r: nat {:trigger Observation(feed, r)} :: Observation(feed, r) in accepted ==> r < round
    ensures round > RoundOf(rounds, feed) ==>
              RoundsInv(rounds[feed := round], accepted[Observation(feed, round) := value])
  {
    if round > RoundOf(rounds, feed) {
      var rounds', accepted' := rounds[feed := round], accepted[Observation(feed, round) := value];
      forall f
        ensures RoundOf(rounds', f) == 0 || Observation(f, RoundOf(rounds', f)) in accepted'
      {
        assert RoundOf(rounds', f) == if f == feed then round else RoundOf(rounds, f);
      }
    }
  }

  lemma MessageKeepsRounds(rounds: map<Id, nat>, accepted: map<Key, seq<byte>>, replay: Id, payload: seq<byte>)
    requires RoundsInv(rounds, accepted)
    ensures RoundsInv(rounds, accepted[Message(replay) := payload])
  {
  }

  class Registry {
    var rounds: map<Id, nat>
    var observations: map<(Id, nat), Id>
    var replays: map<Id, Id>
    var lengths: map<Key, nat>
    var chunks: map<(Key, nat), seq<byte>>

    /** Every record ever accepted. */
    ghost var accepted: map<Key, seq<byte>>

    function Replay(key: Id): Id
      reads this
    {
      if key in replays then replays[key] else Id(0)
    }

    ghost predicate Valid()
      reads this
    {
      && (forall k {:trigger k in accepted} :: k in accepted ==> Stored(lengths, chunks, k, accepted[k]))
      && (forall k {:trigger k in lengths} :: k in lengths ==> k in accepted)
      && RoundsInv(rounds, accepted)
      && (forall m {:trigger Message(m)} :: Message(m) in accepted <==> Replay(m) != Id(0))
    }

    constructor ()
      ensures Valid() && accepted == map[]
    {
      rounds, observations, replays, lengths, chunks, accepted := map[], map[], map[], map[], map[], map[];
    }

    /** The write loop shared by both processors. */
    method WriteChunks(key: Key, value: seq<byte>)
      requires 0 < |value| <= Limit(key)
      modifies this`lengths, this`chunks
      ensures lengths == old(lengths)[key := |value|]
      ensures Stored(lengths, chunks, key, value)
      ensures forall k, i: nat :: k != key ==> ReadWord(chunks, k, i) == ReadWord(old(chunks), k, i)
    {
      lengths := lengths[key := |value|];
      var index := 0;
      while index * WORD < |value|
        invariant lengths == old(lengths)[key := |value|]
        invariant forall i: nat {:trigger ReadWord(chunks, key, i)} :: i < index && WORD * i < |value| ==>
                    ReadWord(chunks, key, i) == Chunk(value, i)
        invariant forall k, i: nat :: k != key ==> ReadWord(chunks, k, i) == ReadWord(old(chunks), k, i)
        decreases |value| - index * WORD
      {
        var word := Chunk(value, index);
        WordWritten(chunks, key, index, word);
        chunks := chunks[(key, index) := word];
        index := index + 1;
      }
    }

    /** The read loop shared by both readers: a record reads back byte for byte, anything else not at all. */
    method Read(key: Key) returns (value: seq<byte>, ok: bool)
      requires Valid()
      ensures ok <==> key in accepted
      ensures ok ==> value == accepted[key]
    {
      var length := if key in lengths then lengths[key] else 0;
      if length == 0 || length > Limit(key) {
        return [], false;
      }
      ghost var truth := accepted[key];
      assert Stored(lengths, chunks, key, truth);
      value := [];
      var index := 0;
      while |value| < length
        invariant |value| == WORD * index
        invariant if |value| <= length then value == truth[..|value|] else value[..length] == truth
        decreases length - |value|
      {
        ChunkExtends(truth, value, index);
        value := value + ReadWord(chunks, key, index);
        index := index + 1;
      }
      return value[..length], true;
    }

    /** Recording a fresh record keeps all earlier ones. */
    method Record(key: Key, value: seq<byte>)
      requires 0 < |value| <= Limit(key) && key !in accepted
      requires forall k :: k in accepted ==> Stored(lengths, chunks, k, accepted[k])
      requires forall k :: k in lengths ==> k in accepted
      modifies this`lengths, this`chunks, this`accepted
      ensures accepted == old(accepted)[key := value]
      ensures forall k :: k in accepted ==> Stored(lengths, chunks, k, accepted[k])
      ensures forall k :: k in lengths ==> k in accepted
    {
      ghost var lengths0, chunks0 := lengths, chunks;
      WriteChunks(key, value);
      forall k | k in accepted
        ensures Stored(lengths, chunks, k, accepted[k])
      {
        assert Stored(lengths0, chunks0, k, accepted[k]);
        StoredElsewhere(lengths0, chunks0, lengths, chunks, key, k, accepted[k]);
      }
      accepted := accepted[key := value];
    }

    /** The state part of ProcessOracleTransaction; `authorised` stands for envelope, signer and quorum checks. */
    method ProcessOracle(feed: Id, round: nat, value: seq<byte>, observation: Id, authorised: bool) returns (r: Outcome)
      requires Valid()
      modifies this
      ensures Valid()
      ensures r == Accepted <==> authorised && 0 < |value| <= MAX_ORACLE_VALUE && round > RoundOf(old(rounds), feed)
      ensures r != Accepted ==> unchanged(this)
      ensures r == Accepted ==>
                && Observation(feed, round) !in old(accepted)
                && accepted == old(accepted)[Observation(feed, round) := value]
                && rounds == old(rounds)[feed := round]
                && observations == old(observations)[(feed, round) := observation]
      ensures replays == old(replays)
      ensures accepted == Next(old(accepted), Oracle(feed, round, value, observation, authorised))
    {
      RoundsNext(rounds, accepted, feed, round, value);
      if !authorised || |value| == 0 || |value| > MAX_ORACLE_VALUE {
        return BadEnvelope;
      }
      if round <= RoundOf(rounds, feed) {
        return Replayed;
      }
      var key := Observation(feed, round);
      rounds := rounds[feed := round];
      observations := observations[(feed, round) := observation];
      Record(key, value);
      return Accepted;
    }

    /** The state part of ProcessCrossChainTransaction; `authorised` stands for envelope, quorum and chain-id checks. */
    method ProcessCrossChain(replay: Id, payload: seq<byte>, txHash: Id, authorised: bool) returns (r: Outcome)
      requires Valid() && txHash != Id(0)
      modifies this
      ensures Valid()
      ensures r == Accepted <==>
                authorised && 0 < |payload| <= MAX_CROSS_CHAIN_PAYLOAD && Message(replay) !in old(accepted)
      ensures r != Accepted ==> unchanged(this)
      ensures r == Accepted ==>
                accepted == old(accepted)[Message(replay) := payload] && replays == old(replays)[replay := txHash]
      ensures rounds == old(rounds) && observations == old(observations)
      ensures accepted == Next(old(accepted), CrossChain(replay, payload, txHash, authorised))
    {
      if !authorised || |payload| == 0 || |payload| > MAX_CROSS_CHAIN_PAYLOAD {
        return BadEnvelope;
      }
      if Replay(replay) != Id(0) {
        return Replayed;
      }
      var key := Message(replay);
      MessageKeepsRounds(rounds, accepted, replay, payload);
      replays := replays[replay := txHash];
      Record(key, payload);
      return Accepted;
    }

    /** One call; `entry` is the record it added, if any. */
    method Handle(c: Call) returns (entry: Option<(Key, seq<byte>)>)
      requires Valid() && (c.CrossChain? ==> c.txHash != Id(0))
      modifies this
      ensures Valid() && accepted == Next(old(accepted), c)
      ensures entry.None? ==> unchanged(this)
      ensures entry.Some? ==>
                && entry.value.0 !in old(accepted) && accepted == old(accepted)[entry.value.0 := entry.value.1]
                && (entry.value.0.Observation? ==> forall r: nat {:trigger Observation(entry.value.0.feed, r)} ::
                      Observation(entry.value.0.feed, r) in old(accepted) ==> r < entry.value.0.round)
    {
      match c
      case Oracle(feed, round, value, observation, authorised) =>
        RoundsNext(rounds, accepted, feed, round, value);
        var r := ProcessOracle(feed, round, value, observation, authorised);
        entry := if r == Accepted then Some((Observation(feed, round), value)) else None;
      case CrossChain(replay, payload, txHash, authorised) =>
        var r := ProcessCrossChain(replay, payload, txHash, authorised);
        entry := if r == Accepted then Some((Message(replay), payload)) else None;
    }

    /**
      Over any run the registry holds what the calls, one after another, make of it.  The log of what was
      added is complete and in order, and everything accepted is still stored in full at the end.
     */
    method Run(calls: seq<Call>) returns (log: seq<(Key, seq<byte>)>)
      requires Valid()
      requires forall c :: c in calls && c.CrossChain? ==> c.txHash != Id(0)
      modifies this
      ensures Valid()
      ensures accepted == After(old(accepted), calls)
      ensures forall i, j {:trigger log[i], log[j]} :: 0 <= i < j < |log| ==> log[i].0 != log[j].0
      ensures forall i, j {:trigger log[i], log[j]} :: 0 <= i < j < |log| ==>
                log[i].0.Observation? && log[j].0.Observation? && log[i].0.feed == log[j].0.feed ==>
                  log[i].0.round < log[j].0.round
      ensures forall e :: e in log ==> e.0 in accepted && accepted[e.0] == e.1
      ensures forall k :: k in old(accepted) ==> k in accepted && accepted[k] == old(accepted)[k]
      ensures forall k :: k in accepted ==> k in old(accepted) || (k, accepted[k]) in log
    {
      log := [];
      assert calls[..0] == [];
      for i := 0 to |calls|
        invariant Valid() && InOrder(log)
        invariant accepted == After(old(accepted), calls[..i])
        invariant forall j {:trigger log[j]} :: 0 <= j < |log| ==>
                    log[j].0 in accepted && accepted[log[j].0] == log[j].1
        invariant forall k :: k in old(accepted) ==> k in accepted && accepted[k] == old(accepted)[k]
        invariant forall k {:trigger k in accepted} :: k in accepted ==> k in old(accepted) || (k, accepted[k]) in log
      {
        assert calls[..i + 1][..i] == calls[..i];
        var entry := Handle(calls[i]);
        if entry.Some? {
          InOrderNext(log, entry.value);
          log := log + [entry.value];
        }
      }
      assert calls[..|calls|] == calls;
    }
  }
}
