/**
  Processing of Shield3, Shield4 and Shield5 envelopes: which inputs they may
  consume, what the state must allow, and what an accepted one does to the note
  tree, the replay marks and the books.
 */
module ShieldedPool {
  import opened Common
  import opened MerkleSpec
  import opened SparseTree
  import opened Sequences
  import opened PoolModel
  import L = ConfidentialLedger
  import R = LedgerRuns

  datatype EnvelopeError = IllFormedInputs

  function Asset(e: Envelope): nat {
    if e.assetId == 0 then L.ASSET_TKM else e.assetId
  }

  // ----- input sets

  function InputSlots(e: Envelope): seq<Digest> {
    [e.nullifier] + e.additional + e.additionalV5
  }

  /** A zero count means one input for a private spend. */
  function InputCount(e: Envelope): nat {
    if !e.deposit && e.inputCount == 0 then 1 else e.inputCount
  }

  /** Active slots hold distinct non-zero nullifiers, the others are zero. */
  ghost predicate SlotsOk(all: seq<Digest>, count: nat) {
    && count <= |all|
    && (forall i :: 0 <= i < |all| ==> Canonical(all[i]) && (all[i] != ZERO_DIGEST <==> i < count))
    && (forall i, j :: 0 <= i < j < count ==> all[i] != all[j])
  }

  ghost predicate InputsWellFormed(e: Envelope) {
    SlotsOk(InputSlots(e), InputCount(e)) && e.deposit == (InputCount(e) == 0)
  }

  ghost function Inputs(e: Envelope): (r: seq<Digest>)
    requires InputsWellFormed(e)
    ensures Distinct(r)
  {
    InputSlots(e)[..InputCount(e)]
  }

  /** The slot loop of the nullifier readers. */
  method CheckSlots(all: seq<Digest>, count: nat) returns (ok: bool)
    requires count <= |all|
    ensures ok <==> SlotsOk(all, count)
  {
    var seen: set<Digest> := {};
    for i := 0 to |all|
      invariant forall j :: 0 <= j < i ==> Canonical(all[j]) && (all[j] != ZERO_DIGEST <==> j < count)
      invariant seen == set j | 0 <= j < i && j < count :: all[j]
      invariant forall j, k :: 0 <= j < k < i && k < count ==> all[j] != all[k]
    {
      var n := all[i];
      if !Canonical(n) {
        return false;
      }
      if i < count {
        if n == ZERO_DIGEST || n in seen {
          return false;
        }
        seen := seen + {n};
      } else if n != ZERO_DIGEST {
        return false;
      }
    }
    return true;
  }

  /** ShieldedV3Nullifiers, ShieldedV4Nullifiers and ShieldedV5Nullifiers. */
  method Nullifiers(e: Envelope) returns (r: Result<seq<Digest>, EnvelopeError>)
    requires Shaped(e)
    ensures r.Ok? <==> InputsWellFormed(e)
    ensures r.Ok? ==> r.value == Inputs(e)
  {
    var count := InputCount(e);
    var capacity := if e.version == V5 then SHIELD5_INPUT_SLOTS else INPUT_SLOTS;
    if count > capacity || e.deposit != (count == 0) {
      return Err(IllFormedInputs);
    }
    var all := InputSlots(e);
    var ok := CheckSlots(all, count);
    return if ok then Ok(all[..count]) else Err(IllFormedInputs);
  }

  /** shieldedV5AsV4: the shared view, its count capped at four. */
  function AsV4(e: Envelope): Envelope {
    e.(version := V4, additionalV5 := [],
       inputCount := if e.inputCount > INPUT_SLOTS then INPUT_SLOTS else e.inputCount)
  }

  /** The capped view of a well-formed Shield5 input set is well formed and names its first inputs. */
  lemma CappedView(e: Envelope)
    requires Shaped(e) && e.version == V5 && InputsWellFormed(e)
    ensures Shaped(AsV4(e)) && InputsWellFormed(AsV4(e))
    ensures Inputs(AsV4(e)) == if |Inputs(e)| <= INPUT_SLOTS then Inputs(e) else Inputs(e)[..INPUT_SLOTS]
  {
    var v := AsV4(e);
    assert InputSlots(v) == InputSlots(e)[..INPUT_SLOTS];
    assert InputSlots(v)[..InputCount(v)] == InputSlots(e)[..InputCount(v)];
  }

  // ----- replay marks

  datatype SeenKey = SeenNullifier(asset: nat, d: Digest) | SeenTag(asset: nat, d: Digest)

  type MarkMap = map<(nat, Digest), Word>

  /** Persistent spent marks, and the keys seen in the current block. */
  datatype Marks = Marks(nullifiers: MarkMap, linkTags: MarkMap, commitments: MarkMap, seen: set<SeenKey>)

  function Mark(m: MarkMap, asset: nat, d: Digest): Word {
    if (asset, d) in m then m[(asset, d)] else ZERO_WORD
  }

  /** A mark map records exactly the pairs of a history without repeats. */
  ghost predicate Records(m: MarkMap, history: History) {
    && Distinct(history)
    && forall a: nat, d {:trigger Mark(m, a, d)} :: Mark(m, a, d) != ZERO_WORD <==> (a, d) in history
  }

  lemma RecordsOne(m: MarkMap, history: History, asset: nat, d: Digest, txHash: Word)
    requires Records(m, history) && Mark(m, asset, d) == ZERO_WORD && txHash != ZERO_WORD
    ensures Records(m[(asset, d) := txHash], history + [(asset, d)])
  {
    var m' := m[(asset, d) := txHash];
    forall a, e
      ensures Mark(m', a, e) == if a == asset && e == d then txHash else Mark(m, a, e)
    {
    }
  }

  /**
    Every (asset, nullifier), (asset, link tag) and (asset, commitment) pair was used once,
    and what the current block has seen is a part of what is spent for good.
   */
  ghost predicate MarksInv(m: Marks, spent: History, tagged: History,
                           minted: History)
  {
    && Records(m.nullifiers, spent) && Records(m.linkTags, tagged) && Records(m.commitments, minted)
    && (forall a: nat, d {:trigger SeenNullifier(a, d)} :: SeenNullifier(a, d) in m.seen ==> (a, d) in spent)
    && (forall a: nat, d {:trigger SeenTag(a, d)} :: SeenTag(a, d) in m.seen ==> (a, d) in tagged)
    && (forall i {:trigger tagged[i]} :: 0 <= i < |tagged| ==> tagged[i].1 != ZERO_DIGEST)
  }

  lemma ConsumeOne(m: Marks, spent: History, tagged: History, minted: History,
                   asset: nat, n: Digest, txHash: Word)
    requires MarksInv(m, spent, tagged, minted) && Mark(m.nullifiers, asset, n) == ZERO_WORD && txHash != ZERO_WORD
    ensures MarksInv(m.(nullifiers := m.nullifiers[(asset, n) := txHash], seen := m.seen + {SeenNullifier(asset, n)}),
                     spent + [(asset, n)], tagged, minted)
  {
    RecordsOne(m.nullifiers, spent, asset, n, txHash);
  }

  lemma TagOne(m: Marks, spent: History, tagged: History, minted: History,
               asset: nat, tag: Digest, txHash: Word)
    requires MarksInv(m, spent, tagged, minted) && Mark(m.linkTags, asset, tag) == ZERO_WORD
    requires txHash != ZERO_WORD && tag != ZERO_DIGEST
    ensures MarksInv(m.(linkTags := m.linkTags[(asset, tag) := txHash], seen := m.seen + {SeenTag(asset, tag)}),
                     spent, tagged + [(asset, tag)], minted)
  {
    RecordsOne(m.linkTags, tagged, asset, tag, txHash);
  }

  lemma MintOne(m: Marks, spent: History, tagged: History, minted: History,
                asset: nat, c: Digest, txHash: Word)
    requires MarksInv(m, spent, tagged, minted) && Mark(m.commitments, asset, c) == ZERO_WORD && txHash != ZERO_WORD
    ensures MarksInv(m.(commitments := m.commitments[(asset, c) := txHash]), spent, tagged, minted + [(asset, c)])
  {
    RecordsOne(m.commitments, minted, asset, c, txHash);
  }

  /** `m'` names `txHash` as the user of every digest in `ds` and agrees with `m` elsewhere. */
  ghost predicate MarkedBy(m: MarkMap, m': MarkMap, asset: nat, ds: seq<Digest>, txHash: Word) {
    forall a: nat, d {:trigger Mark(m', a, d)} ::
        Mark(m', a, d) == if a == asset && d in ds then txHash else Mark(m, a, d)
  }

  lemma MarkedNext(m: MarkMap, m': MarkMap, asset: nat, ds: seq<Digest>, i: nat, txHash: Word)
    requires i < |ds| && MarkedBy(m, m', asset, ds[..i], txHash)
    ensures MarkedBy(m, m'[(asset, ds[i]) := txHash], asset, ds[..i + 1], txHash)
  {
    var m'' := m'[(asset, ds[i]) := txHash];
    assert ds[..i + 1] == ds[..i] + [ds[i]];
    forall a: nat, d
      ensures Mark(m'', a, d) == if a == asset && d in ds[..i + 1] then txHash else Mark(m, a, d)
    {
      assert Mark(m'', a, d) == if a == asset && d == ds[i] then txHash else Mark(m', a, d);
    }
  }

  /** A digest that comes later in a sequence without repeats is not marked yet. */
  lemma NotYetMarked(m: MarkMap, m': MarkMap, asset: nat, ds: seq<Digest>, i: nat, txHash: Word)
    requires i < |ds| && Distinct(ds) && MarkedBy(m, m', asset, ds[..i], txHash)
    ensures Mark(m', asset, ds[i]) == Mark(m, asset, ds[i])
  {
    assert ds[i] !in ds[..i];
  }

  lemma PairsSnoc(asset: nat, ds: seq<Digest>, i: nat)
    requires i < |ds|
    ensures Pairs(asset, ds[..i + 1]) == Pairs(asset, ds[..i]) + [(asset, ds[i])]
  {
  }

  /** An envelope's inputs, tag and outputs name `txHash` for good; inputs and tag count as seen. */
  ghost predicate SpendMarked(m: Marks, m': Marks, asset: nat, e: Envelope, ins: seq<Digest>, txHash: Word) {
    var tags := if e.deposit || e.version == V3 then [] else [e.linkTag];
    && MarkedBy(m.nullifiers, m'.nullifiers, asset, ins, txHash)
    && MarkedBy(m.linkTags, m'.linkTags, asset, tags, txHash)
    && MarkedBy(m.commitments, m'.commitments, asset, e.outputs, txHash)
    && m'.seen == m.seen + (set n | n in ins :: SeenNullifier(asset, n)) + (set t | t in tags :: SeenTag(asset, t))
  }

  // ----- commitments in the note tree

  /** The note tree files exactly the minted commitments, in order, each under itself. */
  ghost predicate Filed(keys: seq<Digest>, leaves: seq<Digest>, minted: History) {
    keys == leaves == Commitments(minted)
  }

  lemma FiledNext(keys: seq<Digest>, leaves: seq<Digest>, minted: History, asset: nat, c: Digest)
    requires Filed(keys, leaves, minted)
    ensures Filed(keys + [c], leaves + [c], minted + [(asset, c)])
  {
    assert Commitments(minted + [(asset, c)]) == Commitments(minted) + [c];
  }

  /** Every root the tree got after its first `n` leaves is filed under the transaction. */
  ghost predicate RootsFiled(st: Storage, hs: Hasher<Digest>, depth: nat, leaves: seq<Digest>, n: nat, txHash: Word) {
    forall k {:trigger leaves[..k]} :: n < k <= |leaves| ==>
      Get(st, RootMark(Root(hs, depth, leaves[..k]))) == txHash
  }

  lemma RootsFiledNext(st: Storage, st': Storage, hs: Hasher<Digest>, depth: nat, leaves: seq<Digest>, leaf: Digest,
                       n: nat, txHash: Word)
    requires RootsFiled(st, hs, depth, leaves, n, txHash)
    requires RootFiled(st, st', Root(hs, depth, leaves + [leaf]), txHash)
    ensures RootsFiled(st', hs, depth, leaves + [leaf], n, txHash)
  {
    var grown := leaves + [leaf];
    forall k | n < k <= |grown|
      ensures Get(st', RootMark(Root(hs, depth, grown[..k]))) == txHash
    {
      if k <= |leaves| {
        assert grown[..k] == leaves[..k];
      } else {
        assert grown[..k] == grown;
      }
    }
  }

  lemma MintedIsFiled(minted: History, c: Digest)
    ensures c in Commitments(minted) <==> exists a :: (a, c) in minted
  {
    if c in Commitments(minted) {
      var i :| 0 <= i < |minted| && Commitments(minted)[i] == c;
      assert (minted[i].0, c) in minted;
    }
    if exists a :: (a, c) in minted {
      var a :| (a, c) in minted;
      var i :| 0 <= i < |minted| && minted[i] == (a, c);
      assert Commitments(minted)[i] == c;
    }
  }

  // ----- the public fields

  /** When the fee mode and the sponsorship of an envelope are in order. */
  ghost predicate LedgerShape(active: bool, tx: TxView, e: Envelope) {
    && e.feeMode <= 1 && (e.feeMode != 0 ==> active)
    && (active ==>
          if e.feeMode == 0 then e.sponsor == 0
          else
            && !e.deposit && Asset(e) == L.ASSET_TKM && tx.value == 0 && tx.gas == L.PREPAID_GAS
            && tx.feeCap > 0 && tx.feeCap == tx.tipCap
            && tx.gas * tx.feeCap < L.TWO256 && e.sponsor == tx.gas * tx.feeCap)
  }

  /** The state-free part of shieldedV3Basics, shieldedV4Basics and shieldedV5Basics. */
  ghost predicate Basics(active: bool, tx: TxView, e: Envelope, cx: Context)
    requires Shaped(e)
  {
    && cx.admitted
    && (Asset(e) == L.ASSET_TKM || Asset(e) == L.ASSET_PTKM)
    && e.withdrawal >= 0 && e.sponsor >= 0
    && LedgerShape(active, tx, e)
    && e.withdrawal <= MAX_SEND_WEI && (e.withdrawal > 0 <==> e.recipient != 0)
    && (if e.deposit
        then
          && 0 < tx.value <= MAX_SEND_WEI && e.withdrawal == 0 && e.sponsor == 0
          && e.anchor == ZERO_DIGEST && e.nullifier == ZERO_DIGEST && (e.version != V3 ==> e.linkTag == ZERO_DIGEST)
        else
          && tx.value == 0 && e.anchor != ZERO_DIGEST && e.nullifier != ZERO_DIGEST
          && (e.version != V3 ==> e.linkTag != ZERO_DIGEST))
    && e.sponsor <= tx.gas * tx.feeCap
    && (Asset(e) == L.ASSET_PTKM ==> e.sponsor == 0)
    && SlotsOk(e.outputs, |e.outputs|)
  }

  /** validateConfidentialLedgerShape. */
  method CheckLedgerShape(active: bool, tx: TxView, e: Envelope) returns (ok: bool)
    ensures ok <==> LedgerShape(active, tx, e)
  {
    if e.feeMode > 1 || (e.feeMode != 0 && !active) {
      return false;
    }
    if !active {
      return true;
    }
    if e.feeMode == 0 {
      return e.sponsor == 0;
    }
    if e.deposit || Asset(e) != L.ASSET_TKM || tx.value != 0 || tx.gas != L.PREPAID_GAS {
      return false;
    }
    if tx.feeCap <= 0 || tx.feeCap != tx.tipCap {
      return false;
    }
    var expected := tx.gas * tx.feeCap;
    return expected < L.TWO256 && e.sponsor == expected;
  }

  /** shieldedV3Basics, shieldedV4Basics and shieldedV5Basics, as far as they look at the public fields. */
  method CheckBasics(active: bool, tx: TxView, e: Envelope, cx: Context) returns (ok: bool)
    requires Shaped(e)
    ensures ok <==> Basics(active, tx, e, cx)
  {
    if !cx.admitted || (Asset(e) != L.ASSET_TKM && Asset(e) != L.ASSET_PTKM) || e.withdrawal < 0 || e.sponsor < 0 {
      return false;
    }
    ok := CheckLedgerShape(active, tx, e);
    if !ok || e.withdrawal > MAX_SEND_WEI || (e.withdrawal > 0) != (e.recipient != 0) {
      return false;
    }
    if e.deposit {
      if tx.value <= 0 || tx.value > MAX_SEND_WEI || e.withdrawal + e.sponsor != 0 {
        return false;
      }
      if e.anchor != ZERO_DIGEST || e.nullifier != ZERO_DIGEST || (e.version != V3 && e.linkTag != ZERO_DIGEST) {
        return false;
      }
    } else {
      if tx.value != 0 || e.anchor == ZERO_DIGEST || e.nullifier == ZERO_DIGEST {
        return false;
      }
      if e.version != V3 && e.linkTag == ZERO_DIGEST {
        return false;
      }
    }
    if e.sponsor > tx.gas * tx.feeCap || (Asset(e) == L.ASSET_PTKM && e.sponsor != 0) {
      return false;
    }
    ok := CheckSlots(e.outputs, |e.outputs|);
  }

  function FlowOf(tx: TxView, e: Envelope, cx: Context): L.Flow
    requires e.withdrawal >= 0 && e.sponsor >= 0
  {
    L.Flow(Asset(e), e.deposit, tx.value, e.withdrawal, e.sponsor, e.feeMode == 1, e.recipient == cx.pool)
  }

  lemma BasicsShapesFlow(active: bool, tx: TxView, e: Envelope, cx: Context)
    requires Shaped(e) && Basics(active, tx, e, cx)
    ensures L.FlowShape(FlowOf(tx, e, cx), active)
  {
  }

  // ----- what the state must allow

  /** The part of the state a validation looks at. */
  datatype StateView = StateView(books: L.Books, marks: Marks, anchorKnown: bool, room: bool)

  ghost predicate AllUnspent(marks: Marks, asset: nat, ns: seq<Digest>) {
    forall i {:trigger ns[i]} :: 0 <= i < |ns| ==> Mark(marks.nullifiers, asset, ns[i]) == ZERO_WORD
  }

  ghost predicate AllNew(marks: Marks, asset: nat, outs: seq<Digest>) {
    forall i {:trigger outs[i]} :: 0 <= i < |outs| ==> Mark(marks.commitments, asset, outs[i]) == ZERO_WORD
  }

  /** The conditions on the state that do not concern the inputs. */
  ghost predicate CommonStateOk(st: StateView, tx: TxView, e: Envelope, cx: Context)
    requires e.withdrawal >= 0 && e.sponsor >= 0
  {
    && cx.codeFree && e.stampRoot != ZERO_DIGEST && cx.stampRootKnown
    && (e.withdrawal > 0 ==> cx.recipientStamped)
    && (!e.deposit ==> st.anchorKnown)
    && (!e.deposit && e.version != V3 ==> Mark(st.marks.linkTags, Asset(e), e.linkTag) == ZERO_WORD)
    && AllNew(st.marks, Asset(e), e.outputs)
    && L.ReserveRules(st.books, FlowOf(tx, e, cx))
    && st.room
  }

  /** validateShieldedV3State, validateShieldedV4State and validateShieldedV5State, said once. */
  ghost predicate StateOk(st: StateView, tx: TxView, e: Envelope, cx: Context)
    requires e.withdrawal >= 0 && e.sponsor >= 0
  {
    && CommonStateOk(st, tx, e, cx)
    && InputsWellFormed(e)
    && AllUnspent(st.marks, Asset(e), Inputs(e))
  }

  /** A loop that refuses the first digest already marked. */
  method NoneMarked(m: MarkMap, asset: nat, ds: seq<Digest>) returns (ok: bool)
    ensures ok <==> forall i {:trigger ds[i]} :: 0 <= i < |ds| ==> Mark(m, asset, ds[i]) == ZERO_WORD
  {
    for i := 0 to |ds|
      invariant forall j {:trigger ds[j]} :: 0 <= j < i ==> Mark(m, asset, ds[j]) == ZERO_WORD
    {
      if Mark(m, asset, ds[i]) != ZERO_WORD {
        return false;
      }
    }
    return true;
  }

  /** What a private spend consumes must be unspent, and its anchor known. */
  method CheckSpend(st: StateView, e: Envelope, ns: seq<Digest>) returns (ok: bool)
    ensures ok <==>
              && AllUnspent(st.marks, Asset(e), ns) && st.anchorKnown
              && (e.version != V3 ==> Mark(st.marks.linkTags, Asset(e), e.linkTag) == ZERO_WORD)
  {
    ok := NoneMarked(st.marks.nullifiers, Asset(e), ns);
    if !ok {
      return;
    }
    if e.version != V3 && Mark(st.marks.linkTags, Asset(e), e.linkTag) != ZERO_WORD {
      return false;
    }
    return st.anchorKnown;
  }

  /** validateShieldedV3State and validateShieldedV4State. */
  method ValidateV4(st: StateView, tx: TxView, e: Envelope, cx: Context) returns (ok: bool)
    requires Shaped(e) && e.withdrawal >= 0 && e.sponsor >= 0
    ensures ok <==> StateOk(st, tx, e, cx)
  {
    if !cx.codeFree || e.stampRoot == ZERO_DIGEST || !cx.stampRootKnown {
      return false;
    }
    if e.withdrawal > 0 && !cx.recipientStamped {
      return false;
    }
    var ns := Nullifiers(e);
    if ns.Err? {
      return false;
    }
    if !e.deposit {
      ok := CheckSpend(st, e, ns.value);
      if !ok {
        return;
      }
    }
    ok := NoneMarked(st.marks.commitments, Asset(e), e.outputs);
    if !ok {
      return;
    }
    ok := L.CheckReserve(st.books, FlowOf(tx, e, cx));
    if !ok {
      return;
    }
    return st.room;
  }

  /** Splitting a sequence of inputs splits the question whether they are all unspent. */
  lemma UnspentSplits(marks: Marks, asset: nat, ns: seq<Digest>, k: nat)
    requires k <= |ns|
    ensures AllUnspent(marks, asset, ns) <==> AllUnspent(marks, asset, ns[..k]) && AllUnspent(marks, asset, ns[k..])
  {
    if AllUnspent(marks, asset, ns[..k]) && AllUnspent(marks, asset, ns[k..]) {
      forall i | 0 <= i < |ns|
        ensures Mark(marks.nullifiers, asset, ns[i]) == ZERO_WORD
      {
        if i < k {
          assert ns[i] == ns[..k][i];
        } else {
          assert ns[i] == ns[k..][i - k];
        }
      }
    }
  }

  /** The two-part Shield5 check decides exactly the one-part condition on all of its inputs. */
  lemma SplitCheckIsWhole(st: StateView, tx: TxView, e: Envelope, cx: Context)
    requires Shaped(e) && e.version == V5 && e.withdrawal >= 0 && e.sponsor >= 0 && InputsWellFormed(e)
    ensures StateOk(st, tx, e, cx) <==>
              && StateOk(st, tx, AsV4(e), cx)
              && (|Inputs(e)| > INPUT_SLOTS ==> AllUnspent(st.marks, Asset(e), Inputs(e)[INPUT_SLOTS..]))
  {
    CappedView(e);
    if |Inputs(e)| > INPUT_SLOTS {
      UnspentSplits(st.marks, Asset(e), Inputs(e), INPUT_SLOTS);
    }
  }

  /** validateShieldedV5State. */
  method ValidateV5(st: StateView, tx: TxView, e: Envelope, cx: Context) returns (ok: bool)
    requires Shaped(e) && e.version == V5 && e.withdrawal >= 0 && e.sponsor >= 0
    ensures ok <==> StateOk(st, tx, e, cx)
  {
    var shared := ValidateV4(st, tx, AsV4(e), cx);
    var all := Nullifiers(e);
    if InputsWellFormed(e) {
      SplitCheckIsWhole(st, tx, e, cx);
    }
    if !shared || all.Err? {
      return false;
    }
    if |all.value| > INPUT_SLOTS {
      ok := NoneMarked(st.marks.nullifiers, Asset(e), all.value[INPUT_SLOTS..]);
      return;
    }
    return true;
  }

  // ----- the running pool

  /** Everything that decides whether a step completes.  The per-block set is not among it. */
  ghost predicate Accepts(st: StateView, tx: TxView, e: Envelope, cx: Context, senderBalance: nat)
    requires Shaped(e)
  {
    && Basics(st.books.active, tx, e, cx)
    && StateOk(st, tx, e, cx)
    && (st.books.active ==>
          L.Covered(st.books, Asset(e)) && L.Fits(L.Opened(st.books, Asset(e)), tx.value, e.withdrawal, e.sponsor))
    && cx.proven && tx.value <= senderBalance
  }

  lemma AcceptedSettles(st: StateView, tx: TxView, e: Envelope, cx: Context, senderBalance: nat)
    requires Shaped(e) && Accepts(st, tx, e, cx, senderBalance)
    requires senderBalance <= st.books.outside && st.books.pool + st.books.outside < L.TWO256
    ensures L.Settles(st.books, FlowOf(tx, e, cx))
  {
    BasicsShapesFlow(st.books.active, tx, e, cx);
  }

  /** An unspent input or tag cannot have been seen in this block: the block check never refuses more. */
  lemma UnspentIsUnseen(marks: Marks, spent: History, tagged: History,
                        minted: History, e: Envelope)
    requires MarksInv(marks, spent, tagged, minted) && InputsWellFormed(e) && AllUnspent(marks, Asset(e), Inputs(e))
    requires e.version != V3 ==>
               if e.deposit then e.linkTag == ZERO_DIGEST else Mark(marks.linkTags, Asset(e), e.linkTag) == ZERO_WORD
    ensures forall i :: 0 <= i < |Inputs(e)| ==> SeenNullifier(Asset(e), Inputs(e)[i]) !in marks.seen
    ensures e.version != V3 ==> SeenTag(Asset(e), e.linkTag) !in marks.seen
  {
  }

  // ----- the machine these processors implement

  lemma SlotsAreProper(all: seq<Digest>, count: nat)
    requires SlotsOk(all, count)
    ensures Proper(all[..count]) && forall d :: d in all[count..] ==> d == ZERO_DIGEST
  {
    forall d | d in all[..count]
      ensures d != ZERO_DIGEST && Canonical(d)
    {
      var i :| 0 <= i < count && all[..count][i] == d;
      assert all[i] == d;
    }
    forall d | d in all[count..]
      ensures d == ZERO_DIGEST
    {
      var i :| 0 <= i < |all| - count && all[count..][i] == d;
      assert all[count + i] == d;
    }
  }

  lemma ProperSlots(all: seq<Digest>, count: nat)
    requires count <= |all| && Proper(all[..count]) && forall d :: d in all[count..] ==> d == ZERO_DIGEST
    ensures SlotsOk(all, count)
  {
    forall i | 0 <= i < |all|
      ensures Canonical(all[i]) && (all[i] != ZERO_DIGEST <==> i < count)
    {
      if i < count {
        assert all[i] == all[..count][i] && all[i] in all[..count];
      } else {
        assert all[i] == all[count..][i - count] && all[i] in all[count..];
      }
    }
    forall i, j | 0 <= i < j < count
      ensures all[i] != all[j]
    {
      assert all[i] == all[..count][i] && all[j] == all[..count][j];
    }
  }

  lemma SlotsAgree(all: seq<Digest>, count: nat)
    requires count <= |all|
    ensures SlotsOk(all, count) <==> Proper(all[..count]) && forall d :: d in all[count..] ==> d == ZERO_DIGEST
  {
    if SlotsOk(all, count) {
      SlotsAreProper(all, count);
    } else if Proper(all[..count]) && forall d :: d in all[count..] ==> d == ZERO_DIGEST {
      ProperSlots(all, count);
    }
  }

  /** Reading the slots in order finds the inputs the envelope declares. */
  lemma InputsAgree(e: Envelope)
    requires Shaped(e)
    ensures InputsWellFormed(e) <==> InputsInOrder(e)
    ensures InputsWellFormed(e) ==> Inputs(e) == InputsOf(e)
  {
    if InputCount(e) <= |InputSlots(e)| {
      SlotsAgree(InputSlots(e), InputCount(e));
    }
  }

  /** The checks of the public fields accept exactly the well-formed envelopes. */
  lemma FormAgrees(active: bool, tx: TxView, e: Envelope, cx: Context)
    requires Shaped(e) && InputsWellFormed(e)
    ensures Basics(active, tx, e, cx) <==> WellFormed(active, tx, e, cx)
    ensures Basics(active, tx, e, cx) ==>
              Asset(e) == AssetKey(e) && (Asset(e) == L.ASSET_PTKM <==> Wrapped(e))
              && e.withdrawal < L.TWO256 && e.withdrawal >= 0 && e.sponsor >= 0
  {
    InputsAgree(e);
    SlotsAgree(e.outputs, |e.outputs|);
    assert e.outputs[..|e.outputs|] == e.outputs;
    assert InputSlots(e)[0] == e.nullifier;
  }

  /** The marks refuse exactly what the histories contain. */
  lemma UnusedAgrees(marks: Marks, m: Model, e: Envelope)
    requires Shaped(e) && InputsWellFormed(e) && MarksInv(marks, m.spent, m.tagged, m.minted)
    requires Asset(e) == AssetKey(e)
    ensures Unused(m, e) <==>
              && AllUnspent(marks, Asset(e), Inputs(e)) && AllNew(marks, Asset(e), e.outputs)
              && (!e.deposit && e.version != V3 ==> Mark(marks.linkTags, Asset(e), e.linkTag) == ZERO_WORD)
  {
    InputsAgree(e);
    var ins := Inputs(e);
    assert (forall n :: n in ins ==> (Asset(e), n) !in m.spent) <==> AllUnspent(marks, Asset(e), ins) by {
      assert forall i :: 0 <= i < |ins| ==> ins[i] in ins;
      assert forall n :: n in ins ==> (Mark(marks.nullifiers, Asset(e), n) == ZERO_WORD <==> (Asset(e), n) !in m.spent);
    }
    assert (forall c :: c in e.outputs ==> (Asset(e), c) !in m.minted) <==> AllNew(marks, Asset(e), e.outputs) by {
      assert forall i :: 0 <= i < |e.outputs| ==> e.outputs[i] in e.outputs;
      assert forall c :: c in e.outputs ==>
          (Mark(marks.commitments, Asset(e), c) == ZERO_WORD <==> (Asset(e), c) !in m.minted);
    }
  }

  lemma RecordableAgrees(b: L.Books, tx: TxView, e: Envelope, cx: Context)
    requires Shaped(e) && InputsWellFormed(e) && Basics(b.active, tx, e, cx) && L.Solvent(b) && b.active
    ensures Recordable(b, tx, e) <==>
              L.Covered(b, Asset(e)) && L.Fits(L.Opened(b, Asset(e)), tx.value, e.withdrawal, e.sponsor)
  {
    FormAgrees(b.active, tx, e, cx);
    if Free(b) >= 0 {
      if Wrapped(e) {
        L.WrappedTakes(b, tx.value, e.withdrawal);
      } else {
        L.NativeTakes(b, tx.value, e.withdrawal, e.sponsor);
      }
    }
  }

  /** Reserve checks and ledger transition together ask exactly whether the money is there. */
  lemma FundedAgrees(b: L.Books, tx: TxView, e: Envelope, cx: Context)
    requires Shaped(e) && InputsWellFormed(e) && Basics(b.active, tx, e, cx) && L.Solvent(b)
    ensures Funded(b, tx, e) <==>
              && L.ReserveRules(b, FlowOf(tx, e, cx))
              && (b.active ==>
                    L.Covered(b, Asset(e)) && L.Fits(L.Opened(b, Asset(e)), tx.value, e.withdrawal, e.sponsor))
  {
    FormAgrees(b.active, tx, e, cx);
    if b.active {
      RecordableAgrees(b, tx, e, cx);
    }
  }

  lemma RecordedAgrees(b: L.Books, tx: TxView, e: Envelope, asset: nat)
    requires L.Solvent(b) && e.withdrawal >= 0 && e.sponsor >= 0 && Recordable(b, tx, e)
    requires asset == if Wrapped(e) then L.ASSET_PTKM else L.ASSET_TKM
    requires L.Covered(b, asset) && L.Fits(L.Opened(b, asset), tx.value, e.withdrawal, e.sponsor)
    ensures L.Moved(L.Opened(b, asset), tx.value, e.withdrawal, e.sponsor) == Recorded(b, tx, e)
    ensures L.Committed(b, asset, Recorded(b, tx, e))
         == if Wrapped(e) then b.(wrapped := Recorded(b, tx, e)) else b.(native := Recorded(b, tx, e))
  {
    L.MovedBalanced(b, asset, tx.value, e.withdrawal, e.sponsor);
    L.CommitExact(b, asset, Recorded(b, tx, e));
  }

  /** And then the books change as the machine says. */
  lemma PaidAgrees(b: L.Books, tx: TxView, e: Envelope, cx: Context)
    requires Shaped(e) && InputsWellFormed(e) && Basics(b.active, tx, e, cx) && L.Solvent(b)
    requires L.Settles(b, FlowOf(tx, e, cx)) && Funded(b, tx, e)
    ensures L.Settled(b, FlowOf(tx, e, cx)) == Paid(b, tx, e, cx)
  {
    FormAgrees(b.active, tx, e, cx);
    if b.active {
      RecordedAgrees(b, tx, e, Asset(e));
    }
  }

  class Pool {
    const notes: Tree

    var books: L.Books
    var marks: Marks
    var feeTickets: map<Word, nat>

    /** Every pair ever consumed or minted, in order. */
    ghost var spent: History
    ghost var tagged: History
    ghost var minted: History

    ghost predicate MoneyValid()
      reads this
    {
      L.Solvent(books) && books.pool + books.outside < L.TWO256
    }

    ghost predicate NotesValid()
      reads this, notes
    {
      && notes.Valid()
      && MarksInv(marks, spent, tagged, minted)
      && Filed(notes.keys, notes.leaves, minted)
    }

    ghost predicate Valid()
      reads this, notes
    {
      NotesValid() && MoneyValid()
    }

    /** The state of the machine this pool implements. */
    ghost function Abstract(): Model
      reads this
    {
      Model(books, spent, tagged, minted)
    }

    constructor (depth: nat, hs: Hasher<Digest>, books: L.Books)
      requires HashIsNative(hs) && depth > 0
      requires L.Solvent(books) && books.pool + books.outside < L.TWO256
      ensures Valid() && fresh(notes) && this.books == books && spent == [] && tagged == [] && minted == []
    {
      notes := new Tree(depth, hs);
      this.books := books;
      marks := Marks(map[], map[], map[], {});
      feeTickets, spent, tagged, minted := map[], [], [], [];
    }

    /** A new block starts with nothing seen. */
    method StartBlock()
      requires Valid()
      modifies this`marks
      ensures Valid() && marks == old(marks).(seen := {})
    {
      marks := marks.(seen := {});
    }

    method AppendOutput(asset: nat, c: Digest, txHash: Word) returns (ok: bool)
      requires NotesValid() && txHash != ZERO_WORD
      requires |notes.leaves| < Pow2(notes.depth) && Canonical(c) && Mark(marks.commitments, asset, c) == ZERO_WORD
      modifies this`marks, this`minted, notes
      ensures ok && NotesValid()
      ensures notes.leaves == old(notes.leaves) + [c]
      ensures MarksKept(old(notes.storage), notes.storage)
      ensures RootFiled(old(notes.storage), notes.storage, Root(notes.hs, notes.depth, notes.leaves), txHash)
      ensures marks == old(marks).(commitments := old(marks).commitments[(asset, c) := txHash])
      ensures minted == old(minted) + [(asset, c)]
    {
      ghost var keys, leaves := notes.keys, notes.leaves;
      ok := notes.Append(c, c, txHash);
      if !ok {
        return;
      }
      MintOne(marks, spent, tagged, minted, asset, c, txHash);
      FiledNext(keys, leaves, minted, asset, c);
      marks := marks.(commitments := marks.commitments[(asset, c) := txHash]);
      minted := minted + [(asset, c)];
    }

    /** The output loop: every commitment enters the note tree and is marked for its asset. */
    method AppendOutputs(asset: nat, outs: seq<Digest>, txHash: Word) returns (ok: bool)
      requires NotesValid() && txHash != ZERO_WORD
      requires |notes.leaves| + |outs| <= Pow2(notes.depth)
      requires AllNew(marks, asset, outs) && Distinct(outs)
      requires forall i {:trigger outs[i]} :: 0 <= i < |outs| ==> Canonical(outs[i])
      modifies this`marks, this`minted, notes
      ensures ok && NotesValid()
      ensures notes.leaves == old(notes.leaves) + outs
      ensures MarksKept(old(notes.storage), notes.storage)
      ensures marks == old(marks).(commitments := marks.commitments)
      ensures RootsFiled(notes.storage, notes.hs, notes.depth, notes.leaves, |old(notes.leaves)|, txHash)
      ensures MarkedBy(old(marks).commitments, marks.commitments, asset, outs, txHash)
      ensures minted == old(minted) + Pairs(asset, outs)
    {
      var i := 0;
      assert outs[..0] == [];
      while i < |outs|
        invariant 0 <= i <= |outs|
        invariant NotesValid()
        invariant notes.leaves == old(notes.leaves) + outs[..i]
        invariant MarksKept(old(notes.storage), notes.storage)
        invariant marks == old(marks).(commitments := marks.commitments)
        invariant minted == old(minted) + Pairs(asset, outs[..i])
        invariant MarkedBy(old(marks).commitments, marks.commitments, asset, outs[..i], txHash)
        invariant RootsFiled(notes.storage, notes.hs, notes.depth, notes.leaves, |old(notes.leaves)|, txHash)
      {
        ghost var st, leaves := notes.storage, notes.leaves;
        PairsSnoc(asset, outs, i);
        NotYetMarked(old(marks).commitments, marks.commitments, asset, outs, i, txHash);
        MarkedNext(old(marks).commitments, marks.commitments, asset, outs, i, txHash);
        assert outs[..i + 1] == outs[..i] + [outs[i]];
        ok := AppendOutput(asset, outs[i], txHash);
        if !ok {
          return;
        }
        RootsFiledNext(st, notes.storage, notes.hs, notes.depth, leaves, outs[i], |old(notes.leaves)|, txHash);
        i := i + 1;
      }
      assert outs[..|outs|] == outs;
      ok := true;
    }

    /** The nullifier loop: each input is marked for good and for this block. */
    method ConsumeInputs(asset: nat, ns: seq<Digest>, txHash: Word)
      requires MarksInv(marks, spent, tagged, minted) && txHash != ZERO_WORD
      requires AllUnspent(marks, asset, ns) && Distinct(ns)
      modifies this`marks, this`spent
      ensures MarksInv(marks, spent, tagged, minted)
      ensures marks == old(marks).(nullifiers := marks.nullifiers, seen := marks.seen)
      ensures MarkedBy(old(marks).nullifiers, marks.nullifiers, asset, ns, txHash)
      ensures spent == old(spent) + Pairs(asset, ns)
      ensures marks.seen == old(marks).seen + set n | n in ns :: SeenNullifier(asset, n)
    {
      var i := 0;
      assert ns[..0] == [];
      while i < |ns|
        invariant 0 <= i <= |ns|
        invariant MarksInv(marks, spent, tagged, minted)
        invariant marks == old(marks).(nullifiers := marks.nullifiers, seen := marks.seen)
        invariant spent == old(spent) + Pairs(asset, ns[..i])
        invariant marks.seen == old(marks).seen + set n | n in ns[..i] :: SeenNullifier(asset, n)
        invariant MarkedBy(old(marks).nullifiers, marks.nullifiers, asset, ns[..i], txHash)
      {
        NotYetMarked(old(marks).nullifiers, marks.nullifiers, asset, ns, i, txHash);
        MarkedNext(old(marks).nullifiers, marks.nullifiers, asset, ns, i, txHash);
        assert ns[..i + 1] == ns[..i] + [ns[i]];
        ConsumeOne(marks, spent, tagged, minted, asset, ns[i], txHash);
        PairsSnoc(asset, ns, i);
        marks := marks.(nullifiers := marks.nullifiers[(asset, ns[i]) := txHash],
                        seen := marks.seen + {SeenNullifier(asset, ns[i])});
        spent := spent + [(asset, ns[i])];
        i := i + 1;
      }
      assert ns[..|ns|] == ns;
    }

    /** Minting and burning of wrapped tokens. */
    method UpdateSupply(f: L.Flow)
      requires L.InRange(L.SupplyAfter(books, f))
      modifies this`books
      ensures books == old(books).(supply := L.SupplyAfter(old(books), f))
    {
      if f.asset == L.ASSET_PTKM {
        var supply: int := books.supply;
        if f.deposit {
          supply := supply + f.value;
        } else {
          supply := supply - f.withdrawal;
        }
        L.StoredInRange(supply);
        books := books.(supply := L.Stored(supply));
      }
    }

    /** One release: out of the pool, into the receiver's account. */
    method Release(toPool: bool, amount: nat)
      requires amount <= books.pool
      modifies this`books
      ensures books == if toPool then old(books)
                       else old(books).(pool := old(books).pool - amount, outside := old(books).outside + amount)
    {
      if amount > 0 {
        books := books.(pool := books.pool - amount);
        books := if toPool then books.(pool := books.pool + amount) else books.(outside := books.outside + amount);
      }
    }

    /** Supply, ledger, fee burn and releases, before the outer transfer of a deposit. */
    method MoveMoney(f: L.Flow, ledger: L.Totals, txHash: Word)
      requires L.Settles(books, f) && L.InRange(books.supply)
      requires books.active ==> ledger == L.Moved(L.Opened(books, f.asset), f.value, f.withdrawal, f.sponsor)
      modifies this`books, this`feeTickets
      ensures books.outside >= f.value
      ensures books.(pool := books.pool + f.value, outside := books.outside - f.value) == L.Settled(old(books), f)
      ensures feeTickets ==
                if old(books).active && f.prepaid then old(feeTickets)[txHash := f.sponsor] else old(feeTickets)
    {
      UpdateSupply(f);
      var publicSponsor := f.sponsor;
      if books.active {
        books := L.Committed(books, f.asset, ledger);
        if f.prepaid {
          books := books.(pool := books.pool - f.sponsor, burned := books.burned + f.sponsor);
          feeTickets := feeTickets[txHash := f.sponsor];
          publicSponsor := 0;
        }
      }
      Release(f.recipientIsPool, f.withdrawal);
      Release(false, publicSponsor);
    }

    /** The tree still has room for a whole set of outputs. */
    predicate Room()
      reads notes
    {
      ToUint64(Get(notes.storage, Count)) + OUTPUT_SLOTS - 1 < Pow2(notes.depth)
    }

    /** What a validation of `e` would see now. */
    function Seen(e: Envelope): StateView
      reads this, notes
    {
      StateView(books, marks, notes.RootKnown(e.anchor), Room())
    }

    method ValidateState(tx: TxView, e: Envelope, cx: Context) returns (ok: bool)
      requires Shaped(e) && e.withdrawal >= 0 && e.sponsor >= 0
      ensures ok <==> StateOk(Seen(e), tx, e, cx)
    {
      if e.version == V5 {
        ok := ValidateV5(Seen(e), tx, e, cx);
      } else {
        ok := ValidateV4(Seen(e), tx, e, cx);
      }
    }

    /** The per-block duplicate check. */
    method SeenInBlock(e: Envelope, ns: seq<Digest>) returns (hit: bool)
      ensures hit <==> (exists i :: 0 <= i < |ns| && SeenNullifier(Asset(e), ns[i]) in marks.seen)
                       || (e.version != V3 && SeenTag(Asset(e), e.linkTag) in marks.seen)
    {
      for i := 0 to |ns|
        invariant forall j :: 0 <= j < i ==> SeenNullifier(Asset(e), ns[j]) !in marks.seen
      {
        if SeenNullifier(Asset(e), ns[i]) in marks.seen {
          return true;
        }
      }
      return e.version != V3 && SeenTag(Asset(e), e.linkTag) in marks.seen;
    }

    /** Every check of the processors, all of them made before the first mutation. */
    method Decide(tx: TxView, e: Envelope, cx: Context, senderBalance: nat)
      returns (ok: bool, ns: seq<Digest>, ledger: L.Totals)
      requires MarksInv(marks, spent, tagged, minted) && Shaped(e)
      ensures ok <==> Accepts(Seen(e), tx, e, cx, senderBalance)
      ensures ok ==> ns == Inputs(e)
      ensures ok && books.active ==> ledger == L.Moved(L.Opened(books, Asset(e)), tx.value, e.withdrawal, e.sponsor)
    {
      ns, ledger := [], L.NO_TOTALS;
      if tx.value > senderBalance {
        return false, ns, ledger;
      }
      ok := CheckBasics(books.active, tx, e, cx);
      if !ok {
        return;
      }
      ok := ValidateState(tx, e, cx);
      if !ok {
        return;
      }
      var inputs := Nullifiers(e);
      if inputs.Err? {
        return false, ns, ledger;
      }
      ns := inputs.value;
      var hit := SeenInBlock(e, ns);
      if hit {
        UnspentIsUnseen(marks, spent, tagged, minted, e);
        return false, ns, ledger;
      }
      if books.active {
        var transition := L.LedgerTransition(books, Asset(e), tx.value, e.withdrawal, e.sponsor);
        if transition.Err? {
          return false, ns, ledger;
        }
        ledger := transition.value;
      }
      ok := cx.proven;
    }

    /** What an accepted step leaves in the note tree and among the replay marks. */
    method RecordSpend(tx: TxView, e: Envelope, ns: seq<Digest>)
      requires NotesValid() && Shaped(e) && tx.hash != ZERO_WORD
      requires InputsWellFormed(e) && ns == Inputs(e) && AllUnspent(marks, Asset(e), ns)
      requires !e.deposit && e.version != V3 ==>
                 e.linkTag != ZERO_DIGEST && Mark(marks.linkTags, Asset(e), e.linkTag) == ZERO_WORD
      requires AllNew(marks, Asset(e), e.outputs) && Distinct(e.outputs) && Room()
      requires forall i {:trigger e.outputs[i]} :: 0 <= i < |e.outputs| ==> Canonical(e.outputs[i])
      modifies this`marks, this`spent, this`tagged, this`minted, notes
      ensures NotesValid()
      ensures notes.leaves == old(notes.leaves) + e.outputs && MarksKept(old(notes.storage), notes.storage)
      ensures spent == old(spent) + Pairs(Asset(e), ns)
      ensures tagged == old(tagged) + (if e.deposit || e.version == V3 then [] else [(Asset(e), e.linkTag)])
      ensures minted == old(minted) + Pairs(Asset(e), e.outputs)
      ensures SpendMarked(old(marks), marks, Asset(e), e, Inputs(e), tx.hash)
      ensures RootsFiled(notes.storage, notes.hs, notes.depth, notes.leaves, |old(notes.leaves)|, tx.hash)
    {
      var appended := AppendOutputs(Asset(e), e.outputs, tx.hash);
      ConsumeInputs(Asset(e), ns, tx.hash);
      if !e.deposit && e.version != V3 {
        TagOne(marks, spent, tagged, minted, Asset(e), e.linkTag, tx.hash);
        marks := marks.(linkTags := marks.linkTags[(Asset(e), e.linkTag) := tx.hash],
                        seen := marks.seen + {SeenTag(Asset(e), e.linkTag)});
        tagged := tagged + [(Asset(e), e.linkTag)];
      }
    }

    /** What an accepted step does to the books, the outer value transfer included. */
    method SettleBooks(f: L.Flow, ledger: L.Totals, txHash: Word)
      requires MoneyValid() && L.Settles(books, f)
      requires books.active ==> ledger == L.Moved(L.Opened(books, f.asset), f.value, f.withdrawal, f.sponsor)
      modifies this`books, this`feeTickets
      ensures MoneyValid() && books == L.Settled(old(books), f)
      ensures feeTickets ==
                if old(books).active && f.prepaid then old(feeTickets)[txHash := f.sponsor] else old(feeTickets)
    {
      L.SettledKeepsSolvent(books, f);
      L.SettledConserves(books, f);
      MoveMoney(f, ledger, txHash);
      books := books.(pool := books.pool + f.value, outside := books.outside - f.value);
    }

    /**
      processShieldedV3, processShieldedV4 or processShieldedV5, followed by the outer
      value transfer.  A refused transaction leaves no trace.
     */
    method Execute(tx: TxView, e: Envelope, cx: Context, senderBalance: nat) returns (ok: bool)
      requires Valid() && Shaped(e) && tx.hash != ZERO_WORD && senderBalance <= books.outside
      modifies this, notes
      ensures Valid()
      ensures ok <==> old(Accepts(Seen(e), tx, e, cx, senderBalance))
      ensures !ok ==> unchanged(this) && unchanged(notes)
      ensures ok ==> L.Settles(old(books), FlowOf(tx, e, cx)) && books == L.Settled(old(books), FlowOf(tx, e, cx))
      ensures ok ==> notes.leaves == old(notes.leaves) + e.outputs && MarksKept(old(notes.storage), notes.storage)
      ensures ok ==> RootsFiled(notes.storage, notes.hs, notes.depth, notes.leaves, |old(notes.leaves)|, tx.hash)
      ensures ok ==>
                && spent == old(spent) + Pairs(Asset(e), Inputs(e))
                && tagged == old(tagged) + (if e.deposit || e.version == V3 then [] else [(Asset(e), e.linkTag)])
                && minted == old(minted) + Pairs(Asset(e), e.outputs)
      ensures ok ==> SpendMarked(old(marks), marks, Asset(e), e, Inputs(e), tx.hash)
      ensures ok ==>
                feeTickets ==
                  if books.active && e.feeMode == 1 then old(feeTickets)[tx.hash := e.sponsor] else old(feeTickets)
    {
      var ns, ledger;
      ok, ns, ledger := Decide(tx, e, cx, senderBalance);
      if ok {
        AcceptedSettles(Seen(e), tx, e, cx, senderBalance);
        RecordSpend(tx, e, ns);
        SettleBooks(FlowOf(tx, e, cx), ledger, tx.hash);
      }
    }

    /** What a validation sees of the note tree: whether it has had the anchor, and room for all outputs. */
    lemma SeenExactly(e: Envelope)
      requires Valid()
      ensures Seen(e).books == books && Seen(e).marks == marks
      ensures Seen(e).anchorKnown <==> WasRoot(notes.hs, notes.depth, notes.leaves, e.anchor)
      ensures Seen(e).room <==> |notes.leaves| + 4 <= Pow2(notes.depth)
    {
      notes.KnownExactly(e.anchor);
    }

    /** The checks, taken together, accept exactly what the machine takes. */
    lemma TakesExactly(tx: TxView, e: Envelope, cx: Context, senderBalance: nat)
      requires Valid() && Shaped(e) && senderBalance <= books.outside
      ensures Accepts(Seen(e), tx, e, cx, senderBalance)
         <==> Takes(notes.hs, notes.depth, Abstract(), tx, e, cx, senderBalance)
    {
      SeenExactly(e);
      InputsAgree(e);
      if InputsWellFormed(e) {
        FormAgrees(books.active, tx, e, cx);
        if Basics(books.active, tx, e, cx) {
          UnusedAgrees(marks, Abstract(), e);
          FundedAgrees(books, tx, e, cx);
        }
      }
    }

    /**
      An envelope in a block.  It is accepted exactly when the machine takes it, whatever was seen in
      the block before; a spend is accepted only under a root the note tree has had.
     */
    method Step(tx: TxView, e: Envelope, cx: Context, senderBalance: nat) returns (ok: bool)
      requires Valid() && Shaped(e) && tx.hash != ZERO_WORD && senderBalance <= books.outside
      modifies this, notes
      ensures Valid()
      ensures ok <==> Takes(notes.hs, notes.depth, old(Abstract()), tx, e, cx, senderBalance)
      ensures !ok ==> unchanged(this) && unchanged(notes)
      ensures ok ==> Abstract() == Taken(notes.hs, notes.depth, old(Abstract()), tx, e, cx, senderBalance)
      ensures ok && !e.deposit ==> WasRoot(notes.hs, notes.depth, old(notes.leaves), e.anchor)
      ensures ok ==> notes.leaves == old(notes.leaves) + e.outputs && MarksKept(old(notes.storage), notes.storage)
      ensures ok ==> RootsFiled(notes.storage, notes.hs, notes.depth, notes.leaves, |old(notes.leaves)|, tx.hash)
      ensures ok ==> SpendMarked(old(marks), marks, AssetKey(e), e, InputsOf(e), tx.hash)
      ensures ok ==> forall n :: n in InputsOf(e) ==>
                Mark(marks.nullifiers, AssetKey(e), n) == tx.hash && SeenNullifier(AssetKey(e), n) in marks.seen
      ensures ok ==> forall c :: c in e.outputs ==> Mark(marks.commitments, AssetKey(e), c) == tx.hash
      ensures ok && !e.deposit && e.version != V3 ==>
                Mark(marks.linkTags, AssetKey(e), e.linkTag) == tx.hash && SeenTag(AssetKey(e), e.linkTag) in marks.seen
      ensures ok ==>
                feeTickets ==
                  if books.active && e.feeMode == 1 then old(feeTickets)[tx.hash := e.sponsor] else old(feeTickets)
      ensures ok ==> L.Settles(old(books), FlowOf(tx, e, cx)) && books == L.Settled(old(books), FlowOf(tx, e, cx))
    {
      TakesExactly(tx, e, cx, senderBalance);
      SeenExactly(e);
      ok := Execute(tx, e, cx, senderBalance);
      if ok {
        InputsAgree(e);
        FormAgrees(old(books).active, tx, e, cx);
        FundedAgrees(old(books), tx, e, cx);
        PaidAgrees(old(books), tx, e, cx);
      }
    }

    /** Any movement of the shared account other than an envelope. */
    method Move(s: R.Step) returns (ok: bool)
      requires MoneyValid() && !s.Spend?
      modifies this`books
      ensures MoneyValid() && books == R.Apply(old(books), s)
      ensures s.Fork? ==> books == old(books).(active := true)
      ensures s.Elsewhere? && old(books.pool) + s.gift + s.outside < L.TWO256 ==>
                books == old(books).(pool := old(books.pool) + s.gift, outside := s.outside)
    {
      R.StepKeepsSolvent(books, s);
      match s
      case Migration(w) =>
        if 0 < w < 0x1_0000_0000_0000_0000 {
          ok, books := L.Migrate(books, w);
        } else {
          ok := false;
        }
      case Boundary(d, w, toPool) =>
        ok, books := R.Cross(books, d, w, toPool);
      case Bond(v) =>
        ok, books := R.RegisterValidator(books, v);
      case Unbond(v) =>
        ok, books := R.WithdrawBond(books, v);
      case Slash(v) =>
        ok, books := R.SlashBond(books, v);
      case Elsewhere(outside, gift) =>
        ok := books.pool + gift + outside < L.TWO256;
        if ok {
          books := books.(pool := books.pool + gift, outside := outside);
        }
      case Fork =>
        books := books.(active := true);
        ok := true;
    }

    /** One event of a run; `moved` names the movement of money it made, if any. */
    method Take(step: PoolStep) returns (ghost moved: seq<R.Step>)
      requires Valid()
      requires step.Submit? ==> Shaped(step.e) && step.tx.hash != ZERO_WORD
      requires step.Other? ==> !step.step.Spend?
      modifies this, notes
      ensures Valid()
      ensures old(spent) <= spent && old(tagged) <= tagged && old(minted) <= minted
      ensures old(notes.leaves) <= notes.leaves && MarksKept(old(notes.storage), notes.storage)
      ensures Abstract() == Next(notes.hs, notes.depth, old(Abstract()), step)
      ensures step.NewBlock? ==> marks == old(marks).(seen := {})
      ensures |moved| <= 1 && books == if moved == [] then old(books) else R.Apply(old(books), moved[0])
    {
      moved := [];
      match step
      case NewBlock =>
        StartBlock();
      case Submit(tx, e, cx, balance) =>
        if balance <= books.outside {
          var ok := Step(tx, e, cx, balance);
          if ok {
            moved := [R.Spend(FlowOf(tx, e, cx))];
          }
        }
      case Other(s) =>
        var ok := Move(s);
        moved := [s];
    }

    /**
      Any number of blocks with any interleaving of envelopes and other movements: no input, tag
      or commitment pair is ever used twice, earlier anchors stay known, every minted commitment
      is in the note tree, and the books are those of the ledger run `moves`.
     */
    method Run(steps: seq<PoolStep>) returns (ghost moves: seq<R.Step>)
      requires Valid()
      requires forall s :: s in steps && s.Submit? ==> Shaped(s.e) && s.tx.hash != ZERO_WORD
      requires forall s :: s in steps && s.Other? ==> !s.step.Spend?
      modifies this, notes
      ensures Valid()
      ensures Distinct(spent) && Distinct(tagged) && Distinct(minted)
      ensures old(spent) <= spent && old(tagged) <= tagged && old(minted) <= minted
      ensures old(notes.leaves) <= notes.leaves && MarksKept(old(notes.storage), notes.storage)
      ensures Abstract() == After(notes.hs, notes.depth, old(Abstract()), steps)
      ensures books == R.After(old(books), moves)
      ensures books.native.initialized || books.wrapped.initialized ==> books.pool >= books.supply
      ensures old(R.ReserveCovered(books)) && R.EachStep(R.Careful, old(books), moves) ==> books.pool >= books.supply
    {
      moves := [];
      assert steps[..0] == [];
      for i := 0 to |steps|
        invariant Valid()
        invariant old(spent) <= spent && old(tagged) <= tagged && old(minted) <= minted
        invariant old(notes.leaves) <= notes.leaves && MarksKept(old(notes.storage), notes.storage)
        invariant Abstract() == After(notes.hs, notes.depth, old(Abstract()), steps[..i])
        invariant books == R.After(old(books), moves)
      {
        assert steps[..i + 1][..i] == steps[..i];
        ghost var moved := Take(steps[i]);
        if moved != [] {
          R.AfterSnoc(old(books), moves, moved[0]);
          moves := moves + [moved[0]];
        }
      }
      assert steps[..|steps|] == steps;
      R.RunBacksWrapped(old(books), moves);
    }

    /** ShieldedV3CommitmentPath: every minted commitment can be opened against the current root, and only so. */
    method NotePath(c: Digest) returns (r: Checked<TreePath>)
      requires Valid()
      ensures r.Ok? && (r.value.found <==> exists asset :: (asset, c) in minted)
      ensures r.value.found ==>
                && |r.value.path| == notes.depth
                && r.value.root == Root(notes.hs, notes.depth, notes.leaves) && notes.RootKnown(r.value.root)
                && Climb(notes.hs, c, r.value.index, r.value.path, notes.depth) == r.value.root
                && OpensOnly(notes.hs, notes.depth, notes.leaves, r.value.index, r.value.path)
    {
      r := notes.Path(c);
      MintedIsFiled(minted, c);
    }

    /** Whatever a proof opens under an accepted anchor is a minted commitment, short of a collision. */
    lemma AnchorOpensMinted(anchor: Digest, c: Digest, i: nat, path: seq<Digest>)
      requires Valid() && notes.RootKnown(anchor) && c != ZERO_DIGEST
      requires |path| == notes.depth && i < Pow2(notes.depth) && Climb(notes.hs, c, i, path, notes.depth) == anchor
      ensures (exists asset :: (asset, c) in minted) ||
              exists k :: 0 < k <= |notes.leaves| && Root(notes.hs, notes.depth, notes.leaves[..k]) == anchor
                          && Collides(notes.hs, notes.leaves[..k], c, i, path, notes.depth)
    {
      var k := notes.AnchorBinds(anchor, c, i, path);
      MintedIsFiled(minted, c);
    }
  }
}
