/**
  What the shielded pool is for, said without trees, storage slots or validation order: a
  machine whose state is the money and three histories.  `ShieldedPool` proves that the
  processors run exactly this machine.
 */
module PoolModel {
  import opened Common
  import opened MerkleSpec
  import opened SparseTree
  import opened Sequences
  import L = ConfidentialLedger
  import R = LedgerRuns

  const INPUT_SLOTS: nat := 4
  const SHIELD5_INPUT_SLOTS: nat := 16
  const OUTPUT_SLOTS: nat := 4
  const MAX_SEND_WEI: nat := 5_000_000 * 1_000_000_000_000_000_000

  // ----- what arrives

  datatype Version = V3 | V4 | V5

  datatype Envelope = Envelope(
    version: Version, deposit: bool, anchor: Digest,
    nullifier: Digest, additional: seq<Digest>, additionalV5: seq<Digest>, inputCount: nat,
    stampRoot: Digest, linkTag: Digest, outputs: seq<Digest>,
    recipient: nat, withdrawal: int, sponsor: int, assetId: nat, feeMode: nat)

  /** The array lengths the envelope types fix. */
  predicate Shaped(e: Envelope) {
    && |e.additional| == INPUT_SLOTS - 1 && |e.outputs| == OUTPUT_SLOTS
    && |e.additionalV5| == (if e.version == V5 then SHIELD5_INPUT_SLOTS - INPUT_SLOTS else 0)
  }

  datatype TxView = TxView(hash: Word, value: nat, gas: nat, feeCap: nat, tipCap: nat)

  /**
    Answers from code that is not modelled: activation, signatures, ciphertexts and relay rules
    (`admitted`), the proof (`proven`), and the registry lookups.
   */
  datatype Context = Context(admitted: bool, proven: bool, codeFree: bool,
                             stampRootKnown: bool, recipientStamped: bool, pool: nat)

  /** Envelopes in blocks, interleaved with every other movement of the shared account. */
  datatype PoolStep =
    | NewBlock
    | Submit(tx: TxView, e: Envelope, cx: Context, senderBalance: nat)
    | Other(step: R.Step)

  // ----- the state

  type History = seq<(nat, Digest)>

  /** The money, and every (asset, nullifier), (asset, link tag) and (asset, commitment) pair ever used, in order. */
  datatype Model = Model(books: L.Books, spent: History, tagged: History, minted: History)

  function Pairs(asset: nat, ds: seq<Digest>): (r: History)
    ensures |r| == |ds|
  {
    seq(|ds|, i requires 0 <= i < |ds| => (asset, ds[i]))
  }

  ghost function Commitments(minted: History): seq<Digest> {
    seq(|minted|, i requires 0 <= i < |minted| => minted[i].1)
  }

  // ----- when an envelope is well formed

  /** Asset ids 0 and 1 both name the native coin, 2 names pTKM. */
  ghost predicate Wrapped(e: Envelope) {
    e.assetId == 2
  }

  ghost function AssetKey(e: Envelope): nat {
    if Wrapped(e) then 2 else 1
  }

  /** The inputs an envelope declares: its first slots, one if a private spend declares none. */
  ghost function Declared(e: Envelope): nat {
    if e.inputCount == 0 && !e.deposit then 1 else e.inputCount
  }

  ghost function InputsOf(e: Envelope): seq<Digest>
    requires Declared(e) <= 1 + |e.additional| + |e.additionalV5|
  {
    ([e.nullifier] + e.additional + e.additionalV5)[..Declared(e)]
  }

  /** Distinct canonical digests, none of them zero. */
  ghost predicate Proper(ds: seq<Digest>) {
    Distinct(ds) && forall d :: d in ds ==> d != ZERO_DIGEST && Canonical(d)
  }

  /** The declared slots are proper and all others empty; exactly a deposit declares none. */
  ghost predicate InputsInOrder(e: Envelope) {
    && Declared(e) <= 1 + |e.additional| + |e.additionalV5|
    && Proper(InputsOf(e)) && (e.deposit <==> InputsOf(e) == [])
    && (forall d :: d in ([e.nullifier] + e.additional + e.additionalV5)[Declared(e)..] ==> d == ZERO_DIGEST)
  }

  /** A deposit brings money in and touches no earlier note. */
  ghost predicate DepositInOrder(tx: TxView, e: Envelope) {
    && 0 < tx.value <= 5_000_000_000_000_000_000_000_000
    && e.withdrawal == 0 && e.recipient == 0 && e.sponsor == 0 && e.feeMode == 0
    && e.anchor == ZERO_DIGEST && (e.version == V3 || e.linkTag == ZERO_DIGEST)
  }

  /** A private spend names an anchor and pays its fee as the ledger fork prescribes. */
  ghost predicate SpendInOrder(active: bool, tx: TxView, e: Envelope) {
    && tx.value == 0
    && 0 <= e.withdrawal <= 5_000_000_000_000_000_000_000_000 && (e.withdrawal == 0 <==> e.recipient == 0)
    && e.anchor != ZERO_DIGEST && (e.version == V3 || e.linkTag != ZERO_DIGEST)
    && (if e.feeMode == 1 then
          && active && !Wrapped(e) && tx.gas == 7_000_000 && tx.tipCap == tx.feeCap > 0
          && e.sponsor == tx.gas * tx.feeCap && e.sponsor < L.TWO256
        else
          && e.feeMode == 0 && 0 <= e.sponsor <= tx.gas * tx.feeCap
          && (active || Wrapped(e) ==> e.sponsor == 0))
  }

  ghost predicate WellFormed(active: bool, tx: TxView, e: Envelope, cx: Context) {
    && cx.admitted && e.assetId <= 2 && InputsInOrder(e) && Proper(e.outputs)
    && (if e.deposit then DepositInOrder(tx, e) else SpendInOrder(active, tx, e))
  }

  // ----- when the state takes it

  /** No input, tag or output was used before under this asset. */
  ghost predicate Unused(m: Model, e: Envelope)
    requires InputsInOrder(e)
  {
    && (forall n :: n in InputsOf(e) ==> (AssetKey(e), n) !in m.spent)
    && (forall c :: c in e.outputs ==> (AssetKey(e), c) !in m.minted)
    && (e.deposit || e.version == V3 || (AssetKey(e), e.linkTag) !in m.tagged)
  }

  /** A spend refers to a root the note tree has had, and the tree has room for all outputs. */
  ghost predicate Anchored(hs: Hasher<Digest>, depth: nat, m: Model, e: Envelope) {
    && (e.deposit || WasRoot(hs, depth, Commitments(m.minted), e.anchor))
    && |m.minted| + 4 <= Pow2(depth)
  }

  /** The registry roots and recipients an envelope relies on are known. */
  ghost predicate Registered(e: Envelope, cx: Context) {
    && cx.codeFree && cx.stampRootKnown && e.stampRoot != ZERO_DIGEST && (e.withdrawal > 0 ==> cx.recipientStamped)
  }

  /** Money in the account that no bond and no wrapped token claims. */
  ghost function Free(b: L.Books): int {
    b.pool - L.Sum(b.stakes) - b.supply
  }

  /** After the fork: no liability is short, and the asset's ledger can record the movement. */
  ghost predicate Recordable(b: L.Books, tx: TxView, e: Envelope) {
    var l := if Wrapped(e) then b.wrapped else b.native;
    var backing := if l.initialized then l.backing else if Wrapped(e) then b.supply else Free(b);
    && 0 <= Free(b)
    && 0 <= backing + tx.value - e.withdrawal - e.sponsor < L.TWO256
    && l.deposited + tx.value < L.TWO256 && l.withdrawn + e.withdrawal < L.TWO256 && l.fees + e.sponsor < L.TWO256
  }

  /** The account can pay, and a native envelope leaves the backing of wrapped tokens alone. */
  ghost predicate Funded(b: L.Books, tx: TxView, e: Envelope) {
    && (Wrapped(e) ==> b.supply <= b.pool && 0 <= b.supply + tx.value - e.withdrawal < L.TWO256)
    && (e.withdrawal + e.sponsor > 0 ==> e.withdrawal + e.sponsor + (if Wrapped(e) then 0 else b.supply) <= b.pool)
    && (b.active ==> Recordable(b, tx, e))
  }

  /** When the machine takes an envelope. */
  ghost predicate Takes(hs: Hasher<Digest>, depth: nat, m: Model, tx: TxView, e: Envelope, cx: Context,
                        senderBalance: nat)
  {
    && WellFormed(m.books.active, tx, e, cx)
    && Unused(m, e) && Anchored(hs, depth, m, e) && Registered(e, cx) && Funded(m.books, tx, e)
    && cx.proven && tx.value <= senderBalance <= m.books.outside
  }

  // ----- what it does then

  /** The asset's totals after the movement; the first one opens the ledger on what backs the asset. */
  ghost function Recorded(b: L.Books, tx: TxView, e: Envelope): L.Totals
    requires e.withdrawal >= 0 && e.sponsor >= 0 && Recordable(b, tx, e)
  {
    var l := if Wrapped(e) then b.wrapped else b.native;
    var start := if Wrapped(e) then b.supply else Free(b);
    L.Totals(if l.initialized then l.opening else start,
             l.deposited + tx.value, l.withdrawn + e.withdrawal, l.fees + e.sponsor,
             (if l.initialized then l.backing else start) + tx.value - e.withdrawal - e.sponsor, true)
  }

  /** A deposit moves from outside into the pool; withdrawal and sponsorship move out; a prepaid fee is burned. */
  ghost function Paid(b: L.Books, tx: TxView, e: Envelope, cx: Context): L.Books
    requires e.withdrawal >= 0 && e.sponsor >= 0 && Funded(b, tx, e) && tx.value <= b.outside
  {
    var burned := if e.feeMode == 1 then e.sponsor else 0;
    var out := e.sponsor - burned + (if e.recipient == cx.pool then 0 else e.withdrawal);
    b.(pool := b.pool + tx.value - out - burned,
       outside := b.outside - tx.value + out,
       burned := b.burned + burned,
       supply := if Wrapped(e) then b.supply + tx.value - e.withdrawal else b.supply,
       native := if b.active && !Wrapped(e) then Recorded(b, tx, e) else b.native,
       wrapped := if b.active && Wrapped(e) then Recorded(b, tx, e) else b.wrapped)
  }

  ghost function Taken(hs: Hasher<Digest>, depth: nat, m: Model, tx: TxView, e: Envelope, cx: Context,
                       senderBalance: nat): Model
    requires Takes(hs, depth, m, tx, e, cx, senderBalance)
  {
    Model(Paid(m.books, tx, e, cx),
          m.spent + Pairs(AssetKey(e), InputsOf(e)),
          m.tagged + (if e.deposit || e.version == V3 then [] else [(AssetKey(e), e.linkTag)]),
          m.minted + Pairs(AssetKey(e), e.outputs))
  }

  /** One step of the machine.  Block boundaries do not matter to it. */
  ghost function Next(hs: Hasher<Digest>, depth: nat, m: Model, s: PoolStep): Model {
    match s
    case NewBlock => m
    case Submit(tx, e, cx, balance) =>
      if Takes(hs, depth, m, tx, e, cx, balance) then Taken(hs, depth, m, tx, e, cx, balance) else m
    case Other(step) => m.(books := R.Apply(m.books, step))
  }

  ghost function After(hs: Hasher<Digest>, depth: nat, m: Model, steps: seq<PoolStep>): Model {
    if steps == [] then m else Next(hs, depth, After(hs, depth, m, steps[..|steps| - 1]), steps[|steps| - 1])
  }

  /** A run is its steps, taken one after another. */
  lemma AfterSnoc(hs: Hasher<Digest>, depth: nat, m: Model, steps: seq<PoolStep>, s: PoolStep)
    ensures After(hs, depth, m, []) == m
    ensures After(hs, depth, m, steps + [s]) == Next(hs, depth, After(hs, depth, m, steps), s)
  {
    assert (steps + [s])[..|steps|] == steps;
  }

  /** A spent input is spent for good: no envelope that names it is taken after any further run. */
  lemma {:induction false} NeverTwice(hs: Hasher<Digest>, depth: nat, m: Model, steps: seq<PoolStep>,
                                      tx: TxView, e: Envelope, cx: Context, balance: nat, n: Digest)
    requires InputsInOrder(e) && n in InputsOf(e) && (AssetKey(e), n) in m.spent
    ensures !Takes(hs, depth, After(hs, depth, m, steps), tx, e, cx, balance)
    ensures (AssetKey(e), n) in After(hs, depth, m, steps).spent
  {
    if steps != [] {
      NeverTwice(hs, depth, m, steps[..|steps| - 1], tx, e, cx, balance, n);
    }
  }
}
