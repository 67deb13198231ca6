/**
  The money of the shielded pool: one account balance that backs private notes,
  wrapped tokens (pTKM) and validator bonds, and the running ledger of each asset.
 */
module ConfidentialLedger {
  import opened Common

  const TWO256: nat := 0x1_0000000000000000_0000000000000000_0000000000000000_0000000000000000
  const ASSET_TKM: nat := 1
  const ASSET_PTKM: nat := 2
  const PREPAID_GAS: nat := 7_000_000

  /** ConfidentialLedgerTotals. */
  datatype Totals = Totals(opening: nat, deposited: nat, withdrawn: nat, fees: nat, backing: nat, initialized: bool)

  const NO_TOTALS := Totals(0, 0, 0, 0, 0, false)

  /**
    `outside` sums the balances of all accounts but the pool's, `burned` the prepaid fees
    destroyed so far and `forfeited` the registration fees and slashed bonds; together with
    the pool they make every transfer visible.
   */
  datatype Books = Books(pool: nat, outside: nat, burned: nat, forfeited: nat, stakes: seq<int>, supply: nat,
                         native: Totals, wrapped: Totals, active: bool)

  datatype Error =
    | LiabilitiesExceedBacking | InvalidReserve | NativeShortfall | Shortfall | InvalidValue | OverdrawOrOverflow

  /** A word of storage keeps the absolute value, cut to 256 bits. */
  function Stored(x: int): nat {
    (if x < 0 then -x else x) % TWO256
  }

  predicate InRange(x: int) {
    0 <= x < TWO256
  }

  lemma StoredInRange(x: int)
    requires InRange(x)
    ensures Stored(x) == x
  {
  }

  // ----- reserves

  function Sum(s: seq<int>): int {
    if s == [] then 0 else Sum(s[..|s| - 1]) + s[|s| - 1]
  }

  predicate StakesOk(stakes: seq<int>) {
    forall i :: 0 <= i < |stakes| ==> InRange(stakes[i])
  }

  lemma {:induction false} SumNonNegative(s: seq<int>)
    requires StakesOk(s)
    ensures Sum(s) >= 0
  {
    if s != [] {
      assert StakesOk(s[..|s| - 1]);
      SumNonNegative(s[..|s| - 1]);
    }
  }

  /** What the pool holds beyond bonds and wrapped tokens. */
  ghost function Excess(b: Books): int {
    b.pool - Sum(b.stakes) - b.supply
  }

  /** confidentialNativeReserve. */
  method NativeReserve(b: Books) returns (r: Result<nat, Error>)
    ensures r.Ok? <==> StakesOk(b.stakes) && b.pool - Sum(b.stakes) - b.supply >= 0
    ensures r.Ok? ==> r.value == b.pool - Sum(b.stakes) - b.supply
    ensures r.Err? ==> r.error == if StakesOk(b.stakes) then LiabilitiesExceedBacking else InvalidReserve
  {
    var reserve: int := b.pool;
    for i := 0 to |b.stakes|
      invariant forall j :: 0 <= j < i ==> InRange(b.stakes[j])
      invariant reserve == b.pool - Sum(b.stakes[..i])
    {
      if b.stakes[i] < 0 || b.stakes[i] >= TWO256 {
        return Err(InvalidReserve);
      }
      assert b.stakes[..i + 1][..i] == b.stakes[..i];
      reserve := reserve - b.stakes[i];
    }
    assert b.stakes[..|b.stakes|] == b.stakes;
    reserve := reserve - b.supply;
    if reserve < 0 {
      return Err(LiabilitiesExceedBacking);
    }
    return Ok(reserve);
  }

  /** shieldedV3SpendablePoolReserve: native releases may not touch what backs wrapped tokens. */
  function Spendable(b: Books, asset: nat): nat {
    if asset == ASSET_PTKM then b.pool else if b.pool <= b.supply then 0 else b.pool - b.supply
  }

  function LedgerOf(b: Books, asset: nat): Totals {
    if asset == ASSET_PTKM then b.wrapped else b.native
  }

  // ----- the transition

  /** The reserve an asset's ledger is measured against. */
  ghost function ReserveFor(b: Books, asset: nat): int {
    if asset == ASSET_PTKM then b.supply else Excess(b)
  }

  /** The ledger the transition starts from: the stored one, or one opened on today's reserve. */
  ghost function Opened(b: Books, asset: nat): Totals
    requires ReserveFor(b, asset) >= 0
  {
    var l := LedgerOf(b, asset);
    if l.initialized then l
    else l.(opening := ReserveFor(b, asset), backing := ReserveFor(b, asset), initialized := true)
  }

  /** No liability of the pool is short of its backing. */
  ghost predicate Covered(b: Books, asset: nat) {
    && StakesOk(b.stakes) && Excess(b) >= 0
    && (b.native.initialized ==> Excess(b) >= b.native.backing)
    && ReserveFor(b, asset) >= Opened(b, asset).backing
  }

  ghost predicate Fits(l: Totals, deposit: int, withdrawal: int, fee: int) {
    && InRange(deposit) && InRange(withdrawal) && InRange(fee)
    && InRange(l.deposited + deposit) && InRange(l.withdrawn + withdrawal) && InRange(l.fees + fee)
    && InRange(l.backing + deposit - withdrawal - fee)
  }

  ghost function Moved(l: Totals, deposit: int, withdrawal: int, fee: int): Totals
    requires Fits(l, deposit, withdrawal, fee)
  {
    Totals(l.opening, l.deposited + deposit, l.withdrawn + withdrawal, l.fees + fee,
           l.backing + deposit - withdrawal - fee, l.initialized)
  }

  /** ledgerTransition: computed before any mutation, so a refusal costs nothing. */
  method LedgerTransition(b: Books, asset: nat, deposit: int, withdrawal: int, fee: int)
    returns (r: Result<Totals, Error>)
    ensures r.Ok? <==> Covered(b, asset) && Fits(Opened(b, asset), deposit, withdrawal, fee)
    ensures r.Ok? ==> r.value == Moved(Opened(b, asset), deposit, withdrawal, fee)
    ensures r == Err(InvalidReserve) <==> !StakesOk(b.stakes)
    ensures r == Err(LiabilitiesExceedBacking) <==> StakesOk(b.stakes) && b.pool - Sum(b.stakes) - b.supply < 0
    ensures r == Err(NativeShortfall) <==>
              && StakesOk(b.stakes) && 0 <= b.pool - Sum(b.stakes) - b.supply
              && b.native.initialized && b.pool - Sum(b.stakes) - b.supply < b.native.backing
    ensures r == Err(Shortfall) ==> asset == ASSET_PTKM && b.wrapped.initialized && b.supply < b.wrapped.backing
    ensures r.Ok? && asset == ASSET_PTKM && b.wrapped.initialized ==> b.wrapped.backing <= b.supply
    ensures r == Err(InvalidValue) ==> !InRange(deposit) || !InRange(withdrawal) || !InRange(fee)
    ensures r.Ok? || r == Err(OverdrawOrOverflow) ==> InRange(deposit) && InRange(withdrawal) && InRange(fee)
    ensures r.Err? ==> (r.error in {InvalidValue, OverdrawOrOverflow} <==> Covered(b, asset))
    ensures r.Ok? && asset == ASSET_PTKM ==>
              r.value.opening == if b.wrapped.initialized then b.wrapped.opening else b.supply
    ensures r.Ok? && asset != ASSET_PTKM ==>
              r.value.opening == if b.native.initialized then b.native.opening else b.pool - Sum(b.stakes) - b.supply
    ensures r.Ok? ==>
              var l := if asset == ASSET_PTKM then b.wrapped else b.native;
              && r.value.deposited == l.deposited + deposit && r.value.withdrawn == l.withdrawn + withdrawal
              && r.value.fees == l.fees + fee && r.value.initialized
              && r.value.backing - deposit + withdrawal + fee == if l.initialized then l.backing else r.value.opening
  {
    var l := LedgerOf(b, asset);
    var native := NativeReserve(b);
    if native.Err? {
      return Err(native.error);
    }
    var reserve := native.value;
    if b.native.initialized && reserve < b.native.backing {
      return Err(NativeShortfall);
    }
    if asset == ASSET_PTKM {
      reserve := b.supply;
    }
    var opening, backing := l.opening, l.backing;
    if !l.initialized {
      opening, backing := reserve, reserve;
    }
    if reserve < backing {
      return Err(Shortfall);
    }
    var values := [deposit, withdrawal, fee];
    for i := 0 to 3
      invariant forall j :: 0 <= j < i ==> InRange(values[j])
    {
      if values[i] < 0 || values[i] >= TWO256 {
        assert !InRange(values[i]);
        return Err(InvalidValue);
      }
    }
    assert InRange(values[0]) && InRange(values[1]) && InRange(values[2]);
    var deposited, withdrawn, fees := l.deposited + deposit, l.withdrawn + withdrawal, l.fees + fee;
    var moved: int := backing + deposit;
    moved := moved - withdrawal;
    moved := moved - fee;
    if deposited >= TWO256 || withdrawn >= TWO256 || fees >= TWO256 || moved < 0 || moved >= TWO256 {
      return Err(OverdrawOrOverflow);
    }
    return Ok(Totals(opening, deposited, withdrawn, fees, moved, true));
  }

  /** commitLedger. */
  function Committed(b: Books, asset: nat, l: Totals): Books {
    var kept := Totals(Stored(l.opening), Stored(l.deposited), Stored(l.withdrawn), Stored(l.fees),
                       Stored(l.backing), true);
    if asset == ASSET_PTKM then b.(wrapped := kept) else b.(native := kept)
  }

  // ----- what the books promise

  /** A ledger's backing is what was opened and deposited minus what was withdrawn and burned. */
  ghost predicate Balanced(l: Totals) {
    && InRange(l.opening) && InRange(l.deposited) && InRange(l.withdrawn) && InRange(l.fees) && InRange(l.backing)
    && (l.initialized ==> l.backing == l.opening + l.deposited - l.withdrawn - l.fees)
    && (!l.initialized ==> l == NO_TOTALS)
  }

  /** The solvency promise once a ledger is open. */
  ghost predicate Solvent(b: Books) {
    && Balanced(b.native) && Balanced(b.wrapped)
    && InRange(b.pool) && InRange(b.supply)
    && StakesOk(b.stakes)
    && (b.native.initialized || b.wrapped.initialized ==>
          b.active && Excess(b) >= if b.native.initialized then b.native.backing else 0)
    && (b.wrapped.initialized ==> b.wrapped.backing == b.supply)
  }

  /**
    What the native ledger takes in a solvent state, said without it: a spend is limited by the
    recorded backing, or on the first use by all the money that no bond and no wrapped token claims.
   */
  lemma NativeTakes(b: Books, deposit: nat, withdrawal: nat, fee: nat)
    requires Solvent(b) && deposit < TWO256 && withdrawal < TWO256 && fee < TWO256
    requires 0 <= b.pool - Sum(b.stakes) - b.supply
    ensures var free := if b.native.initialized then b.native.backing else b.pool - Sum(b.stakes) - b.supply;
            Covered(b, ASSET_TKM) && Fits(Opened(b, ASSET_TKM), deposit, withdrawal, fee) <==>
              && withdrawal + fee <= free + deposit < TWO256 + withdrawal + fee
              && b.native.deposited + deposit < TWO256 && b.native.withdrawn + withdrawal < TWO256
              && b.native.fees + fee < TWO256
  {
    SumNonNegative(b.stakes);
  }

  /** So notes from before the fork stay spendable: the first withdrawal is taken exactly within the free reserve. */
  lemma FirstWithdrawalTaken(b: Books, withdrawal: nat, fee: nat)
    requires Solvent(b) && !b.native.initialized
    requires 0 <= b.pool - Sum(b.stakes) - b.supply < TWO256
    ensures Covered(b, ASSET_TKM) && Fits(Opened(b, ASSET_TKM), 0, withdrawal, fee) <==>
              withdrawal + fee <= b.pool - Sum(b.stakes) - b.supply
  {
    if withdrawal < TWO256 && fee < TWO256 {
      NativeTakes(b, 0, withdrawal, fee);
    }
  }

  /** The wrapped ledger is limited by the supply alone, open or not, as long as no liability is short. */
  lemma WrappedTakes(b: Books, deposit: nat, withdrawal: nat)
    requires Solvent(b) && deposit < TWO256 && withdrawal < TWO256
    requires 0 <= b.pool - Sum(b.stakes) - b.supply
    ensures Covered(b, ASSET_PTKM) && Fits(Opened(b, ASSET_PTKM), deposit, withdrawal, 0) <==>
              && withdrawal <= b.supply + deposit < TWO256 + withdrawal
              && b.wrapped.deposited + deposit < TWO256 && b.wrapped.withdrawn + withdrawal < TWO256
  {
  }

  /** Once a ledger is open, no call is ever refused for lack of backing. */
  lemma NeverShort(b: Books, asset: nat)
    requires Solvent(b) && (b.native.initialized || b.wrapped.initialized)
    ensures Covered(b, asset)
  {
  }

  // ----- flows

  /**
    The public money movement of one accepted spend envelope: the deposit carried by the
    outer transaction, the withdrawal and the gas sponsorship or prepaid fee.
   */
  datatype Flow = Flow(asset: nat, deposit: bool, value: nat, withdrawal: nat, sponsor: nat, prepaid: bool,
                       recipientIsPool: bool)

  /** The shape rules every envelope version enforces before state is looked at. */
  predicate FlowShape(f: Flow, active: bool) {
    && (f.asset == ASSET_TKM || f.asset == ASSET_PTKM)
    && (if f.deposit then f.value > 0 && f.withdrawal == 0 && f.sponsor == 0 else f.value == 0)
    && (f.asset == ASSET_PTKM ==> f.sponsor == 0)
    && (f.prepaid ==> active && !f.deposit && f.asset == ASSET_TKM)
    && (active && !f.prepaid ==> f.sponsor == 0)
  }

  /** The reserve rules of validateShieldedV3State and its successors. */
  ghost predicate ReserveRules(b: Books, f: Flow) {
    && (f.asset == ASSET_PTKM ==>
          && b.pool >= b.supply
          && (if f.deposit then b.supply + f.value < TWO256 else b.supply >= f.withdrawal))
    && f.withdrawal + f.sponsor < TWO256 && Spendable(b, f.asset) >= f.withdrawal + f.sponsor
  }

  /** The reserve checks at the end of validateShieldedV3State and its successors. */
  method CheckReserve(b: Books, f: Flow) returns (ok: bool)
    ensures ok <==> ReserveRules(b, f)
  {
    if f.asset == ASSET_PTKM {
      if b.pool < b.supply {
        return false;
      }
      if f.deposit {
        if b.supply + f.value >= TWO256 {
          return false;
        }
      } else if b.supply < f.withdrawal {
        return false;
      }
    }
    var release := f.withdrawal + f.sponsor;
    return release < TWO256 && Spendable(b, f.asset) >= release;
  }

  /** Everything that must hold for the step, including the outer value transfer, to complete. */
  ghost predicate Settles(b: Books, f: Flow) {
    && FlowShape(f, b.active) && ReserveRules(b, f)
    && f.value <= b.outside && b.pool + f.value < TWO256
    && (b.active ==> Covered(b, f.asset) && Fits(Opened(b, f.asset), f.value, f.withdrawal, f.sponsor))
  }

  ghost function SupplyAfter(b: Books, f: Flow): int {
    if f.asset != ASSET_PTKM then b.supply else if f.deposit then b.supply + f.value else b.supply - f.withdrawal
  }

  /** Money that leaves the pool account: released to others, or burned as a prepaid fee. */
  ghost function Released(f: Flow): nat {
    (if f.recipientIsPool then 0 else f.withdrawal) + (if f.prepaid then 0 else f.sponsor)
  }

  ghost function BurnedBy(f: Flow): nat {
    if f.prepaid then f.sponsor else 0
  }

  /** The books after the step. */
  ghost function Settled(b: Books, f: Flow): Books
    requires Settles(b, f)
  {
    var ledger :=
      if b.active then Committed(b, f.asset, Moved(Opened(b, f.asset), f.value, f.withdrawal, f.sponsor)) else b;
    ledger.(supply := SupplyAfter(b, f),
            pool := b.pool + f.value - Released(f) - BurnedBy(f),
            outside := b.outside - f.value + Released(f),
            burned := b.burned + BurnedBy(f))
  }

  /** No money appears or vanishes except the fee that is burned on record. */
  lemma SettledConserves(b: Books, f: Flow)
    requires Settles(b, f)
    ensures var b' := Settled(b, f);
            b'.pool + b'.outside + b'.burned == b.pool + b.outside + b.burned
  {
  }

  /** A completed step keeps the wrapped tokens backed, before and after the ledger fork. */
  lemma SettledKeepsWrapped(b: Books, f: Flow)
    requires Settles(b, f) && b.pool >= b.supply
    ensures Settled(b, f).pool >= Settled(b, f).supply
  {
  }

  ghost predicate AllInRange(l: Totals) {
    InRange(l.opening) && InRange(l.deposited) && InRange(l.withdrawn) && InRange(l.fees) && InRange(l.backing)
  }

  /** In range, the ledger words hold the totals themselves. */
  lemma CommitExact(b: Books, asset: nat, l: Totals)
    requires AllInRange(l) && l.initialized
    ensures Committed(b, asset, l) == if asset == ASSET_PTKM then b.(wrapped := l) else b.(native := l)
  {
    StoredInRange(l.opening);
    StoredInRange(l.deposited);
    StoredInRange(l.withdrawn);
    StoredInRange(l.fees);
    StoredInRange(l.backing);
  }

  lemma MovedBalanced(b: Books, asset: nat, deposit: int, withdrawal: int, fee: int)
    requires Solvent(b) && Covered(b, asset) && Fits(Opened(b, asset), deposit, withdrawal, fee)
    ensures var m := Moved(Opened(b, asset), deposit, withdrawal, fee);
            m.initialized && Balanced(m)
  {
    SumNonNegative(b.stakes);
  }

  /** A move within range that shifts pool and native backing alike keeps the native ledger covered. */
  lemma NativeMoveKeepsSolvent(b: Books, b': Books, m: Totals, moved: int)
    requires Solvent(b) && b.active && Covered(b, ASSET_TKM)
    requires m.initialized && Balanced(m) && m.backing == Opened(b, ASSET_TKM).backing + moved
    requires b' == b.(native := m, pool := b'.pool, outside := b'.outside, burned := b'.burned)
    requires InRange(b'.pool) && b'.pool >= b.pool + moved
    ensures Solvent(b')
  {
  }

  lemma WrappedMoveKeepsSolvent(b: Books, b': Books, m: Totals, moved: int)
    requires Solvent(b) && b.active && Covered(b, ASSET_PTKM)
    requires m.initialized && Balanced(m) && m.backing == Opened(b, ASSET_PTKM).backing + moved
    requires b' == b.(wrapped := m, supply := b'.supply, pool := b'.pool, outside := b'.outside, burned := b'.burned)
    requires b'.supply == b.supply + moved && InRange(b'.supply)
    requires InRange(b'.pool) && b'.pool >= b.pool + moved
    ensures Solvent(b')
  {
  }

  lemma SettledKeepsSolvent(b: Books, f: Flow)
    requires Settles(b, f) && Solvent(b)
    ensures Solvent(Settled(b, f))
  {
    var b' := Settled(b, f);
    if b.active {
      var m := Moved(Opened(b, f.asset), f.value, f.withdrawal, f.sponsor);
      MovedBalanced(b, f.asset, f.value, f.withdrawal, f.sponsor);
      CommitExact(b, f.asset, m);
      if f.asset == ASSET_PTKM {
        WrappedMoveKeepsSolvent(b, b', m, f.value - f.withdrawal);
      } else {
        NativeMoveKeepsSolvent(b, b', m, f.value - f.withdrawal - f.sponsor);
      }
    }
  }

  // ----- the surviving V2 path

  /** A migration withdrawal: it checks the whole pool balance, not the part that is free to spend. */
  ghost predicate Migrates(b: Books, w: nat) {
    && 0 < w < 0x1_0000_0000_0000_0000 && w <= b.pool
    && (b.active ==> Covered(b, ASSET_TKM) && Fits(Opened(b, ASSET_TKM), 0, w, 0))
  }

  ghost function Migrated(b: Books, w: nat): Books
    requires Migrates(b, w)
  {
    var ledger := if b.active then Committed(b, ASSET_TKM, Moved(Opened(b, ASSET_TKM), 0, w, 0)) else b;
    ledger.(pool := b.pool - w, outside := b.outside + w)
  }

  lemma MigratedInNumbers(b: Books, w: nat)
    requires Migrates(b, w)
    ensures var b' := Migrated(b, w);
            && b'.pool == b.pool - w && b'.outside == b.outside + w
            && b'.burned == b.burned && b'.forfeited == b.forfeited && b'.stakes == b.stakes && b'.supply == b.supply
            && b'.wrapped == b.wrapped && b'.active == b.active && (!b.active ==> b'.native == b.native)
            && (b.active ==>
                  && b'.native.withdrawn == b.native.withdrawn + w && b'.native.initialized
                  && b'.native.deposited == b.native.deposited && b'.native.fees == b.native.fees)
  {
    if b.active {
      var m := Moved(Opened(b, ASSET_TKM), 0, w, 0);
      StoredInRange(m.withdrawn);
      StoredInRange(m.deposited);
      StoredInRange(m.fees);
    }
  }

  /** The ledger and release parts of processShieldedTransaction for a migration of `w` to its signer. */
  method Migrate(b: Books, w: nat) returns (ok: bool, b': Books)
    requires 0 < w < 0x1_0000_0000_0000_0000
    ensures ok <==> Migrates(b, w)
    ensures b' == if ok then Migrated(b, w) else b
    ensures ok ==> b'.pool == b.pool - w && b'.outside == b.outside + w
    ensures b'.burned == b.burned && b'.forfeited == b.forfeited && b'.stakes == b.stakes && b'.supply == b.supply
    ensures b'.wrapped == b.wrapped && b'.active == b.active && (!b.active ==> b'.native == b.native)
    ensures ok && b.active ==>
              && b'.native.withdrawn == b.native.withdrawn + w && b'.native.initialized
              && b'.native.deposited == b.native.deposited && b'.native.fees == b.native.fees
  {
    b' := b;
    var ledger := NO_TOTALS;
    if b.active {
      var transition := LedgerTransition(b, ASSET_TKM, 0, w, 0);
      if transition.Err? {
        return false, b;
      }
      ledger := transition.value;
    }
    if b.pool < w {
      return false, b;
    }
    MigratedInNumbers(b, w);
    b' := b'.(pool := b'.pool - w);
    b' := b'.(outside := b'.outside + w);
    if b.active {
      b' := Committed(b', ASSET_TKM, ledger);
    }
    ok := true;
  }

  lemma MigratedKeepsSolvent(b: Books, w: nat)
    requires Migrates(b, w) && Solvent(b)
    ensures Solvent(Migrated(b, w))
  {
    if b.active {
      var m := Moved(Opened(b, ASSET_TKM), 0, w, 0);
      MovedBalanced(b, ASSET_TKM, 0, w, 0);
      CommitExact(b, ASSET_TKM, m);
      NativeMoveKeepsSolvent(b, Migrated(b, w), m, 0 - w);
    }
  }

  /** When a solvent state takes a migration: within the balance and, after the fork, within the backing. */
  lemma MigratesExactly(b: Books, w: nat)
    requires Solvent(b)
    ensures var free := b.pool - Sum(b.stakes) - b.supply;
            Migrates(b, w) <==>
              && 0 < w < 0x1_0000_0000_0000_0000 && w <= b.pool
              && (b.active ==>
                    && free >= 0 && w <= (if b.native.initialized then b.native.backing else free)
                    && (if b.native.initialized then b.native.backing else free) - w < TWO256
                    && b.native.withdrawn + w < TWO256)
  {
    if b.active && b.pool - Sum(b.stakes) - b.supply >= 0 && w < TWO256 {
      NativeTakes(b, 0, w, 0);
    }
  }

  /** Before the ledger fork a migration keeps wrapped tokens backed exactly when it stays within the free part. */
  lemma MigrationBeforeFork(b: Books, w: nat)
    requires Migrates(b, w) && !b.active && b.pool >= b.supply
    ensures Migrated(b, w).pool >= Migrated(b, w).supply <==> w <= Spendable(b, ASSET_TKM)
  {
  }

  /** ... and nothing makes it stay there: 10 wei that back 10 pTKM can be migrated away. */
  lemma MigrationCanUnbackWrapped()
    ensures var b := Books(10, 0, 0, 0, [], 10, NO_TOTALS, NO_TOTALS, false);
            Solvent(b) && b.pool >= b.supply && Migrates(b, 10) && Migrated(b, 10).pool < Migrated(b, 10).supply
  {
  }

  /** After the fork the ledger closes that gap: a migration never reaches below bonds and wrapped tokens. */
  lemma MigrationAfterFork(b: Books, w: nat)
    requires Migrates(b, w) && b.active
    ensures Excess(Migrated(b, w)) >= 0
  {
  }

  /** Bonds get the same protection only from the ledger: a native release spares them exactly within the excess. */
  lemma BondsBeforeFork(b: Books, f: Flow)
    requires Settles(b, f) && !b.active && f.asset == ASSET_TKM
    ensures Excess(Settled(b, f)) >= 0 <==> Released(f) <= Excess(b) + f.value
  {
  }

  /** The same for a migration. */
  lemma MigrationSparesBonds(b: Books, w: nat)
    requires Migrates(b, w) && !b.active
    ensures Excess(Migrated(b, w)) >= 0 <==> w <= Excess(b)
  {
  }

  /** A wrapped envelope moves pool and supply together, or leaves its withdrawal in the pool. */
  lemma WrappedKeepsExcess(b: Books, f: Flow)
    requires Settles(b, f) && f.asset == ASSET_PTKM
    ensures Excess(Settled(b, f)) >= Excess(b)
  {
  }

  lemma ReleaseCanSpendBonds()
    ensures var b := Books(10, 0, 0, 0, [10], 0, NO_TOTALS, NO_TOTALS, false);
            var f := Flow(ASSET_TKM, false, 0, 10, 0, false, false);
            Solvent(b) && Excess(b) >= 0 && Settles(b, f) && Excess(Settled(b, f)) < 0
  {
    var b := Books(10, 0, 0, 0, [10], 0, NO_TOTALS, NO_TOTALS, false);
    assert b.stakes[..0] == [];
    assert Sum(b.stakes) == 10;
  }

  lemma MigrationCanSpendBonds()
    ensures var b := Books(10, 0, 0, 0, [10], 0, NO_TOTALS, NO_TOTALS, false);
            Solvent(b) && Excess(b) >= 0 && Migrates(b, 10) && Excess(Migrated(b, 10)) < 0
  {
    var b := Books(10, 0, 0, 0, [10], 0, NO_TOTALS, NO_TOTALS, false);
    assert b.stakes[..0] == [];
    assert Sum(b.stakes) == 10;
  }

  lemma BondsAfterFork(b: Books, f: Flow)
    requires Settles(b, f) && b.active && Solvent(b)
    ensures Excess(Settled(b, f)) >= 0
  {
    SettledKeepsSolvent(b, f);
    MovedBalanced(b, f.asset, f.value, f.withdrawal, f.sponsor);
    CommitExact(b, f.asset, Moved(Opened(b, f.asset), f.value, f.withdrawal, f.sponsor));
  }
}
