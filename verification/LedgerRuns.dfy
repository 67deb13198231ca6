/**
  Whole runs over the shared account: spend envelopes of every version, V2 migrations, Shield6
  boundaries, validator bonds, the ledger fork, and whatever happens to the other accounts.
 */
module LedgerRuns {
  import opened ConfidentialLedger

  const BOND_WEI: nat := 500_000_000_000_000_000_000_000
  const REGISTRATION_FEE_WEI: nat := 100_000_000_000_000_000_000
  const MAX_VALIDATORS: nat := 4096
  const TWO128: nat := 0x1_0000000000000000_0000000000000000

  // ----- bonds

  lemma SumSnoc(s: seq<int>, x: int)
    ensures Sum(s + [x]) == Sum(s) + x
  {
    assert (s + [x])[..|s|] == s;
  }

  lemma {:induction false} SumSet(s: seq<int>, i: nat, x: int)
    requires i < |s|
    ensures Sum(s[i := x]) == Sum(s) - s[i] + x
  {
    var n := |s| - 1;
    if i == n {
      assert s[i := x][..n] == s[..n];
    } else {
      SumSet(s[..n], i, x);
      assert s[i := x][..n] == s[..n][i := x];
    }
  }

  /** A new validator, or one whose bond is gone, may register while the set has room. */
  predicate CanBond(b: Books, v: nat) {
    && v <= |b.stakes| < MAX_VALIDATORS && (v < |b.stakes| ==> b.stakes[v] <= 0)
    && b.outside >= BOND_WEI + REGISTRATION_FEE_WEI && b.pool + BOND_WEI < TWO256
  }

  ghost function Bonded(b: Books, v: nat): Books
    requires CanBond(b, v)
  {
    b.(pool := b.pool + BOND_WEI, outside := b.outside - BOND_WEI - REGISTRATION_FEE_WEI,
       forfeited := b.forfeited + REGISTRATION_FEE_WEI,
       stakes := if v < |b.stakes| then b.stakes[v := BOND_WEI] else b.stakes + [BOND_WEI])
  }

  /** A bond leaves whenever the account holds that much, whatever else the account owes. */
  predicate CanUnbond(b: Books, v: nat) {
    v < |b.stakes| && 0 < b.stakes[v] <= b.pool
  }

  ghost function Unbonded(b: Books, v: nat): Books
    requires CanUnbond(b, v)
  {
    b.(pool := b.pool - b.stakes[v], outside := b.outside + b.stakes[v], stakes := b.stakes[v := 0])
  }

  predicate CanSlash(b: Books, v: nat) {
    v < |b.stakes| && 0 <= b.stakes[v] <= b.pool
  }

  ghost function Slashed(b: Books, v: nat): Books
    requires CanSlash(b, v)
  {
    b.(pool := b.pool - b.stakes[v], forfeited := b.forfeited + b.stakes[v], stakes := b.stakes[v := 0])
  }

  /** ProcessValidatorRegistration after the transfer of the bond. */
  method RegisterValidator(b: Books, v: nat) returns (ok: bool, b': Books)
    ensures ok <==> CanBond(b, v)
    ensures b' == if ok then Bonded(b, v) else b
    ensures ok <==>
              && v <= |b.stakes| < MAX_VALIDATORS && (v < |b.stakes| ==> b.stakes[v] <= 0)
              && b.outside >= BOND_WEI + REGISTRATION_FEE_WEI && b.pool + BOND_WEI < TWO256
    ensures ok ==>
              && b'.pool == b.pool + BOND_WEI && b'.outside == b.outside - BOND_WEI - REGISTRATION_FEE_WEI
              && b'.forfeited == b.forfeited + REGISTRATION_FEE_WEI && b'.burned == b.burned
              && v < |b'.stakes| && b'.stakes[v] == BOND_WEI
              && |b'.stakes| == (if v == |b.stakes| then |b.stakes| + 1 else |b.stakes|)
              && forall i :: 0 <= i < |b.stakes| && i != v ==> b'.stakes[i] == b.stakes[i]
  {
    if v > |b.stakes| || |b.stakes| >= MAX_VALIDATORS || (v < |b.stakes| && b.stakes[v] > 0) {
      return false, b;
    }
    if b.outside < BOND_WEI + REGISTRATION_FEE_WEI || b.pool + BOND_WEI >= TWO256 {
      return false, b;
    }
    b' := b.(outside := b.outside - BOND_WEI, pool := b.pool + BOND_WEI);
    b' := b'.(outside := b'.outside - REGISTRATION_FEE_WEI, forfeited := b'.forfeited + REGISTRATION_FEE_WEI);
    if v < |b'.stakes| {
      b' := b'.(stakes := b'.stakes[v := BOND_WEI]);
    } else {
      b' := b'.(stakes := b'.stakes + [BOND_WEI]);
    }
    ok := true;
  }

  /** ProcessValidatorAction, the withdrawal branch. */
  method WithdrawBond(b: Books, v: nat) returns (ok: bool, b': Books)
    ensures ok <==> CanUnbond(b, v)
    ensures b' == if ok then Unbonded(b, v) else b
    ensures ok <==> v < |b.stakes| && 0 < b.stakes[v] <= b.pool
    ensures ok ==>
              && b'.pool == b.pool - b.stakes[v] && b'.outside == b.outside + b.stakes[v]
              && b'.forfeited == b.forfeited && b'.burned == b.burned && b'.stakes == b.stakes[v := 0]
  {
    if v >= |b.stakes| || b.stakes[v] <= 0 || b.pool < b.stakes[v] {
      return false, b;
    }
    b' := b.(pool := b.pool - b.stakes[v]);
    b' := b'.(outside := b'.outside + b'.stakes[v]);
    b' := b'.(stakes := b'.stakes[v := 0]);
    ok := true;
  }

  /** ProcessValidatorSlash. */
  method SlashBond(b: Books, v: nat) returns (ok: bool, b': Books)
    ensures ok <==> CanSlash(b, v)
    ensures b' == if ok then Slashed(b, v) else b
    ensures ok <==> v < |b.stakes| && 0 <= b.stakes[v] <= b.pool
    ensures ok ==>
              && b'.pool == b.pool - b.stakes[v] && b'.outside == b.outside
              && b'.forfeited == b.forfeited + b.stakes[v] && b'.burned == b.burned && b'.stakes == b.stakes[v := 0]
  {
    if v >= |b.stakes| || b.stakes[v] < 0 {
      return false, b;
    }
    b' := b;
    if b.stakes[v] > 0 {
      if b.pool < b.stakes[v] {
        return false, b;
      }
      b' := b'.(pool := b'.pool - b.stakes[v], forfeited := b'.forfeited + b.stakes[v]);
    }
    b' := b'.(stakes := b'.stakes[v := 0]);
    ok := true;
  }

  /** Bonds come and go with their own money: the reserve of everybody else does not move. */
  lemma BondsKeepExcess(b: Books, v: nat)
    requires StakesOk(b.stakes)
    ensures CanBond(b, v) ==> Excess(Bonded(b, v)) == Excess(b) && StakesOk(Bonded(b, v).stakes)
    ensures CanUnbond(b, v) ==> Excess(Unbonded(b, v)) == Excess(b) && StakesOk(Unbonded(b, v).stakes)
    ensures CanSlash(b, v) ==> Excess(Slashed(b, v)) == Excess(b) && StakesOk(Slashed(b, v).stakes)
  {
    SumSnoc(b.stakes, BOND_WEI);
    if v < |b.stakes| {
      SumSet(b.stakes, v, BOND_WEI);
      SumSet(b.stakes, v, 0);
    }
  }

  /** But a bond that leaves spares the wrapped tokens exactly when it is within what a native release may take. */
  lemma BondExitKeepsWrapped(b: Books, v: nat)
    requires CanUnbond(b, v) && b.pool >= b.supply
    ensures Unbonded(b, v).pool >= Unbonded(b, v).supply <==> b.stakes[v] <= Spendable(b, ASSET_TKM)
  {
  }

  // ----- Shield6 boundaries

  /** A public deposit into, or withdrawal from, the Shield6 accumulator. */
  ghost predicate Crosses(b: Books, deposit: nat, withdrawal: nat) {
    && b.active && deposit < TWO128 && withdrawal < TWO128 && (deposit > 0 <==> withdrawal == 0)
    && deposit <= b.outside && b.pool + deposit < TWO256
    && Covered(b, ASSET_TKM) && Fits(Opened(b, ASSET_TKM), deposit, withdrawal, 0)
  }

  /** When a boundary is taken in a solvent state. */
  lemma CrossesExactly(b: Books, deposit: nat, withdrawal: nat)
    requires Solvent(b)
    ensures var free := b.pool - Sum(b.stakes) - b.supply;
            var backing := if b.native.initialized then b.native.backing else free;
            Crosses(b, deposit, withdrawal) <==>
              && b.active && (deposit == 0) != (withdrawal == 0) && deposit < TWO128 && withdrawal < TWO128
              && deposit <= b.outside && b.pool + deposit < TWO256
              && free >= 0 && withdrawal <= backing + deposit < TWO256 + withdrawal
              && b.native.deposited + deposit < TWO256 && b.native.withdrawn + withdrawal < TWO256
  {
    if b.pool - Sum(b.stakes) - b.supply >= 0 && deposit < TWO128 && withdrawal < TWO128 {
      NativeTakes(b, deposit, withdrawal, 0);
    }
  }

  /** The ledger alone protects the account here: no balance test follows it, and none is needed. */
  lemma CrossingIsBacked(b: Books, deposit: nat, withdrawal: nat)
    requires Crosses(b, deposit, withdrawal)
    ensures withdrawal <= b.pool
  {
    SumNonNegative(b.stakes);
  }

  ghost function Crossed(b: Books, deposit: nat, withdrawal: nat, toPool: bool): Books
    requires Crosses(b, deposit, withdrawal)
  {
    CrossingIsBacked(b, deposit, withdrawal);
    var released := if toPool then 0 else withdrawal;
    Committed(b, ASSET_TKM, Moved(Opened(b, ASSET_TKM), deposit, withdrawal, 0))
      .(pool := b.pool + deposit - released, outside := b.outside - deposit + released)
  }

  lemma CrossedInNumbers(b: Books, deposit: nat, withdrawal: nat, toPool: bool)
    requires Crosses(b, deposit, withdrawal)
    ensures var b' := Crossed(b, deposit, withdrawal, toPool);
            && b'.pool == b.pool + deposit - (if toPool then 0 else withdrawal)
            && b'.outside == b.outside - deposit + (if toPool then 0 else withdrawal)
            && b'.native.deposited == b.native.deposited + deposit
            && b'.native.withdrawn == b.native.withdrawn + withdrawal && b'.native.fees == b.native.fees
            && b'.burned == b.burned && b'.forfeited == b.forfeited && b'.stakes == b.stakes
            && b'.supply == b.supply && b'.wrapped == b.wrapped && b'.active
  {
    CrossingIsBacked(b, deposit, withdrawal);
    var m := Moved(Opened(b, ASSET_TKM), deposit, withdrawal, 0);
    StoredInRange(m.deposited);
    StoredInRange(m.withdrawn);
    StoredInRange(m.fees);
  }

  /** The ledger and release parts of processShieldedV6, with the outer transfer of a deposit. */
  method Cross(b: Books, deposit: nat, withdrawal: nat, toPool: bool) returns (ok: bool, b': Books)
    ensures ok <==> Crosses(b, deposit, withdrawal)
    ensures b' == if ok then Crossed(b, deposit, withdrawal, toPool) else b
    ensures ok ==> b.active && (deposit == 0 || withdrawal == 0) && deposit + withdrawal > 0
    ensures ok ==>
              && b'.pool == b.pool + deposit - (if toPool then 0 else withdrawal)
              && b'.outside == b.outside - deposit + (if toPool then 0 else withdrawal)
              && b'.native.deposited == b.native.deposited + deposit
              && b'.native.withdrawn == b.native.withdrawn + withdrawal && b'.native.fees == b.native.fees
              && b'.burned == b.burned && b'.forfeited == b.forfeited && b'.stakes == b.stakes
              && b'.supply == b.supply && b'.wrapped == b.wrapped && b'.active
  {
    if deposit >= TWO128 || withdrawal >= TWO128 || (deposit > 0) != (withdrawal == 0) || !b.active {
      return false, b;
    }
    if deposit > b.outside || b.pool + deposit >= TWO256 {
      return false, b;
    }
    var transition := LedgerTransition(b, ASSET_TKM, deposit, withdrawal, 0);
    if transition.Err? {
      return false, b;
    }
    CrossingIsBacked(b, deposit, withdrawal);
    CrossedInNumbers(b, deposit, withdrawal, toPool);
    b' := Committed(b, ASSET_TKM, transition.value);
    if withdrawal > 0 {
      b' := b'.(pool := b'.pool - withdrawal);
      b' := if toPool then b'.(pool := b'.pool + withdrawal) else b'.(outside := b'.outside + withdrawal);
    }
    b' := b'.(outside := b'.outside - deposit, pool := b'.pool + deposit);
    ok := true;
  }

  // ----- steps and runs

  /**
    Every way the account moves.  `Elsewhere` covers rewards, gas, votes and transfers among the
    other accounts, and gifts to the pool; nobody holds a key to the pool, so nothing else debits it.
   */
  datatype Step =
    | Spend(flow: Flow)
    | Migration(amount: nat)
    | Boundary(deposit: nat, withdrawal: nat, toPool: bool)
    | Bond(validator: nat)
    | Unbond(validator: nat)
    | Slash(validator: nat)
    | Elsewhere(outside: nat, gift: nat)
    | Fork

  /** One step; whatever is not accepted leaves the books as they were. */
  ghost function Apply(b: Books, s: Step): Books {
    match s
    case Spend(f) => if Settles(b, f) then Settled(b, f) else b
    case Migration(w) => if Migrates(b, w) then Migrated(b, w) else b
    case Boundary(d, w, toPool) => if Crosses(b, d, w) then Crossed(b, d, w, toPool) else b
    case Bond(v) => if CanBond(b, v) then Bonded(b, v) else b
    case Unbond(v) => if CanUnbond(b, v) then Unbonded(b, v) else b
    case Slash(v) => if CanSlash(b, v) then Slashed(b, v) else b
    case Elsewhere(outside, gift) =>
      if b.pool + gift + outside < TWO256 then b.(pool := b.pool + gift, outside := outside) else b
    case Fork => b.(active := true)
  }

  ghost function After(b: Books, steps: seq<Step>): Books {
    if steps == [] then b else Apply(After(b, steps[..|steps| - 1]), steps[|steps| - 1])
  }

  lemma AfterSnoc(b: Books, steps: seq<Step>, s: Step)
    ensures After(b, steps + [s]) == Apply(After(b, steps), s)
  {
    assert (steps + [s])[..|steps|] == steps;
  }

  // ----- solvency

  /** Bonds and wrapped tokens are covered. */
  ghost predicate ReserveCovered(b: Books) {
    Excess(b) >= 0
  }

  ghost predicate WrappedBacked(b: Books) {
    b.pool >= b.supply
  }

  /** Moving money or bonds without lowering the reserve keeps the promise of the open ledgers. */
  lemma ReserveKept(b: Books, b': Books)
    requires Solvent(b) && b'.native == b.native && b'.wrapped == b.wrapped
    requires b'.supply == b.supply && b'.active == b.active
    requires InRange(b'.pool) && StakesOk(b'.stakes) && Excess(b') >= Excess(b)
    ensures Solvent(b')
  {
  }

  lemma CrossedKeepsSolvent(b: Books, deposit: nat, withdrawal: nat, toPool: bool)
    requires Crosses(b, deposit, withdrawal) && Solvent(b)
    ensures Solvent(Crossed(b, deposit, withdrawal, toPool))
    ensures Excess(Crossed(b, deposit, withdrawal, toPool)) >= 0
  {
    var m := Moved(Opened(b, ASSET_TKM), deposit, withdrawal, 0);
    MovedBalanced(b, ASSET_TKM, deposit, withdrawal, 0);
    CommitExact(b, ASSET_TKM, m);
    NativeMoveKeepsSolvent(b, Crossed(b, deposit, withdrawal, toPool), m, deposit - withdrawal);
  }

  lemma BondStepKeepsSolvent(b: Books, s: Step)
    requires Solvent(b) && (s.Bond? || s.Unbond? || s.Slash?)
    ensures Solvent(Apply(b, s))
  {
    BondsKeepExcess(b, s.validator);
    ReserveKept(b, Apply(b, s));
  }

  lemma StepKeepsSolvent(b: Books, s: Step)
    requires Solvent(b)
    ensures Solvent(Apply(b, s))
  {
    match s
    case Spend(f) =>
      if Settles(b, f) {
        SettledKeepsSolvent(b, f);
      }
    case Migration(w) =>
      if Migrates(b, w) {
        MigratedKeepsSolvent(b, w);
      }
    case Boundary(d, w, toPool) =>
      if Crosses(b, d, w) {
        CrossedKeepsSolvent(b, d, w, toPool);
      }
    case Elsewhere(outside, gift) =>
      ReserveKept(b, Apply(b, s));
    case Fork =>
    case _ =>
      BondStepKeepsSolvent(b, s);
  }

  /** Every run keeps the ledgers balanced and covered. */
  lemma {:induction false} RunStaysSolvent(b: Books, steps: seq<Step>)
    requires Solvent(b)
    ensures Solvent(After(b, steps))
  {
    if steps != [] {
      RunStaysSolvent(b, steps[..|steps| - 1]);
      StepKeepsSolvent(After(b, steps[..|steps| - 1]), steps[|steps| - 1]);
    }
  }

  /** What that promises, in numbers: each ledger adds up, and the account covers what the ledgers record. */
  lemma RunAddsUp(b: Books, steps: seq<Step>)
    requires Solvent(b)
    ensures var end := After(b, steps);
            && (end.native.initialized ==>
                  && end.native.backing
                     == end.native.opening + end.native.deposited - end.native.withdrawn - end.native.fees
                  && end.native.backing + end.supply + Sum(end.stakes) <= end.pool)
            && (end.wrapped.initialized ==>
                  && end.wrapped.backing
                     == end.wrapped.opening + end.wrapped.deposited - end.wrapped.withdrawn - end.wrapped.fees
                  && end.wrapped.backing == end.supply && end.supply + Sum(end.stakes) <= end.pool)
            && end.native.deposited < TWO256 && end.native.withdrawn < TWO256 && end.native.fees < TWO256
            && end.wrapped.deposited < TWO256 && end.wrapped.withdrawn < TWO256 && end.native.backing < TWO256
  {
    RunStaysSolvent(b, steps);
  }

  /** So in any run, once a ledger is open, no shortfall check refuses a step and every liability is backed. */
  lemma RunNeverShort(b: Books, steps: seq<Step>, asset: nat)
    requires Solvent(b)
    ensures var end := After(b, steps);
            end.native.initialized || end.wrapped.initialized ==>
              Covered(end, asset) && ReserveCovered(end) && WrappedBacked(end)
  {
    RunStaysSolvent(b, steps);
    var end := After(b, steps);
    if end.native.initialized || end.wrapped.initialized {
      NeverShort(end, asset);
      SumNonNegative(end.stakes);
    }
  }

  // ----- what holds at every moment of a run, and exactly when

  ghost predicate Throughout(p: Books -> bool, b: Books, steps: seq<Step>) {
    forall k {:trigger After(b, steps[..k])} :: 0 <= k <= |steps| ==> p(After(b, steps[..k]))
  }

  ghost predicate EachStep(c: (Books, Step) -> bool, b: Books, steps: seq<Step>) {
    steps != [] ==> EachStep(c, b, steps[..|steps| - 1]) && c(After(b, steps[..|steps| - 1]), steps[|steps| - 1])
  }

  lemma ThroughoutSplits(p: Books -> bool, b: Books, steps: seq<Step>)
    requires steps != []
    ensures Throughout(p, b, steps) <==> Throughout(p, b, steps[..|steps| - 1]) && p(After(b, steps))
  {
    var before := steps[..|steps| - 1];
    assert steps[..|steps|] == steps;
    assert forall k :: 0 <= k <= |before| ==> before[..k] == steps[..k];
    if Throughout(p, b, steps) {
      forall k | 0 <= k <= |before|
        ensures p(After(b, before[..k]))
      {
        assert p(After(b, steps[..k]));
      }
    }
    if Throughout(p, b, before) && p(After(b, steps)) {
      forall k | 0 <= k <= |steps|
        ensures p(After(b, steps[..k]))
      {
        if k < |steps| {
          assert p(After(b, before[..k]));
        }
      }
    }
  }

  /** A condition that is exact for every step is exact for every run. */
  lemma {:induction false} StepwiseExact(p: Books -> bool, c: (Books, Step) -> bool, b: Books, steps: seq<Step>)
    requires Solvent(b) && p(b)
    requires forall b1, s {:trigger p(Apply(b1, s))} :: Solvent(b1) && p(b1) ==> (p(Apply(b1, s)) <==> c(b1, s))
    ensures Throughout(p, b, steps) <==> EachStep(c, b, steps)
  {
    if steps == [] {
      assert forall k :: 0 <= k <= |steps| ==> steps[..k] == [];
    } else {
      var before, last := steps[..|steps| - 1], steps[|steps| - 1];
      StepwiseExact(p, c, b, before);
      ThroughoutSplits(p, b, steps);
      RunStaysSolvent(b, before);
      if Throughout(p, b, before) {
        assert before[..|before|] == before;
        assert p(After(b, before));
        assert p(Apply(After(b, before), last)) <==> c(After(b, before), last);
      }
    }
  }

  /** Before the ledger fork a native release stays within the reserve left by bonds and wrapped tokens. */
  ghost predicate Careful(b: Books, s: Step) {
    !b.active ==>
      && (s.Spend? && Settles(b, s.flow) && s.flow.asset == ASSET_TKM && !s.flow.deposit ==>
            Released(s.flow) <= Excess(b))
      && (s.Migration? && Migrates(b, s.amount) ==> s.amount <= Excess(b))
  }

  lemma StepKeepsReserve(b: Books, s: Step)
    requires Solvent(b) && ReserveCovered(b)
    ensures ReserveCovered(Apply(b, s)) <==> Careful(b, s)
  {
    match s
    case Spend(f) =>
      if Settles(b, f) {
        if b.active {
          BondsAfterFork(b, f);
        } else if f.asset == ASSET_TKM {
          BondsBeforeFork(b, f);
        } else {
          WrappedKeepsExcess(b, f);
        }
      }
    case Migration(w) =>
      if Migrates(b, w) {
        if b.active {
          MigrationAfterFork(b, w);
        } else {
          MigrationSparesBonds(b, w);
        }
      }
    case Boundary(d, w, toPool) =>
      if Crosses(b, d, w) {
        CrossedKeepsSolvent(b, d, w, toPool);
      }
    case Elsewhere(_, _) =>
    case Fork =>
    case _ =>
      BondsKeepExcess(b, s.validator);
  }

  /** Bonds and wrapped tokens are covered at every moment of a run exactly when each native release was careful. */
  lemma RunKeepsReserve(b: Books, steps: seq<Step>)
    requires Solvent(b) && ReserveCovered(b)
    ensures Throughout(ReserveCovered, b, steps) <==> EachStep(Careful, b, steps)
  {
    forall b1, s | Solvent(b1) && ReserveCovered(b1)
      ensures ReserveCovered(Apply(b1, s)) <==> Careful(b1, s)
    {
      StepKeepsReserve(b1, s);
    }
    StepwiseExact(ReserveCovered, Careful, b, steps);
  }

  /** A step takes no more than the wrapped tokens can spare; only migrations and departing bonds could. */
  ghost predicate LeavesBacking(b: Books, s: Step) {
    && (s.Migration? && Migrates(b, s.amount) && !b.active ==> s.amount <= Spendable(b, ASSET_TKM))
    && (s.Unbond? && CanUnbond(b, s.validator) ==> b.stakes[s.validator] <= Spendable(b, ASSET_TKM))
    && (s.Slash? && CanSlash(b, s.validator) ==> b.stakes[s.validator] <= Spendable(b, ASSET_TKM))
  }

  lemma StepKeepsWrapped(b: Books, s: Step)
    requires Solvent(b) && WrappedBacked(b)
    ensures WrappedBacked(Apply(b, s)) <==> LeavesBacking(b, s)
  {
    match s
    case Spend(f) =>
      if Settles(b, f) {
        SettledKeepsWrapped(b, f);
      }
    case Migration(w) =>
      if Migrates(b, w) {
        if b.active {
          MigrationAfterFork(b, w);
          SumNonNegative(b.stakes);
        } else {
          MigrationBeforeFork(b, w);
        }
      }
    case Boundary(d, w, toPool) =>
      if Crosses(b, d, w) {
        CrossedKeepsSolvent(b, d, w, toPool);
        SumNonNegative(b.stakes);
      }
    case _ =>
  }

  /** Wrapped tokens are backed at every moment of a run exactly when no step took their backing. */
  lemma RunKeepsWrapped(b: Books, steps: seq<Step>)
    requires Solvent(b) && WrappedBacked(b)
    ensures Throughout(WrappedBacked, b, steps) <==> EachStep(LeavesBacking, b, steps)
  {
    forall b1, s | Solvent(b1) && WrappedBacked(b1)
      ensures WrappedBacked(Apply(b1, s)) <==> LeavesBacking(b1, s)
    {
      StepKeepsWrapped(b1, s);
    }
    StepwiseExact(WrappedBacked, LeavesBacking, b, steps);
  }

  /** Careful native releases are enough: bonds may then come and go freely. */
  lemma CoveredReserveBacksWrapped(b: Books, steps: seq<Step>)
    requires Solvent(b) && Throughout(ReserveCovered, b, steps)
    ensures Throughout(WrappedBacked, b, steps)
  {
    forall k | 0 <= k <= |steps|
      ensures WrappedBacked(After(b, steps[..k]))
    {
      RunStaysSolvent(b, steps[..k]);
      assert ReserveCovered(After(b, steps[..k]));
      SumNonNegative(After(b, steps[..k]).stakes);
    }
  }

  /** At the end of a run wrapped tokens are backed if a ledger is open, or else if the run was careful. */
  lemma RunBacksWrapped(b: Books, steps: seq<Step>)
    requires Solvent(b)
    ensures var end := After(b, steps);
            && (end.native.initialized || end.wrapped.initialized ==> WrappedBacked(end))
            && (ReserveCovered(b) && EachStep(Careful, b, steps) ==> WrappedBacked(end))
  {
    RunNeverShort(b, steps, ASSET_TKM);
    if ReserveCovered(b) && EachStep(Careful, b, steps) {
      RunKeepsReserve(b, steps);
      CoveredReserveBacksWrapped(b, steps);
      assert steps[..|steps|] == steps;
      assert WrappedBacked(After(b, steps[..|steps|]));
    }
  }

  ghost function OneBond(n: nat): Books {
    Books(n, 0, 0, 0, [n], 0, NO_TOTALS, NO_TOTALS, false)
  }

  /** A bond of `n` released as a native withdrawal, `n` pTKM minted on fresh money, the bond paid from it. */
  ghost function ExitRun(n: nat): seq<Step> {
    [Spend(Flow(ASSET_TKM, false, 0, n, 0, false, false)), Spend(Flow(ASSET_PTKM, true, n, 0, 0, false, false)),
     Unbond(0)]
  }

  lemma ExitRunReleases(n: nat)
    requires 0 < n < TWO256
    ensures Apply(OneBond(n), ExitRun(n)[0]) == OneBond(n).(pool := 0, outside := n)
  {
  }

  lemma ExitRunMints(n: nat)
    requires 0 < n < TWO256
    ensures Apply(OneBond(n).(pool := 0, outside := n), ExitRun(n)[1]) == OneBond(n).(supply := n)
  {
  }

  /** Without that care the checks before the fork let a run end under-backed. */
  lemma BondExitCanUnbackWrapped(n: nat)
    requires 0 < n < TWO256
    ensures Solvent(OneBond(n)) && ReserveCovered(OneBond(n)) && WrappedBacked(OneBond(n))
    ensures !WrappedBacked(After(OneBond(n), ExitRun(n)))
  {
    var b, run := OneBond(n), ExitRun(n);
    SumSnoc([], n);
    assert [] + [n] == [n];
    AfterSnoc(b, [], run[0]);
    AfterSnoc(b, [run[0]], run[1]);
    AfterSnoc(b, [run[0], run[1]], run[2]);
    assert [] + [run[0]] == [run[0]] && [run[0]] + [run[1]] == [run[0], run[1]] && [run[0], run[1]] + [run[2]] == run;
    ExitRunReleases(n);
    ExitRunMints(n);
  }

  // ----- notes

  /** What an accepted step adds to the value of native notes, as its proof attests it. */
  ghost function Issued(b: Books, s: Step): int {
    match s
    case Spend(f) => if Settles(b, f) && f.asset == ASSET_TKM then f.value - f.withdrawal - f.sponsor else 0
    case Migration(w) => if Migrates(b, w) then 0 - w else 0
    case Boundary(d, w, _) => if Crosses(b, d, w) then d - w else 0
    case _ => 0
  }

  /** The value of all native notes after a run that started with `notes`. */
  ghost function NotesAfter(notes: int, b: Books, steps: seq<Step>): int {
    if steps == [] then notes
    else
      var before := steps[..|steps| - 1];
      NotesAfter(notes, b, before) + Issued(After(b, before), steps[|steps| - 1])
  }

  /** The withdrawal is addressed to the pool itself. */
  ghost predicate KeepsInPool(s: Step) {
    (s.Spend? && s.flow.recipientIsPool) || (s.Boundary? && s.toPool)
  }

  lemma StepCoversNotes(b: Books, s: Step)
    requires Solvent(b)
    ensures Excess(Apply(b, s)) >= Excess(b) + Issued(b, s)
    ensures !KeepsInPool(s) && !s.Elsewhere? ==> Excess(Apply(b, s)) == Excess(b) + Issued(b, s)
  {
    match s
    case Spend(f) =>
      if Settles(b, f) && f.asset == ASSET_PTKM {
        WrappedKeepsExcess(b, f);
      }
    case Migration(w) =>
    case Boundary(d, w, toPool) =>
    case Elsewhere(_, _) =>
    case Fork =>
    case _ =>
      BondsKeepExcess(b, s.validator);
  }

  /** Over every run, before and after the fork, the reserve covers the native notes beside bonds and wrapped tokens. */
  lemma {:induction false} RunCoversNotes(notes: int, b: Books, steps: seq<Step>)
    requires Solvent(b) && Excess(b) >= notes
    ensures Excess(After(b, steps)) >= NotesAfter(notes, b, steps)
  {
    if steps != [] {
      var before := steps[..|steps| - 1];
      RunCoversNotes(notes, b, before);
      RunStaysSolvent(b, before);
      StepCoversNotes(After(b, before), steps[|steps| - 1]);
    }
  }

  /** So if the proofs never release more than the notes hold, nothing is ever under-backed, fork or not. */
  lemma SoundProofsSuffice(notes: int, b: Books, steps: seq<Step>)
    requires Solvent(b) && Excess(b) >= notes
    requires forall k {:trigger NotesAfter(notes, b, steps[..k])} :: 0 <= k <= |steps| ==>
               NotesAfter(notes, b, steps[..k]) >= 0
    ensures Throughout(ReserveCovered, b, steps) && Throughout(WrappedBacked, b, steps)
    ensures EachStep(Careful, b, steps) && EachStep(LeavesBacking, b, steps)
  {
    forall k | 0 <= k <= |steps|
      ensures ReserveCovered(After(b, steps[..k]))
    {
      RunCoversNotes(notes, b, steps[..k]);
      assert NotesAfter(notes, b, steps[..k]) >= 0;
    }
    CoveredReserveBacksWrapped(b, steps);
    assert After(b, steps[..0]) == b;
    RunKeepsReserve(b, steps);
    RunKeepsWrapped(b, steps);
  }

  // ----- conservation

  ghost function Money(b: Books): int {
    b.pool + b.outside + b.burned + b.forfeited
  }

  /** What a step destroys besides prepaid fees: the fee of a registration, or a slashed bond. */
  ghost function Forfeits(b: Books, s: Step): int {
    if s.Bond? && CanBond(b, s.validator) then REGISTRATION_FEE_WEI
    else if s.Slash? && CanSlash(b, s.validator) then b.stakes[s.validator]
    else 0
  }

  ghost function ForfeitsOf(b: Books, steps: seq<Step>): int {
    if steps == [] then 0
    else
      var before := steps[..|steps| - 1];
      ForfeitsOf(b, before) + Forfeits(After(b, before), steps[|steps| - 1])
  }

  /** Any run forfeits exactly that; in particular a withdrawn bond is paid out in full. */
  lemma {:induction false} RunForfeits(b: Books, steps: seq<Step>)
    ensures After(b, steps).forfeited == b.forfeited + ForfeitsOf(b, steps)
  {
    if steps != [] {
      RunForfeits(b, steps[..|steps| - 1]);
    }
  }

  lemma StepConserves(b: Books, s: Step)
    requires !s.Elsewhere?
    ensures Money(Apply(b, s)) == Money(b)
    ensures Apply(b, s).forfeited == b.forfeited + Forfeits(b, s)
  {
    if s.Spend? && Settles(b, s.flow) {
      SettledConserves(b, s.flow);
    }
  }

  /** Whatever touches the account moves money but neither makes nor loses any. */
  lemma {:induction false} RunConserves(b: Books, steps: seq<Step>)
    requires forall s :: s in steps ==> !s.Elsewhere?
    ensures Money(After(b, steps)) == Money(b)
    ensures var end := After(b, steps);
            end.pool + end.outside + end.burned == b.pool + b.outside + b.burned - ForfeitsOf(b, steps)
  {
    RunForfeits(b, steps);
    if steps != [] {
      RunConserves(b, steps[..|steps| - 1]);
      StepConserves(After(b, steps[..|steps| - 1]), steps[|steps| - 1]);
    }
  }

  /** A move of the native ledger, committed, changes its fees by the fee and no other ledger's. */
  lemma FeesRecorded(b: Books, asset: nat, deposit: int, withdrawal: int, fee: int)
    requires Solvent(b) && Covered(b, asset) && Fits(Opened(b, asset), deposit, withdrawal, fee)
    requires asset == ASSET_PTKM ==> fee == 0
    ensures var b' := Committed(b, asset, Moved(Opened(b, asset), deposit, withdrawal, fee));
            b'.native.fees == b.native.fees + fee && b'.wrapped.fees == b.wrapped.fees
  {
    MovedBalanced(b, asset, deposit, withdrawal, fee);
    CommitExact(b, asset, Moved(Opened(b, asset), deposit, withdrawal, fee));
  }

  /** The prepaid fee a step burns is the fee its ledger records; a wrapped ledger records none. */
  lemma StepBurnsItsFees(b: Books, s: Step)
    requires Solvent(b)
    ensures var b' := Apply(b, s);
            b'.burned - b'.native.fees == b.burned - b.native.fees && b'.wrapped.fees == b.wrapped.fees
  {
    match s
    case Spend(f) =>
      if Settles(b, f) && b.active {
        FeesRecorded(b, f.asset, f.value, f.withdrawal, f.sponsor);
      }
    case Migration(w) =>
      if Migrates(b, w) && b.active {
        FeesRecorded(b, ASSET_TKM, 0, w, 0);
      }
    case Boundary(d, w, _) =>
      if Crosses(b, d, w) {
        FeesRecorded(b, ASSET_TKM, d, w, 0);
      }
    case _ =>
  }

  /** So over any run the burned money and the recorded fees grow by the same amount. */
  lemma {:induction false} RunBurnsItsFees(b: Books, steps: seq<Step>)
    requires Solvent(b)
    ensures var end := After(b, steps);
            end.burned - b.burned == end.native.fees - b.native.fees && end.wrapped.fees == b.wrapped.fees
  {
    if steps != [] {
      var before := steps[..|steps| - 1];
      RunBurnsItsFees(b, before);
      RunStaysSolvent(b, before);
      StepBurnsItsFees(After(b, before), steps[|steps| - 1]);
    }
  }
}
