/** Liquidity positions (db-service/src/schema/liquidity.rs), the liquidity of their market, and the share of the
    trading fee they earn (order-service/src/utils/update_matched_orders.rs). */
module Liquidity {
  import opened Sums

  datatype LpPosition = LpPosition(
    userId: nat,
    marketId: nat,
    deposited: real,
    poolShare: real,
    feesEarned: real,
    withdrawn: real,
    active: bool)

  type Positions = map<nat, LpPosition>

  /** The row a withdrawal may update: it is there and still holds that much. */
  predicate CanWithdraw(ps: Positions, id: nat, amount: real) {
    id in ps && ps[id].deposited >= amount
  }

  function Withdrawn(p: LpPosition, amount: real): LpPosition {
    p.(withdrawn := p.withdrawn + amount, deposited := p.deposited - amount, active := p.deposited - amount > 0.0)
  }

  function WithdrawStep(ps: Positions, id: nat, amount: real): Positions {
    if CanWithdraw(ps, id, amount) then ps[id := Withdrawn(ps[id], amount)] else ps
  }

  /** What a position earns of a fee pool. */
  function Fee(p: LpPosition, pool: real, liquidity: real): real
    requires liquidity != 0.0
  {
    pool * (p.deposited / liquidity)
  }

  /** A position after its share of a fee pool. */
  function Credited(p: LpPosition, pool: real, liquidity: real): LpPosition
    requires liquidity != 0.0
  {
    p.(feesEarned := p.feesEarned + Fee(p, pool, liquidity), poolShare := p.deposited / liquidity)
  }

  /** The positions after each of the listed ones has been credited. */
  function Earned(ps: Positions, lps: seq<nat>, pool: real, liquidity: real): Positions {
    if liquidity <= 0.0 then ps else
      map id | id in ps ::
        if id in lps then Credited(ps[id], pool, liquidity) else ps[id]
  }

  class LpTable {
    var positions: Positions

    constructor (ps: Positions)
      ensures positions == ps
    {
      positions := ps;
    }

    /** add_liquidity: a new row, active, nothing earned or withdrawn. */
    method AddLiquidity(id: nat, userId: nat, marketId: nat, amount: real, shares: real)
      requires id !in positions
      modifies this
      ensures positions == old(positions)[id := LpPosition(userId, marketId, amount, shares, 0.0, 0.0, true)]
    {
      positions := positions[id := LpPosition(userId, marketId, amount, shares, 0.0, 0.0, true)];
    }

    /** remove_liquidity; false stands for the missing row. */
    method RemoveLiquidity(id: nat, amount: real) returns (ok: bool)
      modifies this
      ensures ok == CanWithdraw(old(positions), id, amount)
      ensures positions == WithdrawStep(old(positions), id, amount)
    {
      if id !in positions || positions[id].deposited < amount {
        return false;
      }
      var p := positions[id];
      positions := positions[id := p.(withdrawn := p.withdrawn + amount, deposited := p.deposited - amount,
                                      active := if p.deposited - amount <= 0.0 then false else true)];
      return true;
    }

    method UpdateFeesEarnedAndShares(id: nat, fee: real, share: real)
      modifies this
      ensures positions == if id in old(positions)
                then old(positions)[id := old(positions)[id].(feesEarned := old(positions)[id].feesEarned + fee,
                                                              poolShare := share)]
                else old(positions)
    {
      if id in positions {
        positions := positions[id := positions[id].(feesEarned := positions[id].feesEarned + fee, poolShare := share)];
      }
    }

    /** The fee loop of a profitable sell, over the active positions as they were fetched. */
    method DistributeFees(lps: seq<nat>, fetched: Positions, liquidity: real, tradingFee: real)
      requires forall i, j :: 0 <= i < j < |lps| ==> lps[i] != lps[j]
      requires forall id :: id in lps ==> id in positions && id in fetched && fetched[id] == positions[id]
      modifies this
      ensures positions == Earned(old(positions), lps, 0.65 * tradingFee, liquidity)
    {
      var lpFeePool := tradingFee * 0.65;
      if liquidity > 0.0 && lps != [] {
        for i := 0 to |lps|
          invariant positions.Keys == old(positions).Keys
          invariant forall id :: id in positions && id !in lps[..i] ==> positions[id] == old(positions)[id]
          invariant forall id :: id in lps[..i] ==>
                      positions[id] == Credited(old(positions)[id], 0.65 * tradingFee, liquidity)
        {
          var lp := fetched[lps[i]];
          var share := lp.deposited / liquidity;
          var fee := lpFeePool * share;
          assert lps[..i + 1] == lps[..i] + [lps[i]] && lps[i] in lps && lps[i] !in lps[..i];
          assert fee == Fee(lp, 0.65 * tradingFee, liquidity);
          UpdateFeesEarnedAndShares(lps[i], fee, share);
        }
        assert lps[..|lps|] == lps;
      }
    }
  }

  // ----- fees -----

  function Deposits(lps: seq<LpPosition>): real { SumBy(lps, (p: LpPosition) => p.deposited) }

  function FeesPaid(lps: seq<LpPosition>, pool: real, liquidity: real): real
    requires liquidity != 0.0
  {
    SumBy(lps, (p: LpPosition) => Fee(p, pool, liquidity))
  }

  lemma {:induction false} FeesProportional(lps: seq<LpPosition>, pool: real, liquidity: real)
    requires liquidity != 0.0
    ensures FeesPaid(lps, pool, liquidity) == pool * (Deposits(lps) / liquidity)
  {
    if lps != [] {
      FeesProportional(lps[1..], pool, liquidity);
      FeeAdds(pool, lps[0].deposited, Deposits(lps[1..]), liquidity);
    }
  }

  lemma FeeAdds(pool: real, a: real, b: real, liquidity: real)
    requires liquidity != 0.0
    ensures pool * ((a + b) / liquidity) == pool * (a / liquidity) + pool * (b / liquidity)
  {
    assert (a + b) / liquidity == a / liquidity + b / liquidity;
  }

  lemma FeeWithinPool(pool: real, sum: real, liquidity: real)
    requires pool >= 0.0 && 0.0 < liquidity && sum <= liquidity
    ensures pool * (sum / liquidity) <= pool
    ensures pool > 0.0 ==> (pool * (sum / liquidity) == pool <==> sum == liquidity)
  {
    var x := sum / liquidity;
    assert x * liquidity == sum;
    assert x <= 1.0 && (x == 1.0 <==> sum == liquidity);
    assert pool * (1.0 - x) >= 0.0;
    if pool > 0.0 && x < 1.0 {
      assert pool * (1.0 - x) > 0.0;
    }
  }

  /** Positions whose deposits stay within the liquidity earn at most 65% of the trading fee together, and for a
      positive fee all of it exactly when the deposits are the liquidity. */
  lemma LpFeesWithinShare(lps: seq<LpPosition>, tradingFee: real, liquidity: real)
    requires tradingFee >= 0.0 && liquidity > 0.0 && Deposits(lps) <= liquidity
    ensures FeesPaid(lps, 0.65 * tradingFee, liquidity) <= 0.65 * tradingFee
    ensures tradingFee > 0.0 ==>
              (FeesPaid(lps, 0.65 * tradingFee, liquidity) == 0.65 * tradingFee <==> Deposits(lps) == liquidity)
  {
    FeesProportional(lps, 0.65 * tradingFee, liquidity);
    FeeWithinPool(0.65 * tradingFee, Deposits(lps), liquidity);
  }

  // ----- the fee column -----

  function FeesOf(ps: Positions, id: nat): real { if id in ps then ps[id].feesEarned else 0.0 }

  ghost function AllFees(ps: Positions): real { Total(ps.Keys, (id: nat) => FeesOf(ps, id)) }

  function Rows(ps: Positions, lps: seq<nat>): seq<LpPosition>
    requires forall i :: 0 <= i < |lps| ==> lps[i] in ps
  {
    if lps == [] then [] else [ps[lps[0]]] + Rows(ps, lps[1..])
  }

  function FeeOf(ps: Positions, id: nat, pool: real, liquidity: real): real
    requires liquidity != 0.0
  {
    if id in ps then Fee(ps[id], pool, liquidity) else 0.0
  }

  lemma {:induction false} RowsFees(ps: Positions, lps: seq<nat>, pool: real, liquidity: real)
    requires liquidity != 0.0 && forall i :: 0 <= i < |lps| ==> lps[i] in ps
    ensures FeesPaid(Rows(ps, lps), pool, liquidity) == SumBy(lps, (id: nat) => FeeOf(ps, id, pool, liquidity))
  {
    if lps != [] {
      RowsFees(ps, lps[1..], pool, liquidity);
      assert Rows(ps, lps)[1..] == Rows(ps, lps[1..]);
    }
  }

  /** A distribution raises the fees earned, over all positions, by exactly the fees paid. */
  lemma EarnedRaisesFees(ps: Positions, lps: seq<nat>, pool: real, liquidity: real)
    requires liquidity > 0.0
    requires forall i, j :: 0 <= i < j < |lps| ==> lps[i] != lps[j]
    requires forall i :: 0 <= i < |lps| ==> lps[i] in ps
    ensures AllFees(Earned(ps, lps, pool, liquidity)) == AllFees(ps) + FeesPaid(Rows(ps, lps), pool, liquidity)
  {
    var after := Earned(ps, lps, pool, liquidity);
    var listed: set<nat> := set id | id in lps;
    var fee := (id: nat) => FeeOf(ps, id, pool, liquidity);
    var paid := (id: nat) => if id in listed then FeeOf(ps, id, pool, liquidity) else 0.0;
    assert after.Keys == ps.Keys;
    TotalAdds(ps.Keys, (id: nat) => FeesOf(after, id), (id: nat) => FeesOf(ps, id), paid);
    forall id | id in listed
      ensures id in ps
    {
      var i :| 0 <= i < |lps| && lps[i] == id;
    }
    TotalSupport(ps.Keys, listed, paid);
    TotalCongruent(listed, paid, fee);
    SumByIsTotal(lps, fee);
    RowsFees(ps, lps, pool, liquidity);
  }

  /** Every listed position earns its part of the pool by its deposit and has that part recorded as its share; no
      other position is touched, and no deposit. */
  lemma EarnedByDeposit(ps: Positions, lps: seq<nat>, pool: real, liquidity: real, id: nat)
    requires liquidity > 0.0 && id in ps
    ensures var after := Earned(ps, lps, pool, liquidity);
            && after.Keys == ps.Keys
            && (id !in lps ==> after[id] == ps[id])
            && (id in lps ==>
                  && (after[id].feesEarned - ps[id].feesEarned) * liquidity == pool * ps[id].deposited
                  && after[id].poolShare * liquidity == ps[id].deposited
                  && after[id] == ps[id].(feesEarned := after[id].feesEarned, poolShare := after[id].poolShare))
  {
    if id in lps {
      PartTimesWhole(pool, ps[id].deposited, liquidity);
    }
  }

  lemma PartTimesWhole(pool: real, deposit: real, liquidity: real)
    requires liquidity > 0.0
    ensures (pool * (deposit / liquidity)) * liquidity == pool * deposit
    ensures (deposit / liquidity) * liquidity == deposit
  {
    var x := deposit / liquidity;
    assert x * liquidity == deposit;
    assert (pool * x) * liquidity == pool * (x * liquidity);
  }

  // ----- deposits -----

  /** What a position has deposited in a market. */
  function DepositIn(ps: Positions, id: nat, marketId: nat): real {
    if id in ps && ps[id].marketId == marketId then ps[id].deposited else 0.0
  }

  ghost function MarketDeposits(ps: Positions, marketId: nat): real {
    Total(ps.Keys, (id: nat) => DepositIn(ps, id, marketId))
  }

  /** A position is active exactly while its deposit is positive. */
  ghost predicate Regular(ps: Positions) {
    forall id :: id in ps ==> ps[id].deposited >= 0.0 && (ps[id].active <==> ps[id].deposited > 0.0)
  }

  lemma DepositsNonNegative(ps: Positions, marketId: nat)
    requires Regular(ps)
    ensures MarketDeposits(ps, marketId) >= 0.0
  {
    TotalBounds(ps.Keys, (id: nat) => DepositIn(ps, id, marketId));
  }

  /** get_lps_by_market: the active positions of a market, each once, in whatever order. */
  ghost predicate IsActiveList(ps: Positions, marketId: nat, lps: seq<nat>) {
    && (forall i, j :: 0 <= i < j < |lps| ==> lps[i] != lps[j])
    && (forall id :: id in lps <==> id in ps && ps[id].marketId == marketId && ps[id].active)
  }

  lemma {:induction false} RowsDeposits(ps: Positions, lps: seq<nat>, marketId: nat)
    requires forall i :: 0 <= i < |lps| ==> lps[i] in ps && ps[lps[i]].marketId == marketId
    ensures Deposits(Rows(ps, lps)) == SumBy(lps, (id: nat) => DepositIn(ps, id, marketId))
  {
    if lps != [] {
      RowsDeposits(ps, lps[1..], marketId);
      assert Rows(ps, lps)[1..] == Rows(ps, lps[1..]);
    }
  }

  /** The active positions hold all deposits of their market. */
  lemma ActiveDeposits(ps: Positions, marketId: nat, lps: seq<nat>)
    requires Regular(ps) && IsActiveList(ps, marketId, lps)
    requires forall i :: 0 <= i < |lps| ==> lps[i] in ps
    ensures Deposits(Rows(ps, lps)) == MarketDeposits(ps, marketId)
  {
    var f := (id: nat) => DepositIn(ps, id, marketId);
    assert forall i :: 0 <= i < |lps| ==> lps[i] in lps;
    RowsDeposits(ps, lps, marketId);
    SumByIsTotal(lps, f);
    TotalSupport(ps.Keys, (set id | id in lps), f);
  }
}
