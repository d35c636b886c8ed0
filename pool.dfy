/** The liquidity side of a two-token pair as the tests observe it: the two
    reserves and the LP token's total supply, and the deposit transition. */
module Pool {
  import opened Arith
  import opened NewtonSqrt

  /** LP units issued for a deposit into a funded pool: the smaller of the two
      proportional shares, each rounded down. It is the largest issuance that
      is backed on both sides (see ProportionalMintIsLargest). */
  function ProportionalMint(amountA: nat, amountB: nat, reserveA: nat, reserveB: nat, supply: nat): (m: nat)
    requires reserveA > 0 && reserveB > 0
    ensures m * reserveA <= amountA * supply && m * reserveB <= amountB * supply
    ensures (m + 1) * reserveA > amountA * supply || (m + 1) * reserveB > amountB * supply
  {
    var shareA := amountA * supply / reserveA;
    var shareB := amountB * supply / reserveB;
    FloorDivBounds(amountA * supply, reserveA);
    FloorDivBounds(amountB * supply, reserveB);
    if shareA < shareB then
      MulMonotone(shareA, shareB, reserveB);
      shareA
    else
      MulMonotone(shareB, shareA, reserveA);
      shareB
  }

  /** Any issuance `k` backed on both sides is at most what ProportionalMint gives. */
  lemma ProportionalMintIsLargest(amountA: nat, amountB: nat, reserveA: nat, reserveB: nat, supply: nat, k: nat)
    requires reserveA > 0 && reserveB > 0
    requires k * reserveA <= amountA * supply && k * reserveB <= amountB * supply
    ensures k <= ProportionalMint(amountA, amountB, reserveA, reserveB, supply)
  {
    var m := ProportionalMint(amountA, amountB, reserveA, reserveB, supply);
    if k > m {
      MulMonotone(m + 1, k, reserveA);
      MulMonotone(m + 1, k, reserveB);
    }
  }

  /** A proportional deposit never dilutes existing holders: the reserve per
      LP unit does not drop on either side. */
  lemma ProportionalMintNeverDilutes(amountA: nat, amountB: nat, reserveA: nat, reserveB: nat, supply: nat)
    requires reserveA > 0 && reserveB > 0
    ensures var m := ProportionalMint(amountA, amountB, reserveA, reserveB, supply);
            reserveA * (supply + m) <= (reserveA + amountA) * supply &&
            reserveB * (supply + m) <= (reserveB + amountB) * supply
  {
    var m := ProportionalMint(amountA, amountB, reserveA, reserveB, supply);
    assert reserveA * (supply + m) == reserveA * supply + m * reserveA;
    assert (reserveA + amountA) * supply == reserveA * supply + amountA * supply;
    assert reserveB * (supply + m) == reserveB * supply + m * reserveB;
    assert (reserveB + amountB) * supply == reserveB * supply + amountB * supply;
  }

  /** The pair under test: its reserves and the total supply of its LP token. */
  class DEXPair {
    var reserveA: nat
    var reserveB: nat
    var totalSupply: nat

    /** Either everything is zero or everything is positive. */
    ghost predicate Valid()
      reads this
    {
      (reserveA == 0 <==> totalSupply == 0) && (reserveB == 0 <==> totalSupply == 0)
    }

    /** A freshly created pair is empty. */
    constructor ()
      ensures Valid()
      ensures reserveA == 0 && reserveB == 0 && totalSupply == 0
    {
      reserveA, reserveB, totalSupply := 0, 0, 0;
    }

    /** Deposit `amountA` and `amountB`. Into an empty pool this mints the floor
        root of `amountA * amountB`; otherwise ProportionalMint of the deposit.
        Both reserves grow by the full amounts deposited. */
    method AddLiquidity(amountA: nat, amountB: nat) returns (liquidity: nat)
      requires Valid()
      requires amountA > 0 && amountB > 0
      modifies this
      ensures Valid()
      ensures old(totalSupply) == 0 ==> liquidity == FloorSqrt(amountA * amountB) && liquidity > 0
      ensures old(totalSupply) > 0 ==>
                liquidity == ProportionalMint(amountA, amountB, old(reserveA), old(reserveB), old(totalSupply))
      ensures totalSupply == old(totalSupply) + liquidity
      ensures reserveA == old(reserveA) + amountA && reserveB == old(reserveB) + amountB
    {
      if totalSupply == 0 {
        MulMonotone(1, amountA, amountB);
        liquidity := ISqrt(amountA * amountB);
      } else {
        liquidity := ProportionalMint(amountA, amountB, reserveA, reserveB, totalSupply);
      }
      reserveA := reserveA + amountA;
      reserveB := reserveB + amountB;
      totalSupply := totalSupply + liquidity;
    }
  }
}
