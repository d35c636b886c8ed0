/** The two liquidity scenarios of the test suite, played against the pair
    model: what the tests expect is what the model produces. */
module LiquidityTests {
  import opened NewtonSqrt
  import opened Pool

  /** One ether in wei, the unit `parseEther` scales by. */
  const Ether: nat := 1_000_000_000_000_000_000

  /** First deposit into an empty pair: total supply equals the test helper's
      `sqrt(amountA * amountB)` and the reserves are the amounts, except for a
      product of 2, where the helper predicts 2 and the pair mints 1. */
  method MintsSqrtOnFirstAdd(amountA: nat, amountB: nat)
    returns (supply: nat, expectedLiquidity: nat, reserveA: nat, reserveB: nat)
    requires amountA > 0 && amountB > 0
    ensures reserveA == amountA && reserveB == amountB
    ensures supply == FloorSqrt(amountA * amountB)
    ensures amountA * amountB != 2 ==> IsFloorSqrt(amountA * amountB, expectedLiquidity)
    ensures amountA * amountB != 2 ==> supply == expectedLiquidity
    ensures amountA * amountB == 2 ==> supply == 1 && expectedLiquidity == 2
  {
    var pair := new DEXPair();
    var minted := pair.AddLiquidity(amountA, amountB);
    var expected := amountA * amountB;
    expectedLiquidity := Sqrt(expected);
    supply, reserveA, reserveB := pair.totalSupply, pair.reserveA, pair.reserveB;
    if expected != 2 {
      FloorSqrtUnique(expected, expectedLiquidity);
    } else {
      FloorSqrtUnique(2, 1);
    }
  }

  /** A second deposit after a first one raises the total supply by exactly
      the smaller of the two rounded-down proportional shares. */
  method MintsProportionalOnSubsequentAdd(amountA1: nat, amountB1: nat, amountA2: nat, amountB2: nat)
    returns (supply1: nat, expected: nat, supply2: nat)
    requires amountA1 > 0 && amountB1 > 0 && amountA2 > 0 && amountB2 > 0
    ensures supply1 == FloorSqrt(amountA1 * amountB1)
    ensures expected == ProportionalMint(amountA2, amountB2, amountA1, amountB1, supply1)
    ensures supply2 == supply1 + expected
    ensures expected * amountA1 <= amountA2 * supply1 && expected * amountB1 <= amountB2 * supply1
  {
    var pair := new DEXPair();
    var minted1 := pair.AddLiquidity(amountA1, amountB1);
    supply1 := pair.totalSupply;
    var reserveA1, reserveB1 := pair.reserveA, pair.reserveB;
    var minted2 := pair.AddLiquidity(amountA2, amountB2);
    var shareA := amountA2 * supply1 / reserveA1;
    var shareB := amountB2 * supply1 / reserveB1;
    expected := if shareA < shareB then shareA else shareB;
    supply2 := pair.totalSupply;
  }

  /** The figures of both tests: 100 ether on each side mints 100 ether of LP
      units, and 50 more ether on each side mints 50 more. */
  lemma EtherFigures()
    ensures FloorSqrt((100 * Ether) * (100 * Ether)) == 100 * Ether
    ensures ProportionalMint(50 * Ether, 50 * Ether, 100 * Ether, 100 * Ether, 100 * Ether) == 50 * Ether
  {
    FloorSqrtOfSquare(100 * Ether);
  }
}
