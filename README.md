# DEX pair liquidity: a Dafny model

The repository is a small two-token exchange: a factory creates one pair
contract per token pair, and each pair has an LP (liquidity-provider) token.
The logic that is visible is in the liquidity test suite `test/DEXPair.js`.
This project models three parts of it:

- the test helper `sqrt`, Newton's integer square root on unbounded integers
  (`NewtonSqrt`). It is a method with the source's `while` loop, proved
  against a separate reference definition of the floor square root;
- the `addLiquidity` transition of a pair: what the two tests fix, plus
  the choices listed under "## Left out" (`Pool`). It is a class with the reserves and the LP total supply that the
  tests read back;
- the ordering of the two token addresses before the pair is looked up
  (`TokenOrder`).

The two `it` blocks of the test suite become client methods
(`LiquidityTests`). Their postconditions are the tests' `expect` lines, stated
for all positive deposits rather than only the 100/50 ether figures. The
exception is a first deposit whose product is 2: there the helper predicts 2
and the pair mints 1 (see "## Findings").

Quantities are `nat`, because the tests use unbounded `BigInt`. `BigInt`
division on non-negative values rounds down, like Dafny's `/` on `nat`.

## Model

| member | source | states |
|---|---|---|
| NewtonSqrt.Sqrt | test/DEXPair.js:4-13 | the result never exceeds the input; `sqrt(0) == 0`; for every input except 2 the result `z` satisfies `z*z <= value < (z+1)*(z+1)`; for 2 the loop is skipped and 2 is returned; the loop terminates with `z` as its variant |
| NewtonSqrt.SqrtOfSquare | test/DEXPair.js:49-56 | the helper `sqrt` is exact on perfect squares: `sqrt(k*k) == k`, which the 100-ether test relies on |
| NewtonSqrt.SqrtOfTwoOvershoots | test/DEXPair.js:6-8 | for input 2 the helper returns 2, which is not the floor root; the floor root of 2 is 1 |
| NewtonSqrt.ISqrt | test/DEXPair.js:4-13 | corrected square root (loop only for inputs above 3): the floor root for every input, equal to `FloorSqrt` |
| NewtonSqrt.FloorSqrt | test/DEXPair.js:4-13 | reference floor square root, defined without Newton's method: `r*r <= n < (r+1)*(r+1)` |
| NewtonSqrt.FloorSqrtUnique | test/DEXPair.js:4-13 | any `r` with `r*r <= n < (r+1)*(r+1)` is `FloorSqrt(n)`, so the floor-root postcondition fixes the result |
| NewtonSqrt.FloorSqrtOfSquare | test/DEXPair.js:49-56 | on a perfect square the root is exact: `FloorSqrt(k*k) == k` |
| NewtonSqrt.InitialGuessAboveRoot | test/DEXPair.js:6-7 | both starting values, `value` and `value/2 + 1`, are at or above the floor root |
| NewtonSqrt.NewtonStepAboveRoot | test/DEXPair.js:10 | a step `(value/x + x)/2` from any positive `x` never drops below the floor root (the loop invariant) |
| NewtonSqrt.NewtonStepDescends | test/DEXPair.js:8-11 | from any iterate whose square exceeds `value`, the next iterate is strictly smaller, so the loop stops only at the root |
| Pool.ProportionalMint | test/DEXPair.js:76-78 | the smaller of the two rounded-down shares; it is backed on both sides (`m*reserveA <= amountA*supply`, same for B), and one more unit would not be |
| Pool.ProportionalMintIsLargest | test/DEXPair.js:76-78 | every issuance backed on both sides is at most `ProportionalMint`, so it is the largest such issuance |
| Pool.ProportionalMintNeverDilutes | test/DEXPair.js:74-79 | after a proportional deposit, the reserve per LP unit does not drop on either side |
| Pool.DEXPair.constructor | test/DEXPair.js:31-37 | the pair the fixture obtains is empty: both reserves and the LP supply are 0 |
| Pool.DEXPair.AddLiquidity | test/DEXPair.js:46-80 | first deposit mints the floor root of `amountA*amountB` (at least 1) and sets the reserves to the amounts; later deposits mint exactly `ProportionalMint`; the supply grows by exactly the minted amount and the reserves by the deposited amounts; all-zero-or-all-positive is preserved |
| LiquidityTests.MintsSqrtOnFirstAdd | test/DEXPair.js:46-59 | after a first deposit the reserves equal the amounts and the total supply is `FloorSqrt(amountA*amountB)`; whenever the product is not 2 the helper's `sqrt` is that floor root too, so the test's assertion holds; for a product of 2 the helper says 2 and the pair mints 1 |
| LiquidityTests.MintsProportionalOnSubsequentAdd | test/DEXPair.js:61-80 | after two deposits, `supply1` is the floor root of the first product, the test's `expected` is `ProportionalMint` of the second deposit against the first reserves and `supply1`, it is backed on both sides, and the supply is `supply1 + expected` |
| LiquidityTests.EtherFigures | test/DEXPair.js:49-73 | the test figures: 100 ether per side mints 100 ether of LP units, and 50 ether per side afterwards mints 50 ether |
| TokenOrder.LowerChar | test/DEXPair.js:33 | per-character `toLowerCase`: the result is never an upper-case ASCII letter, `A`-`Z` map to the matching `a`-`z`, every other character is unchanged |
| TokenOrder.Less | test/DEXPair.js:33 | JavaScript string `<`: `a < b` exactly when there is a position up to which the two agree and at which `a` ends while `b` goes on, or `a` holds the smaller character |
| TokenOrder.ToLower | test/DEXPair.js:33 | lower-casing keeps the length and lower-cases each character |
| TokenOrder.LessIrreflexive | test/DEXPair.js:33 | string `<` is irreflexive |
| TokenOrder.LessAsymmetric | test/DEXPair.js:33 | string `<` is asymmetric |
| TokenOrder.LessTotal | test/DEXPair.js:33 | of two different strings one is `<` the other |
| TokenOrder.LessTransitive | test/DEXPair.js:33 | string `<` is transitive |
| TokenOrder.OrderPair | test/DEXPair.js:33 | the ordered pair holds the two given addresses, in one order or the other |
| TokenOrder.OrderPairCanonical | test/DEXPair.js:33 | for addresses that differ ignoring case, the smaller comes first and the pair is the same whichever order the arguments come in |
| TokenOrder.OrderPairSameAddress | test/DEXPair.js:33 | for addresses that are equal ignoring case, the pair is the arguments swapped |

## Findings

| source | as written | input that shows it | evidently intended | confidence | as-written member | corrected member |
|---|---|---|---|---|---|---|
| test/DEXPair.js:6-8 | the loop starts from `z = value`, `x = value/2 + 1` and runs only while `x < z`; for `value == 2` both are 2, so 2 is returned | `sqrt(2n)` returns `2n`, while the floor root is 1; a first deposit of 1 and 2 units would be predicted to mint 2 | the floor square root for every input: the usual Babylonian form runs the loop only for inputs above 3 and returns 1 for 1 to 3 | not executed; high | NewtonSqrt.SqrtOfTwoOvershoots | NewtonSqrt.ISqrt |

The helper is meant to give the floor square root. It is named `sqrt`, the
test that uses it is called "mints sqrt(amountA * amountB) on first add"
(test/DEXPair.js:46), and its result is the expected LP supply
(test/DEXPair.js:55-56). The usual Babylonian form of this loop also runs
only for inputs above 3. The helper differs from the floor root only at 2. `NewtonSqrt.Sqrt` follows the code.
`Pool.DEXPair.AddLiquidity` mints with the corrected `NewtonSqrt.ISqrt`.
`LiquidityTests.MintsSqrtOnFirstAdd` shows that the two agree on every
first-deposit product except 2.

## Left out

- The pair and LP token contracts (`DEXPair`, `LPToken`, `DEXFactory`,
  `AITradingPool`) are not part of this model; their code is not available.
  The tests fix the LP supply after each deposit and the reserves after the
  first deposit. Beyond that, the pair model makes choices of its own: the
  reserves after a later deposit, no revert on a zero mint, and the corrected
  root for a product of 2 (see "## Findings").
- Swap, liquidity removal, fees, the factory's token allow-list, `getPair` and
  `getLPToken`: no code for them is available, so no behaviour is invented.
- Pool.DEXPair.AddLiquidity: requires both amounts to be positive; the contract's
  reverts (zero amounts, zero minted liquidity) are not visible, and the tests
  only deposit positive amounts. A later deposit adds the full amounts to the
  reserves, which the tests never read back. A later deposit that mints 0 is
  accepted rather than reverted: it still grows both reserves.
- Pool.DEXPair: the LP token is modelled only by its total supply. Per-holder
  balances, `mint` and `approve`/`transferFrom` of the underlying tokens are
  not modelled.
- 256-bit overflow, reverts, gas and transaction mining (`tx.wait`) are left
  out, because the tests compute with unbounded `BigInt`.
- The deployment fixture (`deployPairFixture`: signers, `MockERC20` deployment
  and minting, approvals, address look-ups) is asynchronous calls into the
  test framework. Only its outcome is modelled: an empty pair (the
  constructor) for a canonically ordered token pair (`TokenOrder.OrderPair`).
- TokenOrder.ToLower: lower-cases only ASCII letters, not full Unicode case
  mapping. String `<` compares code points rather than UTF-16 code units.
  The two agree on hexadecimal addresses.
- The deployment script and the network configuration are I/O and settings
  with no logic.
