# Change making with and without a cash inventory

This project models the `Transactions` class of a small PHP cash register
and proves properties of the model in Dafny. The class has two public
operations:

- `getChange` works out the change for a purchase from an unlimited supply of
  bills. It validates the inputs, sums what the customer tendered, rejects
  short payment, sorts the denominations largest first and makes one greedy
  pass over them. It reports an error if the pass cannot pay out the exact
  amount owed.
- `getChangeWithInventory` does the same from a finite cash inventory (a map
  from denomination to bill count) that the caller passes by reference. The
  pass hands out, of each denomination, no more bills than the till holds.
  The working copy is replenished with the tendered bills. The caller's
  inventory is replaced by that copy only when the exact change was found.

The helpers `validateInputs`, `calculateTotalAmountGiven`,
`updateCashInventory` and `updateInventory` are modelled as well.

Layout:

- `money.dfy` (module `Money`) holds the vocabulary the change makers are stated in:
  - sums
  - the value of a bag of bills
  - a descending sort (PHP's `rsort`)
  - the key order of `krsort`
  - bill tallies
  - linear definitions of quotient, remainder and product, with lemmas tying them to `/`, `%` and `*`
- `transactions.dfy` (module `Transactions`) holds the two change makers and their helpers:
  - each loop of the source is a method
  - each method is proved against a reference function (`Greedy` for the unlimited pass, `Dispense` for the inventory pass, `Restock` for replenishing)
  - the properties the class promises are proved as lemmas about those functions
- `transactions_cases.dfy` (module `TransactionsCases`) holds worked examples:
  - the scenarios of the repository's test suite
  - a few edge cases of the code

A by-reference inventory is modelled as an input and an output. A method
takes the inventory the caller holds, and it returns the result together
with the inventory the caller holds afterwards. When the call throws, the
caller's inventory is handed back unchanged. An exception is an `Err` value
that names the error. The three errors are:

- the `InvalidArgumentException` of validation, with which argument it is about
- "Insufficient amount."
- "The exact change cannot be made …"

Two edge cases of the code are kept as they are:

- An exact payment to `getChangeWithInventory` returns before `updateCashInventory` (app/Transactions.php:125-127). The tendered bills are therefore not added to the inventory (`ExactPaymentNotRestocked`).
- A denomination no larger than what is owed is always written into the change, even when its stock is 0 (app/Transactions.php:142-144). Such an entry has count 0 (`DispenseRecordsTake`, `ZeroStockRecorded`).

## Model

| member | source | states |
|---|---|---|
| Transactions.ValidateInputs | app/Transactions.php:172-188 | Inputs pass exactly when the tendered value is an integer or an array and the denominations are not empty. A malformed tendered value is reported before an empty denomination list. |
| Transactions.CalculateTotalAmountGiven | app/Transactions.php:190-205 | A single amount comes back unchanged. A list comes back as the sum of its elements, and the empty list gives 0. |
| Money.SortDescending | app/Transactions.php:42 | The sorted list is a permutation of the input (same multiset) and is in descending order. |
| Transactions.SortedPositive | app/Transactions.php:42 | Sorting keeps exactly the same denominations, all of them positive. |
| Transactions.GreedyPass | app/Transactions.php:55-69 | The loop records exactly the change and leaves exactly the remainder of a single largest-first pass that stops once nothing is owed. |
| Transactions.GreedyBounds | app/Transactions.php:55-69 | Every recorded denomination is one of the denominations, is no larger than the amount owed, and gets at least one bill. The remainder is between 0 and the amount owed, and it is below every denomination. |
| Transactions.GreedyAccounts | app/Transactions.php:55-69 | The value of the recorded bills plus the remainder equals the amount owed. |
| Transactions.GetChange | app/Transactions.php:25-78 | `getChange` yields the outcome of the reference definition. On success the inputs were well formed, the change is worth exactly the amount tendered minus the cost, and every entry is a given denomination with at least one bill. |
| Transactions.ChangeOutcomeOrder | app/Transactions.php:25-50 | Errors come in the source's order: malformed tendered value, then empty denominations, then short payment. Exact payment gives empty change. |
| Transactions.ChangeOutcomeOwed | app/Transactions.php:42-74 | When more than the cost is tendered, the result is the greedy pass over the sorted denominations for the difference, and the pass fails exactly when something is left owed. |
| Transactions.GreedyOutcomeExact | app/Transactions.php:55-74 | Change from a pass that leaves nothing owed is worth exactly the amount owed, and it uses given denominations only, each at least once. |
| Transactions.ChangeOutcomeExact | app/Transactions.php:45-77 | Any successful `getChange` had a well-formed tendered value, and its change is worth exactly the tendered total minus the cost. |
| Transactions.GreedyWithUnit | app/Transactions.php:55-69 | With a denomination of 1, the unlimited pass always leaves nothing owed. |
| Transactions.UnitNeverShort | app/Transactions.php:71-74 | With a denomination of 1, `getChange` never fails for lack of denominations. |
| Transactions.DispenseTakesMin | app/Transactions.php:133-148 | At a denomination no larger than what is owed, the pass takes the stock or the bills owed, whichever is smaller. What is still owed drops by the denomination times the bills taken. |
| Transactions.DispenseRecordsTake | app/Transactions.php:132-148 | A denomination no larger than what is owed always gets an entry in the change, with count min(stock, owed div denomination). This holds when its stock is 0, so the entry's count is then 0. |
| Transactions.ShortStockLeavesOwed | app/Transactions.php:142-143 | Emptying a stock that falls short of the bills owed leaves a positive amount still owed, so the loop continues. |
| Transactions.DispenseBounds | app/Transactions.php:132-153 | Every recorded denomination is in the till and gets no more bills than its stock, and never a negative count when the stock is non-negative. What is left owed is never negative. |
| Transactions.DispenseAccounts | app/Transactions.php:132-153 | The value of the bills handed out plus what is left owed equals the amount owed. |
| Transactions.DispenseUnfold | app/Transactions.php:133-148 | The pass obeys the three branches of the loop body: enough stock, short stock, or a denomination too large. |
| Transactions.TakeEnough | app/Transactions.php:136-141 | The branch with enough stock records `owed div d` bills and continues with `owed mod d`. |
| Transactions.TakeStock | app/Transactions.php:142-147 | The branch with short stock records the whole stock and continues with the owed amount less its value. |
| Transactions.SkipLarger | app/Transactions.php:133 | A denomination larger than what is owed is passed over. |
| Transactions.WithdrawStep | app/Transactions.php:141-147 | Decrementing the working copy at a denomination not yet used gives the copy less the change recorded so far. |
| Transactions.DispenseOne | app/Transactions.php:132-151 | One turn of the loop either finishes the pass (nothing owed, copy less the change) or keeps the loop invariant for the next denomination. |
| Transactions.DispensePass | app/Transactions.php:132-153 | The loop records exactly the change and the remainder of the finite-stock pass, and it leaves the working copy equal to the inventory less that change. |
| Transactions.TillOrder | app/Transactions.php:116-132 | The loop visits every denomination of the inventory and no other, each once, in strictly descending order. |
| Transactions.UpdateInventory | app/Transactions.php:220-230 | `updateInventory` adds one bill of the amount. A missing entry starts at 1 and nothing else changes. |
| Transactions.UpdateCashInventory | app/Transactions.php:207-216 | `updateCashInventory` adds one bill per tendered amount: one for a single amount, or one per element for a list. |
| Transactions.UpdateEach | app/Transactions.php:209-212 | The loop over a list of tendered bills folds in each bill in turn. |
| Transactions.RestockCounts | app/Transactions.php:207-230 | Replenishing adds an entry for every tendered amount. Each count grows by the number of bills of that amount tendered, and no other entry changes. |
| Transactions.CommitEquation | app/Transactions.php:141-163 | Every new count equals the old count, minus the bills handed back, plus the bills tendered. The keys are the old ones plus the tendered amounts. |
| Transactions.InventoryOutcomeOrder | app/Transactions.php:105-127 | Errors come in the source's order: malformed tendered value, then empty inventory, then short payment. Exact payment gives empty change. |
| Transactions.InventoryChangeOwed | app/Transactions.php:122-158 | When more than the cost is tendered, the result is the finite-stock pass for the difference, and it fails exactly when something is left owed. |
| Transactions.InventoryChangeOk | app/Transactions.php:105-168 | A successful call had valid inputs and enough tendered. When the total equals the cost the change is empty, otherwise it is the pass's change. |
| Transactions.InventoryAtomic | app/Transactions.php:119-163 | A call that fails leaves the caller's inventory exactly as it was. |
| Transactions.PassOutcomeValue | app/Transactions.php:132-158 | Change from an inventory pass that leaves nothing owed is worth exactly the amount owed. |
| Transactions.PassOutcomeWithin | app/Transactions.php:132-148 | Change from an inventory pass takes only stocked denominations, never more bills than the stock, and never a negative count when the stock is not negative. |
| Transactions.InventoryChangeValue | app/Transactions.php:122-168 | Change handed back by a committing call is worth exactly the tendered total minus the cost. |
| Transactions.InventoryChangeWithin | app/Transactions.php:132-148 | A committing call never hands out more bills of a denomination than the till holds. |
| Transactions.InventoryCommit | app/Transactions.php:141-163 | After a committing call, each count is the old count minus the bills handed back plus the bills tendered. The keys are the old keys plus the tendered amounts. |
| Transactions.InventoryConserves | app/Transactions.php:141-163 | A committing call raises the till's total value by exactly the cost of the purchase. |
| Transactions.InventoryStaysStocked | app/Transactions.php:132-163 | When every count starts non-negative, every count stays non-negative, whatever the outcome. |
| Transactions.CommitsOwed | app/Transactions.php:156-163 | With valid inputs and more tendered than the cost, the inventory is committed exactly when the pass leaves nothing owed. |
| Transactions.InventoryOutcomeCases | app/Transactions.php:156-163 | A committing call leaves the caller the replenished working copy. Every other call leaves the inventory it was given. |
| Transactions.DispenseAndCommit | app/Transactions.php:132-163 | The pass followed by the commit yields the pass's outcome. The caller ends up with the replenished copy on success, otherwise the original inventory. |
| Transactions.Settle | app/Transactions.php:108-168 | After validation, the call yields exactly the reference outcome and inventory, and it leaves the inventory unchanged on every error. |
| Transactions.GetChangeWithInventory | app/Transactions.php:98-169 | `getChangeWithInventory` yields exactly the reference result and the reference inventory, and it leaves the inventory unchanged on every error. |
| Money.SortedKeys | app/Transactions.php:116 | The given integer keys, each exactly once, in strictly descending order. |
| Money.QuotRem | app/Transactions.php:134-137 | The linear quotient and remainder agree with `intdiv` and `%` on a non-negative amount and a positive denomination. |
| Money.TimesMul | app/Transactions.php:143 | The linear product agrees with multiplication. |
| TransactionsCases.ChangeForEighty | tests/TransactionsTest.php:37-50 | 80 tendered for a cost of 60 with denominations [100, 20, 50, 5] gives one 20. |
| TransactionsCases.ChangeRejectsMalformed | tests/TransactionsTest.php:8-15 | A tendered value that is neither an integer nor an array is an invalid argument. |
| TransactionsCases.ChangeRejectsShortPayment | tests/TransactionsTest.php:17-26 | 50 tendered for a cost of 100 is an insufficient amount. |
| TransactionsCases.ChangeRejectsNoDenominations | tests/TransactionsTest.php:28-35 | An empty denomination list is an invalid argument. |
| TransactionsCases.ChangeShortOfDenominations | app/Transactions.php:71-74 | 5 owed from denominations [20, 10] cannot be paid out, so the result is insufficient denominations. |
| TransactionsCases.InventoryShortOfDenominations | tests/TransactionsTest.php:54-63 | 100 tendered for 50 with one 100 and one 20 fails for lack of denominations and leaves the inventory unchanged. |
| TransactionsCases.InventoryRejectsShortPayment | tests/TransactionsTest.php:65-73 | 40 tendered for 50 is an insufficient amount and leaves the inventory unchanged. |
| TransactionsCases.FirstPurchase | tests/TransactionsTest.php:76-94 | 50 tendered for 20 gives one 20 and one 10, and the inventory becomes {100:5, 50:4, 20:3, 10:1}. |
| TransactionsCases.SecondPurchase | tests/TransactionsTest.php:96-112 | Then 200 tendered for 40 gives one 100, one 50 and one 10, and the inventory becomes {200:1, 100:4, 50:3, 20:3, 10:0}. |
| TransactionsCases.ZeroStockRecorded | app/Transactions.php:142-147 | 100 tendered for 40 from {50:0, 10:6} hands back six 10s, records the empty 50 with count 0, and leaves {100:1, 50:0, 10:0}. |
| TransactionsCases.SeveralBillsRestocked | app/Transactions.php:209-212 | The bills [20, 20, 10] tendered for 30 from {20:1, 10:1} give one 20 and leave {20:2, 10:2}, one more bill per tendered element. |
| TransactionsCases.ExactPaymentNotRestocked | app/Transactions.php:125-127 | An exact payment returns empty change and leaves the inventory as it was, without adding the tendered bill. |

## Left out

- The `echo` and `json_encode` output of both change makers is not modelled, because it is I/O that does not affect the result.
- The demo script after the class (app/Transactions.php:233-251) is not modelled, because it only calls the class with fixed values.
- The cost is a PHP `float`, but it is modelled as an integer, because floating point is not modelled. The amounts owed, the `intdiv` and `%` steps, and the `== 0` tests are therefore exact integer arithmetic.
- The PHP type checks are collapsed into one `Malformed` value of the tendered amount:
  - the `is_float` check on the cost cannot fail once the cost is a number
  - the `is_array` check on the denominations is implied by the parameter type
  - a list holding a non-integer element (app/Transactions.php:196-198) cannot be written with `seq<int>`, so that error is not modelled
- `krsort` sorts the caller's array in place (app/Transactions.php:116 and 166). The model keeps the inventory as a `map`, which has no order, so that reordering, which also happens on the error paths after line 116, is not visible. The loop's visiting order is modelled by `TillOrder`.
- Non-positive denominations and inventory keys are excluded by a precondition. On a 0 the source's `intdiv` throws `DivisionByZeroError` (app/Transactions.php:59, 134). A negative denomination always passes the `>=` guard (lines 57, 133), so the source records a non-positive bill count for it and goes on with the remainder. The test suite never supplies either kind. The class can still create one itself: `updateInventory` (lines 220-230) adds any tendered integer as a key, so a committed call with a tendered bill of 0 or less leaves an inventory that the next call's precondition rejects.
- Integers are unbounded in the model, and `calculateTotalAmountGiven` never fails in it. PHP integers are 64 bits wide. A tendered list whose sum ends above `PHP_INT_MAX` makes the `int` return at line 190 throw a `TypeError`. A sum that overflows part way (it becomes a float at line 199) and then comes back into range returns a rounded integer. The model sums such lists exactly.
- GetChange: the loop invariant is stated as an equation with the reference pass (`Greedy`), not as a running sum. The sum itself is given by `GreedyAccounts`, and by `DispenseAccounts` for the inventory pass.
- Transactions.Dispense computes with linear quotient, remainder and product functions (`Money.Quot`, `Money.Rem`, `Money.Times`). `Money.QuotRem` and `Money.TimesMul` prove that these equal `intdiv`, `%` and `*` on the operands that occur.
- The test suite (tests/TransactionsTest.php) is modelled as example lemmas only. PHPUnit itself is not modelled.
