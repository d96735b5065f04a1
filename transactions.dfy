/** The change makers of the `Transactions` class: change from an unlimited
    list of denominations, and change from a finite cash inventory that is
    replenished with the tendered bills and committed only on success. */
module Transactions {
  import opened Money

  /** What the customer hands over: one bill, several bills, or a value that
      is neither an integer nor an array. */
  datatype Tendered = Single(amount: int) | Several(amounts: seq<int>) | Malformed

  /** The argument an InvalidArgumentException complains about. */
  datatype Argument = AmountGiven | Denominations

  datatype Error =
    | InvalidArgument(argument: Argument)   // InvalidArgumentException
    | InsufficientAmount                    // "Insufficient amount."
    | InsufficientDenominations             // "The exact change cannot be made ..."

  datatype Result<T> = Ok(value: T) | Err(error: Error)

  datatype Check = Pass | Fail(error: Error)

  /** Denomination -> number of bills handed back. */
  type Change = map<int, int>

  /** Denomination -> number of bills in the till. */
  type Inventory = map<int, int>

  predicate Positive(ds: seq<int>) {
    forall i :: 0 <= i < |ds| ==> ds[i] > 0
  }

  predicate PositiveKeys(inventory: Inventory) {
    forall d :: d in inventory ==> d > 0
  }

  // ----- validation and summation -----

  /** The checks of `validateInputs`, in the source's order; `size` is the
      number of denominations or of inventory entries. */
  function ValidateInputs(given: Tendered, size: nat): (r: Check)
    ensures r == Pass <==> !given.Malformed? && size > 0
    ensures given.Malformed? ==> r == Fail(InvalidArgument(AmountGiven))
    ensures !given.Malformed? && size == 0 ==> r == Fail(InvalidArgument(Denominations))
  {
    if given.Malformed? then Fail(InvalidArgument(AmountGiven))
    else if size == 0 then Fail(InvalidArgument(Denominations))
    else Pass
  }

  /** The individual bills handed over. */
  function Bills(given: Tendered): seq<int>
    requires !given.Malformed?
  {
    match given
    case Single(a) => [a]
    case Several(amounts) => amounts
  }

  /** The total handed over. */
  function TotalGiven(given: Tendered): int
    requires !given.Malformed?
  {
    Sum(Bills(given))
  }

  /** `calculateTotalAmountGiven`: a single amount unchanged, a list summed. */
  method CalculateTotalAmountGiven(given: Tendered) returns (total: int)
    requires !given.Malformed?
    ensures given.Single? ==> total == given.amount
    ensures given.Several? ==> total == Sum(given.amounts)
    ensures given == Several([]) ==> total == 0
    ensures total == TotalGiven(given)
  {
    match given
    case Single(a) =>
      assert [a][..0] == [];
      assert Sum([a]) == a;
      total := a;
    case Several(amounts) =>
      total := 0;
      for i := 0 to |amounts|
        invariant total == Sum(amounts[..i])
      {
        assert amounts[..i + 1][..i] == amounts[..i];
        total := total + amounts[i];
      }
      assert amounts[..|amounts|] == amounts;
  }

  // ----- the unlimited-supply pass of getChange -----

  /** One descending pass over `ds`, taking `owed / d` bills of every `d`
      not above what is still owed and stopping once nothing is owed.
      Yields the recorded change and what is left over. */
  function Greedy(ds: seq<int>, owed: int): (Change, int)
    requires Positive(ds)
    decreases |ds|
  {
    if ds == [] || owed == 0 then (map[], owed)
    else if owed >= ds[0] then
      var next := Greedy(ds[1..], owed % ds[0]);
      (map[ds[0] := owed / ds[0]] + next.0, next.1)
    else Greedy(ds[1..], owed)
  }

  /** Every recorded denomination is one of `ds`, not above the amount owed,
      with at least one bill; what is left is below every denomination. */
  lemma {:induction false} GreedyBounds(ds: seq<int>, owed: int)
    requires Positive(ds) && owed >= 0
    ensures var (change, left) := Greedy(ds, owed);
      && 0 <= left <= owed
      && (forall i :: 0 <= i < |ds| ==> left < ds[i])
      && (forall k :: k in change ==> k in ds && 1 <= change[k] && k <= owed)
    decreases |ds|
  {
    if ds != [] && owed != 0 {
      var d := ds[0];
      assert forall i :: 1 <= i < |ds| ==> ds[i] == ds[1..][i - 1];
      if owed >= d {
        GreedyBounds(ds[1..], owed % d);
        var (change, left) := Greedy(ds, owed);
        forall k | k in change ensures k in ds && 1 <= change[k] && k <= owed {
          if k != d {
            assert k in Greedy(ds[1..], owed % d).0;
          }
        }
      } else {
        GreedyBounds(ds[1..], owed);
      }
    }
  }

  /** The bills recorded plus what is left add up to what was owed. */
  lemma {:induction false} GreedyAccounts(ds: seq<int>, owed: int)
    requires Positive(ds) && owed >= 0
    ensures Value(Greedy(ds, owed).0) + Greedy(ds, owed).1 == owed
    decreases |ds|
  {
    if ds == [] || owed == 0 {
      WorthZero({});
    } else if owed >= ds[0] {
      var d := ds[0];
      var next := Greedy(ds[1..], owed % d);
      assert Greedy(ds, owed) == (map[d := owed / d] + next.0, next.1);
      GreedyAccounts(ds[1..], owed % d);
      GreedyBounds(ds[1..], owed % d);
      assert d !in next.0;
      ValueInsert(next.0, d, owed / d);
      DivMod(owed, d);
    } else {
      GreedyAccounts(ds[1..], owed);
    }
  }

  /** The outcome of `getChange`. */
  function ChangeOutcome(given: Tendered, cost: int, denominations: seq<int>): Result<Change>
    requires Positive(denominations)
  {
    match ValidateInputs(given, |denominations|)
    case Fail(e) => Err(e)
    case Pass =>
      var total := TotalGiven(given);
      if total < cost then Err(InsufficientAmount)
      else if total == cost then Ok(map[])
      else GreedyOutcome(denominations, total - cost)
  }

  /** The unlimited pass over the denominations, largest first, for a positive
      amount owed: the change it records when that leaves nothing owed. */
  function GreedyOutcome(denominations: seq<int>, owed: int): Result<Change>
    requires Positive(denominations)
  {
    SortedPositive(denominations);
    var pass := Greedy(SortDescending(denominations), owed);
    if pass.1 != 0 then Err(InsufficientDenominations) else Ok(pass.0)
  }

  lemma SortedPositive(ds: seq<int>)
    requires Positive(ds)
    ensures Positive(SortDescending(ds))
    ensures forall d :: d in SortDescending(ds) <==> d in ds
  {
    var sorted := SortDescending(ds);
    forall d ensures d in sorted <==> d in ds {
      assert d in sorted <==> d in multiset(sorted);
      assert d in ds <==> d in multiset(ds);
    }
    forall i | 0 <= i < |sorted| ensures sorted[i] > 0 {
      assert sorted[i] in ds;
    }
  }

  /** The error cases of `getChange`, in the source's order: the tendered
      amount's type, then an empty denomination list, then too little paid;
      paying exactly the cost yields no change. */
  lemma ChangeOutcomeOrder(given: Tendered, cost: int, denominations: seq<int>)
    requires Positive(denominations)
    ensures given.Malformed? ==> ChangeOutcome(given, cost, denominations) == Err(InvalidArgument(AmountGiven))
    ensures !given.Malformed? && denominations == [] ==>
      ChangeOutcome(given, cost, denominations) == Err(InvalidArgument(Denominations))
    ensures !given.Malformed? && denominations != [] && TotalGiven(given) < cost ==>
      ChangeOutcome(given, cost, denominations) == Err(InsufficientAmount)
    ensures !given.Malformed? && denominations != [] && TotalGiven(given) == cost ==>
      ChangeOutcome(given, cost, denominations) == Ok(map[])
  {
  }

  /** With inputs that validate and more tendered than the cost, the result is
      that of the unlimited pass for the difference. */
  lemma ChangeOutcomeOwed(given: Tendered, cost: int, denominations: seq<int>)
    requires Positive(denominations) && !given.Malformed? && denominations != [] && TotalGiven(given) > cost
    ensures ChangeOutcome(given, cost, denominations) == GreedyOutcome(denominations, TotalGiven(given) - cost)
  {
  }

  /** Change recorded by an unlimited pass that leaves nothing owed is worth
      what was owed and consists of given denominations, at least one bill of
      each. */
  lemma GreedyOutcomeExact(denominations: seq<int>, owed: int)
    requires Positive(denominations) && owed >= 0 && GreedyOutcome(denominations, owed).Ok?
    ensures Value(GreedyOutcome(denominations, owed).value) == owed
    ensures forall k :: k in GreedyOutcome(denominations, owed).value ==>
      k in denominations && GreedyOutcome(denominations, owed).value[k] >= 1
  {
    SortedPositive(denominations);
    GreedyAccounts(SortDescending(denominations), owed);
    GreedyBounds(SortDescending(denominations), owed);
  }

  /** Change handed back by `getChange` is worth exactly the amount owed, and
      consists of given denominations, at least one bill of each. */
  lemma ChangeOutcomeExact(given: Tendered, cost: int, denominations: seq<int>)
    requires Positive(denominations)
    requires ChangeOutcome(given, cost, denominations).Ok?
    ensures !given.Malformed?
    ensures Value(ChangeOutcome(given, cost, denominations).value) == TotalGiven(given) - cost
    ensures forall k :: k in ChangeOutcome(given, cost, denominations).value ==>
      k in denominations && ChangeOutcome(given, cost, denominations).value[k] >= 1
  {
    if TotalGiven(given) == cost {
      assert ChangeOutcome(given, cost, denominations).value == map[];
      ValueEmpty();
    } else {
      ChangeOutcomeOwed(given, cost, denominations);
      GreedyOutcomeExact(denominations, TotalGiven(given) - cost);
    }
  }

  /** With a 1 among the denominations the unlimited pass leaves nothing over. */
  lemma GreedyWithUnit(ds: seq<int>, owed: int)
    requires Positive(ds) && owed >= 0 && 1 in ds
    ensures Greedy(ds, owed).1 == 0
  {
    GreedyBounds(ds, owed);
    var i :| 0 <= i < |ds| && ds[i] == 1;
  }

  /** With a denomination of 1, `getChange` never reports that exact change
      cannot be made. */
  lemma UnitNeverShort(given: Tendered, cost: int, denominations: seq<int>)
    requires Positive(denominations) && 1 in denominations
    ensures ChangeOutcome(given, cost, denominations) != Err(InsufficientDenominations)
  {
    if !given.Malformed? && denominations != [] && TotalGiven(given) > cost {
      ChangeOutcomeOwed(given, cost, denominations);
      SortedPositive(denominations);
      GreedyWithUnit(SortDescending(denominations), TotalGiven(given) - cost);
    }
  }

  /** What a pass yields when `results` were recorded before the rest of it. */
  function After(results: Change, rest: (Change, int)): (Change, int) {
    (results + rest.0, rest.1)
  }

  /** Nothing recorded yet: the pass is the whole of the rest. */
  lemma AfterNothing(rest: (Change, int))
    ensures After(map[], rest) == rest
  {
    assert map[] + rest.0 == rest.0;
  }

  /** Nothing more to record: the pass is what was recorded. */
  lemma AfterDone(results: Change, left: int)
    ensures After(results, (map[], left)) == (results, left)
  {
    assert results + map[] == results;
  }

  /** Recording one more denomination in front of the rest of the pass. */
  lemma RecordStep(results: Change, d: int, count: int, rest: (Change, int))
    ensures After(results, (map[d := count] + rest.0, rest.1)) == After(results[d := count], rest)
  {
    assert results + (map[d := count] + rest.0) == results[d := count] + rest.0;
  }

  /** The loop of `getChange` over the sorted denominations: what it records
      and what is left owed are those of the reference pass. */
  method GreedyPass(sorted: seq<int>, owed: int) returns (results: Change, changes: int)
    requires Positive(sorted) && owed > 0
    ensures (results, changes) == Greedy(sorted, owed)
  {
    changes := owed;
    results := map[];
    var i := 0;
    assert sorted[0..] == sorted;
    AfterNothing(Greedy(sorted, owed));
    while i < |sorted|
      invariant 0 <= i <= |sorted|
      invariant changes > 0
      invariant Greedy(sorted, owed) == After(results, Greedy(sorted[i..], changes))
    {
      var bills := sorted[i];
      assert sorted[i..][1..] == sorted[i + 1..];
      if changes >= bills {
        var billCount := changes / bills;
        RecordStep(results, bills, billCount, Greedy(sorted[i + 1..], changes % bills));
        changes := changes % bills;
        results := results[bills := billCount];
        if changes == 0 {
          assert Greedy(sorted[i + 1..], 0) == (map[], 0);
          AfterDone(results, 0);
          break;
        }
      }
      i := i + 1;
    }
    if i == |sorted| {
      assert sorted[i..] == [];
      AfterDone(results, changes);
    }
  }

  /** `getChange`. */
  method GetChange(given: Tendered, cost: int, denominations: seq<int>) returns (r: Result<Change>)
    requires Positive(denominations)
    ensures r == ChangeOutcome(given, cost, denominations)
    ensures r.Ok? ==> !given.Malformed? && Value(r.value) == TotalGiven(given) - cost
    ensures r.Ok? ==> forall k :: k in r.value ==> k in denominations && r.value[k] >= 1
  {
    var check := ValidateInputs(given, |denominations|);
    if check.Fail? {
      return Err(check.error);
    }
    var total := CalculateTotalAmountGiven(given);
    if total < cost {
      return Err(InsufficientAmount);
    }
    var sorted := SortDescending(denominations);
    SortedPositive(denominations);
    var owed := total - cost;
    if owed == 0 {
      ValueEmpty();
      return Ok(map[]);
    }
    ChangeOutcomeOwed(given, cost, denominations);
    var results, changes := GreedyPass(sorted, owed);
    if changes != 0 {
      return Err(InsufficientDenominations);
    }
    r := Ok(results);
    GreedyOutcomeExact(denominations, owed);
  }


  // ----- the finite-stock pass of getChangeWithInventory -----

  /** Every denomination of `ks` is positive and has an entry in `stock`. */
  predicate Stocked(ks: seq<int>, stock: Inventory) {
    forall i :: 0 <= i < |ks| ==> ks[i] > 0 && ks[i] in stock
  }

  /** One descending pass over the denominations `ks` with the counts of
      `stock`: at each `d` not above what is owed, the whole bills of `d` in
      it when the stock holds that many, otherwise the whole stock of `d`;
      stops once nothing is owed. Yields the recorded change and what is left
      over. The division, remainder and product are spelt out by repeated
      subtraction and addition (Quot, Rem, Times); DispenseUnfold states the
      steps with `/`, `%` and `*`. */
  function Dispense(ks: seq<int>, stock: Inventory, owed: int): (Change, int)
    requires Stocked(ks, stock)
    decreases |ks|
  {
    if ks == [] || owed == 0 then (map[], owed)
    else
      var d := ks[0];
      if owed >= d then
        if stock[d] >= Quot(owed, d) then
          var next := Dispense(ks[1..], stock, Rem(owed, d));
          (map[d := Quot(owed, d)] + next.0, next.1)
        else
          var next := Dispense(ks[1..], stock, owed - Times(d, stock[d]));
          (map[d := stock[d]] + next.0, next.1)
      else Dispense(ks[1..], stock, owed)
  }

  /** At a denomination not above what is owed, the pass takes the smaller of
      the stock and the whole bills owed, and the amount owed drops by exactly
      that many bills' worth. */
  lemma DispenseTakesMin(ks: seq<int>, stock: Inventory, owed: int)
    requires Stocked(ks, stock) && ks != [] && owed > 0 && owed >= ks[0]
    ensures var d := ks[0];
      var take := Min(stock[d], owed / d);
      var next := Dispense(ks[1..], stock, owed - d * take);
      Dispense(ks, stock, owed) == (map[d := take] + next.0, next.1)
  {
    var d := ks[0];
    QuotRem(owed, d);
    TimesMul(d, stock[d]);
    TimesMul(d, Min(stock[d], owed / d));
    DivMod(owed, d);
  }

  /** A denomination of a strictly descending till order not above what is
      owed is always recorded, with the smaller of its stock and the whole
      bills owed: an empty stock gives an entry of zero bills. */
  lemma DispenseRecordsTake(ks: seq<int>, stock: Inventory, owed: int)
    requires Stocked(ks, stock) && StrictlyDescending(ks) && ks != [] && owed > 0 && owed >= ks[0]
    ensures ks[0] in Dispense(ks, stock, owed).0
    ensures Dispense(ks, stock, owed).0[ks[0]] == Min(stock[ks[0]], owed / ks[0])
  {
    var d := ks[0];
    var take := Min(stock[d], owed / d);
    DispenseTakesMin(ks, stock, owed);
    if stock[d] < owed / d {
      ShortStockLeavesOwed(owed, d, stock[d]);
    }
    DivMod(owed, d);
    DispenseBounds(ks[1..], stock, owed - d * take);
    assert d !in ks[1..];
  }

  /** Taking the whole stock because it falls short of the bills owed still
      leaves something owed. */
  lemma ShortStockLeavesOwed(owed: int, d: int, q: int)
    requires d > 0 && q < owed / d
    ensures owed - d * q > 0
  {
    DivMod(owed, d);
    assert d * q <= d * (owed / d - 1);
  }

  /** Every recorded denomination is one of `ks`, with no more bills than its
      stock and none below zero when the stock is not; what is left is not
      negative. */
  lemma {:induction false} DispenseBounds(ks: seq<int>, stock: Inventory, owed: int)
    requires Stocked(ks, stock) && owed >= 0
    ensures Dispense(ks, stock, owed).1 >= 0
    ensures forall k :: k in Dispense(ks, stock, owed).0 ==>
      k in ks && Dispense(ks, stock, owed).0[k] <= stock[k] && (stock[k] >= 0 ==> Dispense(ks, stock, owed).0[k] >= 0)
    decreases |ks|
  {
    if ks != [] && owed != 0 {
      var d := ks[0];
      assert forall i :: 1 <= i < |ks| ==> ks[i] == ks[1..][i - 1];
      if owed >= d {
        QuotRem(owed, d);
        TimesMul(d, stock[d]);
        var rem := if stock[d] >= owed / d then owed % d else owed - d * stock[d];
        if stock[d] < owed / d {
          ShortStockLeavesOwed(owed, d, stock[d]);
        }
        DispenseBounds(ks[1..], stock, rem);
        var change := Dispense(ks, stock, owed).0;
        forall k | k in change
          ensures k in ks && change[k] <= stock[k] && (stock[k] >= 0 ==> change[k] >= 0)
        {
          if k != d {
            assert k in Dispense(ks[1..], stock, rem).0;
          }
        }
      } else {
        DispenseBounds(ks[1..], stock, owed);
      }
    }
  }

  /** The bills recorded plus what is left add up to what was owed. */
  lemma {:induction false} DispenseAccounts(ks: seq<int>, stock: Inventory, owed: int)
    requires Stocked(ks, stock) && StrictlyDescending(ks) && owed >= 0
    ensures Value(Dispense(ks, stock, owed).0) + Dispense(ks, stock, owed).1 == owed
    decreases |ks|
  {
    if ks == [] || owed == 0 {
      WorthZero({});
    } else if owed >= ks[0] {
      var d := ks[0];
      var take := Min(stock[d], owed / d);
      var rem := owed - d * take;
      DispenseTakesMin(ks, stock, owed);
      if stock[d] < owed / d {
        ShortStockLeavesOwed(owed, d, stock[d]);
      } else {
        DivMod(owed, d);
      }
      var next := Dispense(ks[1..], stock, rem);
      DispenseAccounts(ks[1..], stock, rem);
      DispenseBounds(ks[1..], stock, rem);
      assert forall i :: 1 <= i < |ks| ==> ks[i] == ks[1..][i - 1];
      assert d !in next.0;
      ValueInsert(next.0, d, take);
    } else {
      DispenseAccounts(ks[1..], stock, owed);
    }
  }

  // ----- the inventory bookkeeping -----

  /** The working copy after the pass: each count less what was handed back. */
  function Withdraw(inventory: Inventory, change: Change): Inventory {
    map k | k in inventory :: inventory[k] - Get(change, k)
  }

  /** The inventory after folding in the tendered bills one at a time: one
      more bill of each amount, a new entry for an amount not yet stocked. */
  function Restock(inventory: Inventory, bills: seq<int>): Inventory
    decreases |bills|
  {
    if bills == [] then inventory
    else
      var before := Restock(inventory, bills[..|bills| - 1]);
      var x := bills[|bills| - 1];
      before[x := Get(before, x) + 1]
  }

  /** The restocked inventory holds an entry for every stocked or tendered
      amount: its old count plus the number of tendered bills of that amount. */
  lemma {:induction false} RestockCounts(inventory: Inventory, bills: seq<int>)
    ensures Restock(inventory, bills).Keys == inventory.Keys + Elements(bills)
    ensures forall k :: k in Restock(inventory, bills) ==>
      Restock(inventory, bills)[k] == Get(inventory, k) + multiset(bills)[k]
    decreases |bills|
  {
    if bills == [] {
      assert Elements(bills) == {};
    } else {
      var init, x := bills[..|bills| - 1], bills[|bills| - 1];
      assert bills == init + [x];
      RestockCounts(inventory, init);
      assert multiset(bills) == multiset(init) + multiset{x};
      assert Elements(bills) == Elements(init) + {x};
    }
  }

  /** `updateInventory`: one more bill of `amount`. */
  method UpdateInventory(amount: int, inventory: Inventory) returns (updated: Inventory)
    ensures updated == inventory[amount := Get(inventory, amount) + 1]
  {
    if amount in inventory {
      updated := inventory[amount := inventory[amount] + 1];
    } else {
      updated := inventory[amount := 1];
    }
  }

  /** `updateCashInventory`: one more bill per tendered amount. */
  method UpdateCashInventory(given: Tendered, inventory: Inventory) returns (updated: Inventory)
    requires !given.Malformed?
    ensures updated == Restock(inventory, Bills(given))
  {
    if given.Several? {
      updated := UpdateEach(given.amounts, inventory);
    } else {
      updated := UpdateInventory(given.amount, inventory);
      assert [given.amount][..0] == [];
    }
  }

  /** The loop of `updateCashInventory` over a list of tendered bills. */
  method UpdateEach(amounts: seq<int>, inventory: Inventory) returns (updated: Inventory)
    ensures updated == Restock(inventory, amounts)
  {
    updated := inventory;
    for j := 0 to |amounts|
      invariant updated == Restock(inventory, amounts[..j])
    {
      assert amounts[..j + 1][..j] == amounts[..j];
      updated := UpdateInventory(amounts[j], updated);
    }
    assert amounts[..|amounts|] == amounts;
  }


  /** The new count of every denomination: the old one, less what was handed
      back, plus the tendered bills of that amount. */
  lemma CommitEquation(inventory: Inventory, change: Change, bills: seq<int>)
    requires change.Keys <= inventory.Keys
    ensures var updated := Restock(Withdraw(inventory, change), bills);
      && updated.Keys == inventory.Keys + Elements(bills)
      && forall k :: k in updated ==> updated[k] == Get(inventory, k) - Get(change, k) + multiset(bills)[k]
  {
    RestockCounts(Withdraw(inventory, change), bills);
  }

  // ----- getChangeWithInventory -----

  /** The order `foreach` visits the inventory in after `krsort`: its
      denominations from the largest to the smallest, each once. */
  function TillOrder(inventory: Inventory): (ks: seq<int>)
    requires PositiveKeys(inventory)
    ensures Stocked(ks, inventory) && StrictlyDescending(ks)
    ensures forall k :: k in ks <==> k in inventory
  {
    var ks := SortedKeys(inventory.Keys);
    assert forall i :: 0 <= i < |ks| ==> ks[i] in ks;
    ks
  }

  /** The result of `getChangeWithInventory`: its error cases, or the change
      one pass over the inventory's own counts records when it leaves nothing
      owed. */
  function InventoryChange(given: Tendered, cost: int, inventory: Inventory): Result<Change>
    requires PositiveKeys(inventory)
  {
    match ValidateInputs(given, |inventory|)
    case Fail(e) => Err(e)
    case Pass =>
      var total := TotalGiven(given);
      if total < cost then Err(InsufficientAmount)
      else if total == cost then Ok(map[])
      else PassOutcome(inventory, total - cost)
  }

  /** The pass over the inventory for a positive amount owed: the change it
      records when that leaves nothing owed. */
  function PassOutcome(inventory: Inventory, owed: int): Result<Change>
    requires PositiveKeys(inventory)
  {
    var pass := Dispense(TillOrder(inventory), inventory, owed);
    if pass.1 != 0 then Err(InsufficientDenominations) else Ok(pass.0)
  }

  /** The outcome of `getChangeWithInventory`: the result and the inventory
      the caller holds afterwards. The working copy, less the change and plus
      the tendered bills, replaces the caller's inventory only when change
      was made; every other path leaves it as it was. */
  function InventoryOutcome(given: Tendered, cost: int, inventory: Inventory): (Result<Change>, Inventory)
    requires PositiveKeys(inventory)
  {
    var r := InventoryChange(given, cost, inventory);
    if Commits(given, cost, inventory) then (r, Restock(Withdraw(inventory, r.value), Bills(given)))
    else (r, inventory)
  }

  /** The call hands back change for a positive amount owed, the one path
      that commits the working copy. */
  predicate Commits(given: Tendered, cost: int, inventory: Inventory)
    requires PositiveKeys(inventory)
  {
    !given.Malformed? && InventoryChange(given, cost, inventory).Ok? && TotalGiven(given) != cost
  }

  /** One step of the finite-stock pass, for the three cases of the loop body. */
  lemma DispenseUnfold(ks: seq<int>, stock: Inventory, owed: int)
    requires Stocked(ks, stock) && ks != [] && owed != 0
    ensures owed >= ks[0] && stock[ks[0]] >= owed / ks[0] ==>
      var next := Dispense(ks[1..], stock, owed % ks[0]);
      Dispense(ks, stock, owed) == (map[ks[0] := owed / ks[0]] + next.0, next.1)
    ensures owed >= ks[0] && stock[ks[0]] < owed / ks[0] ==>
      var next := Dispense(ks[1..], stock, owed - ks[0] * stock[ks[0]]);
      Dispense(ks, stock, owed) == (map[ks[0] := stock[ks[0]]] + next.0, next.1)
    ensures owed < ks[0] ==> Dispense(ks, stock, owed) == Dispense(ks[1..], stock, owed)
  {
    if owed >= ks[0] {
      QuotRem(owed, ks[0]);
      TimesMul(ks[0], stock[ks[0]]);
    }
  }

  /** The step of the loop at position `i` that finds enough bills of ks[i]. */
  lemma TakeEnough(ks: seq<int>, stock: Inventory, i: int, results: Change, changes: int)
    requires Stocked(ks, stock) && 0 <= i < |ks| && changes != 0
    requires changes >= ks[i] && stock[ks[i]] >= changes / ks[i]
    ensures After(results, Dispense(ks[i..], stock, changes))
         == After(results[ks[i] := changes / ks[i]], Dispense(ks[i + 1..], stock, changes % ks[i]))
  {
    assert ks[i..][1..] == ks[i + 1..];
    DispenseUnfold(ks[i..], stock, changes);
    RecordStep(results, ks[i], changes / ks[i], Dispense(ks[i + 1..], stock, changes % ks[i]));
  }

  /** The step of the loop at position `i` that empties the stock of ks[i]. */
  lemma TakeStock(ks: seq<int>, stock: Inventory, i: int, results: Change, changes: int)
    requires Stocked(ks, stock) && 0 <= i < |ks| && changes != 0
    requires changes >= ks[i] && stock[ks[i]] < changes / ks[i]
    ensures After(results, Dispense(ks[i..], stock, changes))
         == After(results[ks[i] := stock[ks[i]]], Dispense(ks[i + 1..], stock, changes - ks[i] * stock[ks[i]]))
  {
    assert ks[i..][1..] == ks[i + 1..];
    DispenseUnfold(ks[i..], stock, changes);
    RecordStep(results, ks[i], stock[ks[i]], Dispense(ks[i + 1..], stock, changes - ks[i] * stock[ks[i]]));
  }

  /** The step of the loop at position `i` that skips a bill larger than what is owed. */
  lemma SkipLarger(ks: seq<int>, stock: Inventory, i: int, changes: int)
    requires Stocked(ks, stock) && 0 <= i < |ks| && changes != 0
    requires changes < ks[i]
    ensures Dispense(ks[i..], stock, changes) == Dispense(ks[i + 1..], stock, changes)
  {
    assert ks[i..][1..] == ks[i + 1..];
    DispenseUnfold(ks[i..], stock, changes);
  }

  /** No key of a strictly descending list occurs before its own position. */
  lemma NotEarlier(ks: seq<int>, i: int)
    requires StrictlyDescending(ks) && 0 <= i < |ks|
    ensures ks[i] !in ks[..i]
  {
  }

  /** What the loop of `getChangeWithInventory` keeps true after its first `i`
      denominations: the pass so far followed by the rest is the whole pass, and
      the working copy has lost exactly what was recorded. */
  ghost predicate Dispensing(ks: seq<int>, inventory: Inventory, copy: Inventory, owed: int,
                             i: int, results: Change, working: Inventory, changes: int)
  {
    Stocked(ks, inventory) && 0 <= i <= |ks| && changes > 0
    && Dispense(ks, inventory, owed) == After(results, Dispense(ks[i..], inventory, changes))
    && (forall k :: k in results ==> k in ks[..i])
    && working == Withdraw(copy, results)
  }

  /** One turn of the loop of `getChangeWithInventory`, at denomination ks[i]. */
  method DispenseOne(ks: seq<int>, inventory: Inventory, ghost copy: Inventory, ghost owed: int,
                     i: int, results: Change, working: Inventory, changes: int)
    returns (results': Change, working': Inventory, changes': int)
    requires Stocked(ks, inventory) && StrictlyDescending(ks)
    requires forall j :: 0 <= j < |ks| ==> ks[j] in copy
    requires i < |ks| && Dispensing(ks, inventory, copy, owed, i, results, working, changes)
    ensures changes' == 0 ==> Dispense(ks, inventory, owed) == (results', 0) && working' == Withdraw(copy, results')
    ensures changes' != 0 ==> Dispensing(ks, inventory, copy, owed, i + 1, results', working', changes')
  {
    var bills := ks[i];
    var quantity := inventory[bills];
    results', working', changes' := results, working, changes;
    assert ks[..i + 1] == ks[..i] + [bills];
    NotEarlier(ks, i);
    if changes >= bills {
      var billCount := changes / bills;
      if quantity >= billCount {
        TakeEnough(ks, inventory, i, results, changes);
        WithdrawStep(copy, results, working, bills, billCount);
        changes' := changes % bills;
        results' := results[bills := billCount];
        working' := working[bills := working[bills] - billCount];
      } else {
        ShortStockLeavesOwed(changes, bills, quantity);
        TakeStock(ks, inventory, i, results, changes);
        WithdrawStep(copy, results, working, bills, quantity);
        changes' := changes - bills * quantity;
        results' := results[bills := quantity];
        working' := working[bills := working[bills] - quantity];
      }
      if changes' == 0 {
        assert Dispense(ks[i + 1..], inventory, 0) == (map[], 0);
        AfterDone(results', 0);
      }
    } else {
      SkipLarger(ks, inventory, i, changes);
    }
  }

  /** The loop of `getChangeWithInventory`: the counts are read from the
      inventory being iterated, the decrements go to the working copy. */
  method DispensePass(ks: seq<int>, inventory: Inventory, copy: Inventory, owed: int)
    returns (results: Change, working: Inventory, changes: int)
    requires Stocked(ks, inventory) && StrictlyDescending(ks) && owed > 0
    requires forall i :: 0 <= i < |ks| ==> ks[i] in copy
    ensures (results, changes) == Dispense(ks, inventory, owed)
    ensures working == Withdraw(copy, results)
  {
    changes := owed;
    results := map[];
    working := copy;
    var i := 0;
    assert ks[0..] == ks;
    assert working == Withdraw(copy, results);
    AfterNothing(Dispense(ks, inventory, owed));
    while i < |ks|
      invariant Dispensing(ks, inventory, copy, owed, i, results, working, changes)
    {
      results, working, changes := DispenseOne(ks, inventory, copy, owed, i, results, working, changes);
      if changes == 0 {
        return;
      }
      i := i + 1;
    }
    assert ks[i..] == [];
    AfterDone(results, changes);
  }

  /** Taking `c` bills of a denomination not yet withdrawn from. */
  lemma WithdrawStep(copy: Inventory, results: Change, working: Inventory, d: int, c: int)
    requires d in copy && d !in results && working == Withdraw(copy, results)
    ensures d in working
    ensures working[d := working[d] - c] == Withdraw(copy, results[d := c])
  {
  }

  // ----- getChangeWithInventory: its outcome and what it keeps -----

  /** The error cases of `getChangeWithInventory`, in the source's order, and
      exact payment, which hands back nothing and leaves the inventory as it
      was (the tendered bills are not added). */
  lemma InventoryOutcomeOrder(given: Tendered, cost: int, inventory: Inventory)
    requires PositiveKeys(inventory)
    ensures given.Malformed? ==> InventoryChange(given, cost, inventory) == Err(InvalidArgument(AmountGiven))
    ensures !given.Malformed? && |inventory| == 0 ==>
      InventoryChange(given, cost, inventory) == Err(InvalidArgument(Denominations))
    ensures !given.Malformed? && |inventory| > 0 && TotalGiven(given) < cost ==>
      InventoryChange(given, cost, inventory) == Err(InsufficientAmount)
    ensures !given.Malformed? && |inventory| > 0 && TotalGiven(given) == cost ==>
      InventoryChange(given, cost, inventory) == Ok(map[]) && InventoryOutcome(given, cost, inventory).1 == inventory
  {
  }

  /** With inputs that validate and more tendered than the cost, the result is
      that of the pass over the inventory for the difference. */
  lemma InventoryChangeOwed(given: Tendered, cost: int, inventory: Inventory)
    requires PositiveKeys(inventory) && !given.Malformed? && |inventory| > 0 && TotalGiven(given) > cost
    ensures InventoryChange(given, cost, inventory) == PassOutcome(inventory, TotalGiven(given) - cost)
  {
  }

  /** What a successful call implies about its inputs and its result. */
  lemma InventoryChangeOk(given: Tendered, cost: int, inventory: Inventory)
    requires PositiveKeys(inventory) && InventoryChange(given, cost, inventory).Ok?
    ensures !given.Malformed? && |inventory| > 0 && TotalGiven(given) >= cost
    ensures TotalGiven(given) == cost ==> InventoryChange(given, cost, inventory).value == map[]
    ensures TotalGiven(given) > cost ==> InventoryChange(given, cost, inventory) == PassOutcome(inventory, TotalGiven(given) - cost)
  {
  }

  /** A failed call leaves the caller's inventory exactly as it was. */
  lemma InventoryAtomic(given: Tendered, cost: int, inventory: Inventory)
    requires PositiveKeys(inventory)
    ensures InventoryOutcome(given, cost, inventory).0.Err? ==> InventoryOutcome(given, cost, inventory).1 == inventory
  {
  }

  /** Change recorded by a pass over the inventory that leaves nothing owed is
      worth what was owed. */
  lemma PassOutcomeValue(inventory: Inventory, owed: int)
    requires PositiveKeys(inventory) && owed >= 0 && PassOutcome(inventory, owed).Ok?
    ensures Value(PassOutcome(inventory, owed).value) == owed
  {
    DispenseAccounts(TillOrder(inventory), inventory, owed);
  }

  /** Change recorded by a pass over the inventory takes bills only of stocked
      denominations, never more than the stock and none below zero when the
      stock is not. */
  lemma PassOutcomeWithin(inventory: Inventory, owed: int)
    requires PositiveKeys(inventory) && owed >= 0 && PassOutcome(inventory, owed).Ok?
    ensures var change := PassOutcome(inventory, owed).value;
      forall k :: k in change ==>
        k in inventory && change[k] <= inventory[k] && (inventory[k] >= 0 ==> change[k] >= 0)
  {
    DispenseBounds(TillOrder(inventory), inventory, owed);
  }

  /** Change handed back for a positive amount owed is worth exactly that amount. */
  lemma InventoryChangeValue(given: Tendered, cost: int, inventory: Inventory)
    requires PositiveKeys(inventory) && Commits(given, cost, inventory)
    ensures Value(InventoryChange(given, cost, inventory).value) == TotalGiven(given) - cost
  {
    InventoryChangeOwed(given, cost, inventory);
    PassOutcomeValue(inventory, TotalGiven(given) - cost);
  }

  /** Change handed back for a positive amount owed takes, of each stocked
      denomination, no more bills than the stock holds, and none below zero
      when the stock is not negative. */
  lemma InventoryChangeWithin(given: Tendered, cost: int, inventory: Inventory)
    requires PositiveKeys(inventory) && Commits(given, cost, inventory)
    ensures var change := InventoryChange(given, cost, inventory).value;
      forall k :: k in change ==>
        k in inventory && change[k] <= inventory[k] && (inventory[k] >= 0 ==> change[k] >= 0)
  {
    InventoryChangeOwed(given, cost, inventory);
    PassOutcomeWithin(inventory, TotalGiven(given) - cost);
  }

  /** What a committing call leaves the caller: every denomination's count less
      the bills handed back plus the tendered bills of that amount, with an
      entry for every tendered amount. */
  lemma InventoryCommit(given: Tendered, cost: int, inventory: Inventory)
    requires PositiveKeys(inventory) && Commits(given, cost, inventory)
    ensures InventoryOutcome(given, cost, inventory).1.Keys == inventory.Keys + Elements(Bills(given))
    ensures forall k :: k in InventoryOutcome(given, cost, inventory).1 ==>
      InventoryOutcome(given, cost, inventory).1[k]
        == Get(inventory, k) - Get(InventoryChange(given, cost, inventory).value, k) + multiset(Bills(given))[k]
  {
    var change := InventoryChange(given, cost, inventory).value;
    InventoryChangeWithin(given, cost, inventory);
    assert change.Keys <= inventory.Keys by {
      forall k | k in change ensures k in inventory { }
    }
    CommitEquation(inventory, change, Bills(given));
  }

  /** A committing call keeps the till's total value honest: it grows by
      exactly the cost of the purchase. */
  lemma InventoryConserves(given: Tendered, cost: int, inventory: Inventory)
    requires PositiveKeys(inventory) && Commits(given, cost, inventory)
    ensures Value(InventoryOutcome(given, cost, inventory).1) == Value(inventory) + cost
  {
    var change := InventoryChange(given, cost, inventory).value;
    var updated := InventoryOutcome(given, cost, inventory).1;
    var bills := Bills(given);
    InventoryChangeValue(given, cost, inventory);
    InventoryCommit(given, cost, inventory);
    var keys := updated.Keys;
    forall k | k in keys
      ensures Get(updated, k) == Get(inventory, k) - Get(change, k) + Get(Tally(bills), k)
    {
      TallyGet(bills, k);
    }
    InventoryChangeWithin(given, cost, inventory);
    WorthLinear(inventory, change, Tally(bills), updated, keys);
    ValueOver(inventory, keys);
    ValueOver(change, keys);
    ValueOver(Tally(bills), keys);
    TallyValue(bills);
  }

  /** Counts that start non-negative stay non-negative, whatever the outcome. */
  lemma InventoryStaysStocked(given: Tendered, cost: int, inventory: Inventory)
    requires PositiveKeys(inventory)
    requires forall k :: k in inventory ==> inventory[k] >= 0
    ensures var updated := InventoryOutcome(given, cost, inventory).1;
      forall k :: k in updated ==> updated[k] >= 0
  {
    if Commits(given, cost, inventory) {
      InventoryChangeWithin(given, cost, inventory);
      InventoryCommit(given, cost, inventory);
    }
  }

  /** With inputs that validate and more tendered than the cost, the call
      commits exactly when the pass over the inventory leaves nothing owed. */
  lemma CommitsOwed(given: Tendered, cost: int, inventory: Inventory)
    requires PositiveKeys(inventory) && !given.Malformed? && |inventory| > 0 && TotalGiven(given) > cost
    ensures Commits(given, cost, inventory) <==> PassOutcome(inventory, TotalGiven(given) - cost).Ok?
  {
    InventoryChangeOwed(given, cost, inventory);
  }

  /** The inventory the caller holds afterwards, on the committing path and on
      every other. */
  lemma InventoryOutcomeCases(given: Tendered, cost: int, inventory: Inventory)
    requires PositiveKeys(inventory)
    ensures Commits(given, cost, inventory) ==>
      InventoryOutcome(given, cost, inventory).1
        == Restock(Withdraw(inventory, InventoryChange(given, cost, inventory).value), Bills(given))
    ensures !Commits(given, cost, inventory) ==> InventoryOutcome(given, cost, inventory).1 == inventory
  {
  }

  /** The part of `getChangeWithInventory` after the early return for exact
      payment: the pass over the inventory, then, when it leaves nothing
      owed, the working copy replenished with the tendered bills and
      committed. */
  method DispenseAndCommit(given: Tendered, owed: int, inventory: Inventory)
    returns (r: Result<Change>, updated: Inventory)
    requires PositiveKeys(inventory) && !given.Malformed? && owed > 0
    ensures r == PassOutcome(inventory, owed)
    ensures updated == if r.Ok? then Restock(Withdraw(inventory, r.value), Bills(given)) else inventory
  {
    var ks := TillOrder(inventory);
    var copy := inventory;
    var results, working, changes := DispensePass(ks, inventory, copy, owed);
    if changes != 0 {
      return Err(InsufficientDenominations), inventory;
    }
    working := UpdateCashInventory(given, working);
    r, updated := Ok(results), working;
  }

  /** `getChangeWithInventory`, with the caller's inventory passed in and the
      inventory the caller holds afterwards handed back. */
  method GetChangeWithInventory(given: Tendered, cost: int, inventory: Inventory)
    returns (r: Result<Change>, updated: Inventory)
    requires PositiveKeys(inventory)
    ensures r == InventoryChange(given, cost, inventory)
    ensures updated == InventoryOutcome(given, cost, inventory).1
    ensures r.Err? ==> updated == inventory
  {
    var check := ValidateInputs(given, |inventory|);
    if check.Fail? {
      return Err(check.error), inventory;
    }
    var total := CalculateTotalAmountGiven(given);
    r, updated := Settle(given, cost, inventory, total);
  }

  /** The part of `getChangeWithInventory` after the inputs validate and the
      tendered total is known. */
  method Settle(given: Tendered, cost: int, inventory: Inventory, total: int)
    returns (r: Result<Change>, updated: Inventory)
    requires PositiveKeys(inventory) && !given.Malformed? && |inventory| > 0
    requires total == TotalGiven(given)
    ensures r == InventoryChange(given, cost, inventory)
    ensures updated == InventoryOutcome(given, cost, inventory).1
    ensures r.Err? ==> updated == inventory
  {
    if total < cost {
      return Err(InsufficientAmount), inventory;
    }
    var owed := total - cost;
    if owed == 0 {
      return Ok(map[]), inventory;
    }
    InventoryChangeOwed(given, cost, inventory);
    CommitsOwed(given, cost, inventory);
    InventoryOutcomeCases(given, cost, inventory);
    r, updated := DispenseAndCommit(given, owed, inventory);
  }
}
