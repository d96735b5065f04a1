/** The scenarios of the PHPUnit suite and of the demonstration script at the
    end of app/Transactions.php, stated on the model: the change each call
    hands back and the inventory the caller holds afterwards. */
module TransactionsCases {
  import opened Money
  import opened Transactions

  // ----- getChange -----

  /** 80 tendered for 60 with denominations 100, 20, 50, 5: one 20. */
  lemma ChangeForEighty()
    ensures ChangeOutcome(Single(80), 60, [100, 20, 50, 5]) == Ok(map[20 := 1])
  {
    EightyOrder();
    EightyPass();
  }

  /** `rsort` puts the denominations of the suite's first case in descending order. */
  lemma EightyOrder()
    ensures SortDescending([100, 20, 50, 5]) == [100, 50, 20, 5]
  {
    EightyBills();
    EightyDescending();
    DescendingUnique(SortDescending([100, 20, 50, 5]), [100, 50, 20, 5]);
  }

  lemma EightyBills()
    ensures multiset([100, 20, 50, 5]) == multiset([100, 50, 20, 5])
  {
  }

  lemma EightyDescending()
    ensures Descending([100, 50, 20, 5])
  {
  }

  /** The pass for 20 owed skips 100 and 50 and takes one 20. */
  lemma EightyPass()
    ensures Greedy([100, 50, 20, 5], 20) == (map[20 := 1], 0)
  {
    assert [100, 50, 20, 5][1..] == [50, 20, 5];
    assert [50, 20, 5][1..] == [20, 5];
    assert [20, 5][1..] == [5];
    assert Greedy([5], 0) == (map[], 0);
    assert map[20 := 1] + map[] == map[20 := 1];
    assert Greedy([20, 5], 20) == (map[20 := 1], 0);
    assert Greedy([50, 20, 5], 20) == (map[20 := 1], 0);
  }

  /** A tendered value that is neither an integer nor a list is refused first. */
  lemma ChangeRejectsMalformed()
    ensures ChangeOutcome(Malformed, 50, [100, 50, 20, 10]) == Err(InvalidArgument(AmountGiven))
  {
  }

  lemma ChangeRejectsShortPayment()
    ensures ChangeOutcome(Single(50), 100, [100, 50, 20, 10]) == Err(InsufficientAmount)
  {
  }

  lemma ChangeRejectsNoDenominations()
    ensures ChangeOutcome(Single(100), 50, []) == Err(InvalidArgument(Denominations))
  {
  }

  /** With no bill small enough for what is owed, no change can be made. */
  lemma ChangeShortOfDenominations()
    ensures ChangeOutcome(Single(100), 95, [20, 10]) == Err(InsufficientDenominations)
  {
    assert SortDescending([20, 10]) == [20, 10] by {
      DescendingUnique(SortDescending([20, 10]), [20, 10]);
    }
    assert Greedy([20, 10], 5) == (map[], 5) by {
      assert [20, 10][1..] == [10];
      assert [10][1..] == [];
    }
  }

  // ----- getChangeWithInventory -----

  /** One turn of the pass that takes bills of its first denomination. */
  lemma Take(ks: seq<int>, stock: Inventory, owed: int, take: int, rest: (Change, int))
    requires Stocked(ks, stock) && ks != [] && owed >= ks[0]
    requires take == Min(stock[ks[0]], owed / ks[0])
    requires Dispense(ks[1..], stock, owed - ks[0] * take) == rest
    ensures Dispense(ks, stock, owed) == (map[ks[0] := take] + rest.0, rest.1)
  {
    DispenseTakesMin(ks, stock, owed);
  }

  /** One turn of the pass that skips a denomination above what is owed. */
  lemma Skip(ks: seq<int>, stock: Inventory, owed: int, rest: (Change, int))
    requires Stocked(ks, stock) && ks != [] && 0 < owed < ks[0]
    requires Dispense(ks[1..], stock, owed) == rest
    ensures Dispense(ks, stock, owed) == rest
  {
  }

  // First purchase of the suite: 50 tendered for 20, 30 owed.

  lemma FirstTill()
    ensures TillOrder(map[100 := 5, 50 := 3, 20 := 4, 10 := 2]) == [100, 50, 20, 10]
  {
    var inventory := map[100 := 5, 50 := 3, 20 := 4, 10 := 2];
    var ks := [100, 50, 20, 10];
    assert StrictlyDescending(ks);
    assert forall k :: k in ks <==> k in inventory;
    StrictlyDescendingUnique(TillOrder(inventory), ks);
  }

  /** The pass skips 100 and 50, then takes a 20 and a 10. */
  lemma FirstWalk()
    ensures Dispense([100, 50, 20, 10], map[100 := 5, 50 := 3, 20 := 4, 10 := 2], 30)
      == (map[20 := 1, 10 := 1], 0)
  {
    var inventory := map[100 := 5, 50 := 3, 20 := 4, 10 := 2];
    assert [10][1..] == [];
    Take([10], inventory, 10, 1, (map[], 0));
    assert map[10 := 1] + map[] == map[10 := 1];
    assert [20, 10][1..] == [10];
    Take([20, 10], inventory, 30, 1, (map[10 := 1], 0));
    assert map[20 := 1] + map[10 := 1] == map[20 := 1, 10 := 1];
    assert [50, 20, 10][1..] == [20, 10];
    Skip([50, 20, 10], inventory, 30, (map[20 := 1, 10 := 1], 0));
    assert [100, 50, 20, 10][1..] == [50, 20, 10];
    Skip([100, 50, 20, 10], inventory, 30, (map[20 := 1, 10 := 1], 0));
  }

  lemma FirstRestock()
    ensures Restock(Withdraw(map[100 := 5, 50 := 3, 20 := 4, 10 := 2], map[20 := 1, 10 := 1]), [50])
      == map[100 := 5, 50 := 4, 20 := 3, 10 := 1]
  {
    var withdrawn := Withdraw(map[100 := 5, 50 := 3, 20 := 4, 10 := 2], map[20 := 1, 10 := 1]);
    assert withdrawn == map[100 := 5, 50 := 3, 20 := 3, 10 := 1];
    assert Restock(withdrawn, [50]) == withdrawn[50 := 4];
  }

  /** A 20 and a 10 come back; the 50 goes into the till. */
  lemma FirstPurchase()
    ensures InventoryOutcome(Single(50), 20, map[100 := 5, 50 := 3, 20 := 4, 10 := 2])
      == (Ok(map[20 := 1, 10 := 1]), map[100 := 5, 50 := 4, 20 := 3, 10 := 1])
  {
    var inventory := map[100 := 5, 50 := 3, 20 := 4, 10 := 2];
    FirstTill();
    FirstWalk();
    assert PassOutcome(inventory, 30) == Ok(map[20 := 1, 10 := 1]);
    InventoryChangeOwed(Single(50), 20, inventory);
    assert InventoryChange(Single(50), 20, inventory) == Ok(map[20 := 1, 10 := 1]);
    assert Commits(Single(50), 20, inventory);
    InventoryOutcomeCases(Single(50), 20, inventory);
    FirstRestock();
  }

  // Second purchase of the suite, on the inventory the first one left: 200
  // tendered for 40, 160 owed.

  lemma SecondTill()
    ensures TillOrder(map[100 := 5, 50 := 4, 20 := 3, 10 := 1]) == [100, 50, 20, 10]
  {
    var inventory := map[100 := 5, 50 := 4, 20 := 3, 10 := 1];
    var ks := [100, 50, 20, 10];
    assert StrictlyDescending(ks);
    assert forall k :: k in ks <==> k in inventory;
    StrictlyDescendingUnique(TillOrder(inventory), ks);
  }

  /** The pass takes a 100 and a 50, skips 20 and takes the last 10. */
  lemma SecondWalk()
    ensures Dispense([100, 50, 20, 10], map[100 := 5, 50 := 4, 20 := 3, 10 := 1], 160)
      == (map[100 := 1, 50 := 1, 10 := 1], 0)
  {
    var inventory := map[100 := 5, 50 := 4, 20 := 3, 10 := 1];
    SecondTail();
    assert [50, 20, 10][1..] == [20, 10];
    Take([50, 20, 10], inventory, 60, 1, (map[10 := 1], 0));
    assert map[50 := 1] + map[10 := 1] == map[50 := 1, 10 := 1];
    assert [100, 50, 20, 10][1..] == [50, 20, 10];
    Take([100, 50, 20, 10], inventory, 160, 1, (map[50 := 1, 10 := 1], 0));
    assert map[100 := 1] + map[50 := 1, 10 := 1] == map[100 := 1, 50 := 1, 10 := 1];
  }

  /** With 10 left owed, the pass skips 20 and takes the last 10. */
  lemma SecondTail()
    ensures Dispense([20, 10], map[100 := 5, 50 := 4, 20 := 3, 10 := 1], 10) == (map[10 := 1], 0)
  {
    var inventory := map[100 := 5, 50 := 4, 20 := 3, 10 := 1];
    assert [10][1..] == [];
    Take([10], inventory, 10, 1, (map[], 0));
    assert map[10 := 1] + map[] == map[10 := 1];
    assert [20, 10][1..] == [10];
    Skip([20, 10], inventory, 10, (map[10 := 1], 0));
  }

  lemma SecondWithdraw()
    ensures Withdraw(map[100 := 5, 50 := 4, 20 := 3, 10 := 1], map[100 := 1, 50 := 1, 10 := 1])
      == map[100 := 4, 50 := 3, 20 := 3, 10 := 0]
  {
  }

  lemma SecondRestock()
    ensures Restock(Withdraw(map[100 := 5, 50 := 4, 20 := 3, 10 := 1], map[100 := 1, 50 := 1, 10 := 1]), [200])
      == map[200 := 1, 100 := 4, 50 := 3, 20 := 3, 10 := 0]
  {
    SecondWithdraw();
    var withdrawn := map[100 := 4, 50 := 3, 20 := 3, 10 := 0];
    assert Restock(withdrawn, [200]) == withdrawn[200 := 1];
    assert withdrawn[200 := 1] == map[200 := 1, 100 := 4, 50 := 3, 20 := 3, 10 := 0];
  }

  /** A 100, a 50 and the last 10 come back; the 200 becomes a new entry and
      the 10 stays in the till with a count of zero. */
  lemma SecondPurchase()
    ensures InventoryOutcome(Single(200), 40, map[100 := 5, 50 := 4, 20 := 3, 10 := 1])
      == (Ok(map[100 := 1, 50 := 1, 10 := 1]), map[200 := 1, 100 := 4, 50 := 3, 20 := 3, 10 := 0])
  {
    var inventory := map[100 := 5, 50 := 4, 20 := 3, 10 := 1];
    SecondTill();
    SecondWalk();
    assert PassOutcome(inventory, 160) == Ok(map[100 := 1, 50 := 1, 10 := 1]);
    InventoryChangeOwed(Single(200), 40, inventory);
    assert InventoryChange(Single(200), 40, inventory) == Ok(map[100 := 1, 50 := 1, 10 := 1]);
    assert Commits(Single(200), 40, inventory);
    InventoryOutcomeCases(Single(200), 40, inventory);
    SecondRestock();
  }

  // 100 tendered for 50 with one 100 and one 20 in the till.

  lemma ShortTill()
    ensures TillOrder(map[100 := 1, 20 := 1]) == [100, 20]
  {
    var inventory := map[100 := 1, 20 := 1];
    var ks := [100, 20];
    assert StrictlyDescending(ks);
    assert forall k :: k in ks <==> k in inventory;
    StrictlyDescendingUnique(TillOrder(inventory), ks);
  }

  /** The pass skips 100, takes the only 20 and is left owing 30. */
  lemma ShortWalk()
    ensures Dispense([100, 20], map[100 := 1, 20 := 1], 50) == (map[20 := 1], 30)
  {
    var inventory := map[100 := 1, 20 := 1];
    assert [20][1..] == [];
    Take([20], inventory, 50, 1, (map[], 30));
    assert map[20 := 1] + map[] == map[20 := 1];
    assert [100, 20][1..] == [20];
    Skip([100, 20], inventory, 50, (map[20 := 1], 30));
  }

  /** No exact change, and the till is left as it was. */
  lemma InventoryShortOfDenominations()
    ensures InventoryOutcome(Single(100), 50, map[100 := 1, 20 := 1])
      == (Err(InsufficientDenominations), map[100 := 1, 20 := 1])
  {
    var inventory := map[100 := 1, 20 := 1];
    ShortTill();
    ShortWalk();
    assert PassOutcome(inventory, 50) == Err(InsufficientDenominations);
    InventoryChangeOwed(Single(100), 50, inventory);
    InventoryOutcomeCases(Single(100), 50, inventory);
  }

  lemma InventoryRejectsShortPayment()
    ensures InventoryOutcome(Single(40), 50, map[50 := 2, 20 := 3])
      == (Err(InsufficientAmount), map[50 := 2, 20 := 3])
  {
  }

  // 100 tendered for 40 with no 50 in stock.

  lemma ZeroTill()
    ensures TillOrder(map[50 := 0, 10 := 6]) == [50, 10]
  {
    var inventory := map[50 := 0, 10 := 6];
    var ks := [50, 10];
    assert StrictlyDescending(ks);
    assert forall k :: k in ks <==> k in inventory;
    StrictlyDescendingUnique(TillOrder(inventory), ks);
  }

  /** The pass records the 50 with zero bills, then six 10s. */
  lemma ZeroWalk()
    ensures Dispense([50, 10], map[50 := 0, 10 := 6], 60) == (map[50 := 0, 10 := 6], 0)
  {
    var inventory := map[50 := 0, 10 := 6];
    assert [10][1..] == [];
    Take([10], inventory, 60, 6, (map[], 0));
    assert map[10 := 6] + map[] == map[10 := 6];
    assert [50, 10][1..] == [10];
    Take([50, 10], inventory, 60, 0, (map[10 := 6], 0));
    assert map[50 := 0] + map[10 := 6] == map[50 := 0, 10 := 6];
  }

  lemma ZeroRestock()
    ensures Restock(Withdraw(map[50 := 0, 10 := 6], map[50 := 0, 10 := 6]), [100])
      == map[50 := 0, 10 := 0, 100 := 1]
  {
    var withdrawn := Withdraw(map[50 := 0, 10 := 6], map[50 := 0, 10 := 6]);
    assert withdrawn == map[50 := 0, 10 := 0];
    assert Restock(withdrawn, [100]) == withdrawn[100 := 1];
  }

  /** A denomination not above what is owed but out of stock is still recorded,
      with a count of zero. */
  lemma ZeroStockRecorded()
    ensures InventoryOutcome(Single(100), 40, map[50 := 0, 10 := 6])
      == (Ok(map[50 := 0, 10 := 6]), map[50 := 0, 10 := 0, 100 := 1])
  {
    var inventory := map[50 := 0, 10 := 6];
    ZeroTill();
    ZeroWalk();
    assert PassOutcome(inventory, 60) == Ok(map[50 := 0, 10 := 6]);
    InventoryChangeOwed(Single(100), 40, inventory);
    assert InventoryChange(Single(100), 40, inventory) == Ok(map[50 := 0, 10 := 6]);
    assert Commits(Single(100), 40, inventory);
    InventoryOutcomeCases(Single(100), 40, inventory);
    ZeroRestock();
  }

  // Bills 20, 20 and 10 tendered for 30, 20 owed.

  lemma SeveralTill()
    ensures TillOrder(map[20 := 1, 10 := 1]) == [20, 10]
  {
    var inventory := map[20 := 1, 10 := 1];
    var ks := [20, 10];
    assert StrictlyDescending(ks);
    assert forall k :: k in ks <==> k in inventory;
    StrictlyDescendingUnique(TillOrder(inventory), ks);
  }

  lemma SeveralWalk()
    ensures Dispense([20, 10], map[20 := 1, 10 := 1], 20) == (map[20 := 1], 0)
  {
    var inventory := map[20 := 1, 10 := 1];
    assert [20, 10][1..] == [10];
    Take([20, 10], inventory, 20, 1, (map[], 0));
    assert map[20 := 1] + map[] == map[20 := 1];
  }

  /** Each tendered bill adds one to its own count. */
  lemma SeveralRestock()
    ensures Restock(Withdraw(map[20 := 1, 10 := 1], map[20 := 1]), [20, 20, 10]) == map[20 := 2, 10 := 2]
  {
    var withdrawn := Withdraw(map[20 := 1, 10 := 1], map[20 := 1]);
    assert withdrawn == map[20 := 0, 10 := 1];
    assert [20, 20, 10][..2] == [20, 20] && [20, 20][..1] == [20] && [20][..0] == [];
    assert Restock(withdrawn, [20]) == map[20 := 1, 10 := 1];
    assert Restock(withdrawn, [20, 20]) == map[20 := 2, 10 := 1];
  }

  lemma SeveralTotal()
    ensures TotalGiven(Several([20, 20, 10])) == 50
  {
    assert [20, 20, 10][..2] == [20, 20] && [20, 20][..1] == [20] && [20][..0] == [];
  }

  /** Several bills tendered all go into the till, one count each. */
  lemma SeveralBillsRestocked()
    ensures InventoryOutcome(Several([20, 20, 10]), 30, map[20 := 1, 10 := 1])
      == (Ok(map[20 := 1]), map[20 := 2, 10 := 2])
  {
    var inventory := map[20 := 1, 10 := 1];
    SeveralTotal();
    SeveralTill();
    SeveralWalk();
    assert PassOutcome(inventory, 20) == Ok(map[20 := 1]);
    InventoryChangeOwed(Several([20, 20, 10]), 30, inventory);
    assert InventoryChange(Several([20, 20, 10]), 30, inventory) == Ok(map[20 := 1]);
    assert Commits(Several([20, 20, 10]), 30, inventory);
    InventoryOutcomeCases(Several([20, 20, 10]), 30, inventory);
    SeveralRestock();
  }

  /** Exact payment hands back nothing and does not put the tendered bill in
      the till. */
  lemma ExactPaymentNotRestocked()
    ensures InventoryOutcome(Single(50), 50, map[50 := 2]) == (Ok(map[]), map[50 := 2])
  {
  }
}
