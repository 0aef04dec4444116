/** Short runs of the books that reach the failing side of the conditions in EscrowAccounting, EscrowSolvency and
    Rescans, each from the opening of the market. */
module AccountWitnesses {
  import opened Wrappers
  import opened Tables
  import opened Contract
  import opened EscrowIndex
  import opened EscrowBooks
  import opened EscrowAccounting
  import opened EscrowSolvency
  import opened AskMirror
  import opened Rescans
  import opened EscrowWitnesses

  const BOOKS := Books(CFG, 2, MARKET, [], 0, Index([], []), [], [], [], 0, 0, Free, Resting)

  /** A run given by the books between its events. */
  lemma {:induction false} Through(states: seq<Books>, events: seq<Event>)
    requires |states| == |events| + 1
    requires forall k :: 0 <= k < |events| ==> Step(states[k], events[k]) == states[k + 1]
    ensures RunBooks(states[0], events) == states[|events|]
  {
    if events != [] {
      var n := |events| - 1;
      assert forall k :: 0 <= k < n ==> Step(states[..n + 1][k], events[..n][k]) == states[..n + 1][k + 1];
      Through(states[..n + 1], events[..n]);
    }
  }

  lemma {:induction false} RunThen(b: Books, events: seq<Event>, more: seq<Event>)
    ensures RunBooks(b, events + more) == RunBooks(RunBooks(b, events), more)
  {
    if more == [] {
      assert events + more == events;
    } else {
      var n := |more| - 1;
      RunThen(b, events, more[..n]);
      assert (events + more)[..|events + more| - 1] == events + more[..n];
    }
  }

  /** An event of the daemons, or one around the contract that is no deposit or withdrawal by hand. */
  predicate Harmless(e: Event) {
    NoCrash(e) && !e.SkipCall? && (e.OnChain? && e.h.Called? ==> !e.h.call.DepositKSM? && !e.h.call.WithdrawKSM?)
  }

  lemma HarmlessIsOrderly(events: seq<Event>)
    requires forall e :: e in events ==> Harmless(e)
    ensures Orderly(BOOKS, events)
  {
    forall n | 0 <= n < |events| ensures KeepsAccount(RunBooks(BOOKS, events[..n]), events[n]) && NoCrash(events[n]) {
      assert events[n] in events;
    }
  }

  lemma OneStep(b: Books, e: Event)
    ensures RunBooks(b, [e]) == Step(b, e)
  {
    assert [e][..0] == [];
  }

  // ---------------------------------------------------------------- a deposit reaches the contract

  const WORK: Event := UniqueWork(0, true)

  /** Account 3 deposits 10. */
  const DEPOSIT: seq<Event> := [Arrives(10, 3), ScanDeposit, WORK, WORK, WORK]

  const DEPOSITED: Books :=
    BOOKS.(arrivals := [Payout(10, 3)], taken := 1, vault := 10, sends := [0],
           transfers := [Transfer(Deposit, 10, Completed, 3)], market := MARKET.(balances := map[3 := 10]))

  lemma DepositReachesContract()
    ensures RunBooks(BOOKS, DEPOSIT) == DEPOSITED
  {
    var b1 := BOOKS.(arrivals := [Payout(10, 3)], vault := 10);
    var b2 := b1.(taken := 1, transfers := [Transfer(Deposit, 10, TransferPending, 3)]);
    var b3 := b2.(transfers := [Transfer(Deposit, 10, InProgress, 3)], unique := Sending(0, None));
    var b4 := b3.(sends := [0], market := MARKET.(balances := map[3 := 10]), unique := Recording(0, true, None));
    var states := [BOOKS, b1, b2, b3, b4, DEPOSITED];
    assert Step(BOOKS, Arrives(10, 3)) == b1;
    assert Step(b1, ScanDeposit) == b2;
    assert Step(b2, WORK) == b3;
    assert Step(b3, WORK) == b4;
    assert Step(b4, WORK) == DEPOSITED;
    Through(states, DEPOSIT);
  }

  // ---------------------------------------------------------------- restarts unbalance the account

  /** A Kusama daemon restarted in the block of a deposit will record it again. */
  lemma RereadDepositUnbalances()
    ensures Opened(BOOKS) && Balanced(RunBooks(BOOKS, DEPOSIT)) && !Balanced(RunBooks(BOOKS, DEPOSIT + [KusamaCrash(0)]))
  {
    HarmlessIsOrderly(DEPOSIT);
    AccountBalances(BOOKS, DEPOSIT);
    DepositReachesContract();
    RunThen(BOOKS, DEPOSIT, [KusamaCrash(0)]);
    KusamaCrashKeepsAccountIff(DEPOSITED, 0);
    OneStep(DEPOSITED, KusamaCrash(0));
    assert ArrivedFrom(DEPOSITED.arrivals, 0) == 10 + ArrivedFrom(DEPOSITED.arrivals, 1);
  }

  /** Account 3 withdraws its balance on the contract, and the daemon records the payout. */
  const WITHDRAWAL: seq<Event> := [OnChain(Called(3, 0, WithdrawAllKSM(3))), ScanCall]

  lemma WithdrawalIsScanned()
    ensures var b := RunBooks(BOOKS, DEPOSIT + WITHDRAWAL);
            b.unique == Free && b.scanned == 1 && b.calls == [Scan(Entry(3, 1, 0, WithdrawAllKSM(3)), 10)]
  {
    DepositReachesContract();
    RunThen(BOOKS, DEPOSIT, WITHDRAWAL);
    var b1 := Step(DEPOSITED, WITHDRAWAL[0]);
    Through([DEPOSITED, b1, Step(b1, ScanCall)], WITHDRAWAL);
  }

  /** A Unique daemon restarted from the beginning will record the same withdrawal again. */
  lemma RereadWithdrawalUnbalances()
    ensures Opened(BOOKS) && Balanced(RunBooks(BOOKS, DEPOSIT + WITHDRAWAL))
            && !Balanced(RunBooks(BOOKS, DEPOSIT + WITHDRAWAL + [UniqueCrash(0)]))
  {
    var b := RunBooks(BOOKS, DEPOSIT + WITHDRAWAL);
    WithdrawalIsScanned();
    HarmlessIsOrderly(DEPOSIT + WITHDRAWAL);
    AccountBalances(BOOKS, DEPOSIT + WITHDRAWAL);
    RunThen(BOOKS, DEPOSIT + WITHDRAWAL, [UniqueCrash(0)]);
    OneStep(b, UniqueCrash(0));
    CrashKeepsAccountIff(b, 0);
    assert EmittedFrom(b.calls, 0) == 10 + EmittedFrom(b.calls, 1);
  }

  /** Another service records the block of the withdrawal first: the daemon passes over it. */
  lemma SkippedWithdrawalUnbalances()
    ensures Balanced(RunBooks(BOOKS, DEPOSIT + [WITHDRAWAL[0]])) && !Balanced(RunBooks(BOOKS, DEPOSIT + [WITHDRAWAL[0]] + [SkipCall]))
  {
    var before := DEPOSIT + [WITHDRAWAL[0]];
    HarmlessIsOrderly(before);
    AccountBalances(BOOKS, before);
    DepositReachesContract();
    RunThen(BOOKS, DEPOSIT, [WITHDRAWAL[0]]);
    RunThen(BOOKS, before, [SkipCall]);
    var b := RunBooks(BOOKS, before);
    OneStep(DEPOSITED, WITHDRAWAL[0]);
    OneStep(b, SkipCall);
    SkipKeepsAccountIff(b);
  }

  // ---------------------------------------------------------------- a sale

  /** Account 5 lists its token for 10, account 3 buys it, and the daemon records the trade. */
  const MINTING: Event := OnChain(Minted(TOKEN, 5))
  const OFFERING: Event := OnChain(Called(5, 0, AddAsk(10, 0, TOKEN, true)))
  const PURCHASE: Event := OnChain(Called(3, 0, BuyKSM(TOKEN, 3, 3)))
  const TRADING: seq<Event> := [MINTING, OFFERING, PURCHASE, ScanCall]
  const SALE: seq<Event> := TRADING + [ScanCall]

  const MINTED: Market := MARKET.(balances := map[3 := 10], owners := map[TOKEN := 5])
  const OPEN_ORDER: Order := Order(TOKEN, 0, 10, 0, 5, 1)
  const OFFERED: Market :=
    Market(1, [NO_ORDER, OPEN_ORDER], map[3 := 10], map[TOKEN := 1], map[5 := [1]], {2}, map[TOKEN := 1])
  const BOUGHT: Market :=
    Market(1, [NO_ORDER, Order(TOKEN, 0, 10, 0, 5, 0)], map[3 := 0, 5 := 10], map[TOKEN := 1], map[5 := [1]], {2}, map[TOKEN := 3])

  const LIST_CALL: Scan := Scan(Entry(5, 1, 0, AddAsk(10, 0, TOKEN, true)), 0)
  const BUY_CALL: Scan := Scan(Entry(3, 1, 0, BuyKSM(TOKEN, 3, 3)), 0)

  const OPEN_ROW: Ask := Ask(AskActive, 7, 1, 10, 5, 1, None)
  const CLOSED_ROW: Ask := Ask(AskBought, 7, 1, 10, 5, 1, Some(0))
  const TRADE: Trade := Trade(7, 1, 10, 5, 3, 10, 0, FixedPrice)

  const SOLD: Books :=
    DEPOSITED.(market := BOUGHT, calls := [LIST_CALL, BUY_CALL], scanned := 2, index := Index([CLOSED_ROW], [TRADE]),
               unique := EscrowBooks.Sold(10, Payout(10, 5)))

  lemma ChainOfSale()
    ensures Next(DEPOSITED.market, Minted(TOKEN, 5)) == MINTED
    ensures Next(MINTED, Called(5, 0, AddAsk(10, 0, TOKEN, true))) == OFFERED
    ensures Next(OFFERED, Called(3, 0, BuyKSM(TOKEN, 3, 3))) == BOUGHT
    ensures Succeeds(MINTED, Called(5, 0, AddAsk(10, 0, TOKEN, true))) && Succeeds(OFFERED, Called(3, 0, BuyKSM(TOKEN, 3, 3)))
  {
    assert MINTED.owners[TOKEN := 1] == map[TOKEN := 1] && MINTED.asks[TOKEN := 1] == map[TOKEN := 1];
    assert SellerList(MINTED, 5) + [1] == [1];
    assert MINTED.bySeller[5 := [1]] == map[5 := [1]] && MINTED.orders + [OPEN_ORDER] == [NO_ORDER, OPEN_ORDER];
    assert Pay(OFFERED.balances, 3, 5, 10) == map[3 := 0, 5 := 10];
    assert OFFERED.owners[TOKEN := 3] == map[TOKEN := 3];
  }

  /** Reading the two calls opens a row and closes it with a trade, whatever rows were closed before. */
  lemma IndexOfSale(ix: Index)
    requires forall i :: 0 <= i < |ix.asks| ==> ix.asks[i] == CLOSED_ROW
    ensures IndexCall(ix, CFG, LIST_CALL.entry) == ix.(asks := ix.asks + [OPEN_ROW])
    ensures var ix' := ix.(asks := ix.asks + [OPEN_ROW]);
            FindLive(ix'.asks, 7, 1) == Some(|ix.asks|)
            && IndexCall(ix', CFG, BUY_CALL.entry) == Index(ix.asks + [CLOSED_ROW], ix.trades + [TRADE])
  {
    TokenIsOwn();
    assert !HasLive(ix.asks, 7, 1);
    assert MarkBought(ix.asks + [OPEN_ROW], 7, 1, 0) == ix.asks + [CLOSED_ROW];
  }

  const AT_MINT: Books := DEPOSITED.(market := MINTED)
  const AT_LISTING: Books := DEPOSITED.(market := OFFERED, calls := [LIST_CALL])
  const AT_PURCHASE: Books := DEPOSITED.(market := BOUGHT, calls := [LIST_CALL, BUY_CALL])
  const AT_SCAN: Books := AT_PURCHASE.(scanned := 1, index := Index([OPEN_ROW], []))

  lemma SaleOnChain()
    ensures Step(DEPOSITED, MINTING) == AT_MINT && Step(AT_MINT, OFFERING) == AT_LISTING && Step(AT_LISTING, PURCHASE) == AT_PURCHASE
  {
    ChainOfSale();
  }

  lemma SaleIsScanned()
    ensures Step(AT_PURCHASE, ScanCall) == AT_SCAN && Step(AT_SCAN, ScanCall) == SOLD
  {
    TokenIsOwn();
    IndexOfSale(Index([], []));
  }

  lemma ListingIsScanned()
    ensures RunBooks(DEPOSITED, TRADING) == AT_SCAN
  {
    SaleOnChain();
    SaleIsScanned();
    Through([DEPOSITED, AT_MINT, AT_LISTING, AT_PURCHASE, AT_SCAN], TRADING);
  }

  lemma SaleIsRecorded()
    ensures RunBooks(BOOKS, DEPOSIT + SALE) == SOLD
  {
    DepositReachesContract();
    ListingIsScanned();
    SaleIsScanned();
    RunThen(BOOKS, DEPOSIT, SALE);
    RunThen(DEPOSITED, TRADING, [ScanCall]);
    OneStep(AT_SCAN, ScanCall);
  }

  const PASSED_OVER: seq<Event> := TRADING + [SkipCall]

  const UNSEEN: Books := AT_SCAN.(scanned := 2)

  lemma SaleIsPassedOver()
    ensures RunBooks(BOOKS, DEPOSIT + PASSED_OVER) == UNSEEN
  {
    DepositReachesContract();
    ListingIsScanned();
    RunThen(BOOKS, DEPOSIT, PASSED_OVER);
    RunThen(DEPOSITED, TRADING, [SkipCall]);
    OneStep(AT_SCAN, SkipCall);
  }

  /** Another service records the block of the sale first: with all calls behind it, the table offers a sold token. */
  lemma SkippedSaleStaysOnOffer()
    ensures RunBooks(BOOKS, DEPOSIT + PASSED_OVER) == UNSEEN && UNSEEN.scanned == |UNSEEN.calls|
    ensures TableView(UNSEEN.index.asks, 7, 1) == Some(Offer(10, 5)) && BookView(UNSEEN.market, 7, 1) == None
  {
    SaleIsPassedOver();
    IndexOfSale(Index([], []));
    assert OrderOf(UNSEEN.market, TOKEN) == OPEN_ORDER.(active := 0);
    assert UNSEEN.index.asks == [] + [OPEN_ROW];
  }

  // ---------------------------------------------------------------- a restart pays a sale twice

  /** The daemon debits the seller, records the payout, and the other daemon pays it. */
  const DEBITING: seq<Event> := [WORK, WORK, WORK]
  const RECORDING: seq<Event> := [WORK, WORK]
  const PAYING: seq<Event> := [KusamaWork(2, true), KusamaWork(2, true), KusamaWork(2, true)]
  const SETTLEMENT: seq<Event> := DEBITING + RECORDING + PAYING

  const PAID_OUT: Market := BOUGHT.(balances := map[3 := 0, 5 := 0])

  const DEBITED: Books :=
    SOLD.(market := PAID_OUT, sends := [0, 1], transfers := DEPOSITED.transfers + [Transfer(Deposit, -10, InProgress, 5)],
          unique := Recording(1, true, Some(Payout(10, 5))))

  const PAYABLE: Books :=
    DEBITED.(transfers := DEPOSITED.transfers + [Transfer(Deposit, -10, Completed, 5), Transfer(Withdraw, 10, TransferPending, 5)],
             unique := Free)

  const SETTLED: Books :=
    PAYABLE.(transfers := DEPOSITED.transfers + [Transfer(Deposit, -10, Completed, 5), Transfer(Withdraw, 10, Completed, 5)],
             sends := [0, 1, 2], vault := 0)

  lemma SaleIsDebited()
    ensures RunBooks(SOLD, DEBITING) == DEBITED
  {
    var b1 := SOLD.(transfers := DEPOSITED.transfers + [Transfer(Deposit, -10, TransferPending, 5)], unique := Queued(1, Payout(10, 5)));
    var b2 := b1.(transfers := DEBITED.transfers, unique := Sending(1, Some(Payout(10, 5))));
    assert BOUGHT.balances[5 := 0] == map[3 := 0, 5 := 0];
    assert Step(SOLD, WORK) == b1;
    assert Step(b1, WORK) == b2;
    assert Step(b2, WORK) == DEBITED;
    Through([SOLD, b1, b2, DEBITED], DEBITING);
  }

  lemma PayoutIsRecorded()
    ensures RunBooks(DEBITED, RECORDING) == PAYABLE
  {
    var b1 := DEBITED.(transfers := PAYABLE.transfers[..2], unique := Owing(Payout(10, 5)));
    assert Step(DEBITED, WORK) == b1;
    assert Step(b1, WORK) == PAYABLE;
    Through([DEBITED, b1, PAYABLE], RECORDING);
  }

  lemma PayoutIsPaid()
    ensures RunBooks(PAYABLE, PAYING) == SETTLED
  {
    var pay := KusamaWork(2, true);
    var b1 := PAYABLE.(transfers := PAYABLE.transfers[2 := Transfer(Withdraw, 10, InProgress, 5)], kusama := Transferring(2));
    var b2 := b1.(sends := [0, 1, 2], vault := 0, kusama := Settling(2, true));
    assert Step(PAYABLE, pay) == b1;
    assert Step(b1, pay) == b2;
    assert Step(b2, pay) == SETTLED;
    Through([PAYABLE, b1, b2, SETTLED], PAYING);
  }

  lemma SaleIsSettled()
    ensures RunBooks(BOOKS, DEPOSIT + SALE + SETTLEMENT) == SETTLED
  {
    SaleIsRecorded();
    SaleIsDebited();
    PayoutIsRecorded();
    PayoutIsPaid();
    RunThen(BOOKS, DEPOSIT + SALE, SETTLEMENT);
    RunThen(SOLD, DEBITING + RECORDING, PAYING);
    RunThen(SOLD, DEBITING, RECORDING);
  }

  /** Restarted before the block of the listing and the sale, it reads both again. */
  const REREADING: seq<Event> := [UniqueCrash(0), ScanCall, ScanCall]
  const REPEATING: seq<Event> := [WORK, WORK, WORK, WORK, WORK]

  const REREAD: Books := SETTLED.(index := Index([CLOSED_ROW, CLOSED_ROW], [TRADE, TRADE]), unique := EscrowBooks.Sold(10, Payout(10, 5)))

  const REPEATED: Books :=
    REREAD.(transfers := SETTLED.transfers + [Transfer(Deposit, -10, Failed, 5), Transfer(Withdraw, 10, TransferPending, 5)], unique := Free)

  lemma SaleIsReadAgain()
    ensures RunBooks(SETTLED, REREADING) == REREAD
  {
    TokenIsOwn();
    IndexOfSale(SETTLED.index);
    var b1 := SETTLED.(scanned := 0);
    var b2 := SETTLED.(scanned := 1, index := Index([CLOSED_ROW, OPEN_ROW], [TRADE]));
    assert Step(SETTLED, UniqueCrash(0)) == b1;
    assert Step(b1, ScanCall) == b2;
    assert Step(b2, ScanCall) == REREAD;
    Through([SETTLED, b1, b2, REREAD], REREADING);
  }

  lemma SaleIsQueuedAgain()
    ensures RunBooks(REREAD, REPEATING) == REPEATED
  {
    var b1 := REREAD.(transfers := SETTLED.transfers + [Transfer(Deposit, -10, TransferPending, 5)], unique := Queued(3, Payout(10, 5)));
    var b2 := b1.(transfers := SETTLED.transfers + [Transfer(Deposit, -10, InProgress, 5)], unique := Sending(3, Some(Payout(10, 5))));
    var b3 := b2.(unique := Recording(3, false, Some(Payout(10, 5))));
    var b4 := b3.(transfers := SETTLED.transfers + [Transfer(Deposit, -10, Failed, 5)], unique := Owing(Payout(10, 5)));
    assert Step(REREAD, WORK) == b1;
    assert Step(b1, WORK) == b2;
    assert Step(b2, WORK) == b3;
    assert Step(b3, WORK) == b4;
    assert Step(b4, WORK) == REPEATED;
    Through([REREAD, b1, b2, b3, b4, REPEATED], REPEATING);
  }

  /** One sale, paid and settled, is recorded a second time, with a second payout of 10; the second debit fails,
      because the balance is gone. That the sale follows a listing makes it so. */
  lemma RereadSaleIsPaidTwice()
    ensures Opened(BOOKS) && RunBooks(BOOKS, DEPOSIT + SALE + SETTLEMENT) == SETTLED
    ensures SETTLED.index.trades == [TRADE] && SETTLED.vault == 0
    ensures RunBooks(BOOKS, DEPOSIT + SALE + SETTLEMENT + REREADING + REPEATING) == REPEATED
    ensures REPEATED.index.trades == [TRADE, TRADE]
    ensures REPEATED.transfers[1..] == [Transfer(Deposit, -10, Completed, 5), Transfer(Withdraw, 10, Completed, 5),
                                        Transfer(Deposit, -10, Failed, 5), Transfer(Withdraw, 10, TransferPending, 5)]
    ensures ListedBefore(CFG, REPEATED.calls, 0, 2, 1)
  {
    TokenIsOwn();
    SaleIsSettled();
    SaleIsReadAgain();
    SaleIsQueuedAgain();
    RunThen(BOOKS, DEPOSIT + SALE + SETTLEMENT, REREADING);
    RunThen(BOOKS, DEPOSIT + SALE + SETTLEMENT + REREADING, REPEATING);
  }

  // ---------------------------------------------------------------- a seller keeps the balance and the payout

  /** Before the daemon debits the sale, the seller withdraws its balance on the contract; the debit fails. */
  const EMPTIED: seq<Event> := [OnChain(Called(5, 0, WithdrawAllKSM(5))), WORK, WORK, WORK, WORK, WORK, ScanCall]

  const WITHDRAW_CALL: Scan := Scan(Entry(5, 1, 0, WithdrawAllKSM(5)), 10)

  const UNDEBITED: Books :=
    SOLD.(market := PAID_OUT, calls := [LIST_CALL, BUY_CALL, WITHDRAW_CALL], scanned := 3, unique := Free,
          transfers := DEPOSITED.transfers + [Transfer(Deposit, -10, Failed, 5), Transfer(Withdraw, 10, TransferPending, 5),
                                              Transfer(Withdraw, 10, TransferPending, 5)])

  lemma SellerEmptiesBalance()
    ensures Step(SOLD, EMPTIED[0]) == SOLD.(market := PAID_OUT, calls := [LIST_CALL, BUY_CALL, WITHDRAW_CALL])
  {
    assert BOUGHT.balances[5 := 0] == map[3 := 0, 5 := 0];
  }

  lemma DebitFails()
    ensures RunBooks(SOLD, EMPTIED) == UNDEBITED
  {
    SellerEmptiesBalance();
    var b0 := SOLD.(market := PAID_OUT, calls := [LIST_CALL, BUY_CALL, WITHDRAW_CALL]);
    var b1 := b0.(transfers := DEPOSITED.transfers + [Transfer(Deposit, -10, TransferPending, 5)], unique := Queued(1, Payout(10, 5)));
    var b2 := b1.(transfers := DEPOSITED.transfers + [Transfer(Deposit, -10, InProgress, 5)], unique := Sending(1, Some(Payout(10, 5))));
    var b3 := b2.(unique := Recording(1, false, Some(Payout(10, 5))));
    var b4 := b3.(transfers := DEPOSITED.transfers + [Transfer(Deposit, -10, Failed, 5)], unique := Owing(Payout(10, 5)));
    var b5 := b4.(transfers := UNDEBITED.transfers[..3], unique := Free);
    assert Step(b0, WORK) == b1;
    assert Step(b1, WORK) == b2;
    assert Step(b2, WORK) == b3;
    assert Step(b3, WORK) == b4;
    assert Step(b4, WORK) == b5;
    assert Step(b5, ScanCall) == UNDEBITED;
    Through([SOLD, b0, b1, b2, b3, b4, b5, UNDEBITED], EMPTIED);
  }

  /** Nothing crashed, and still the vault holds 10 where 20 are to be paid. */
  lemma UndebitedSaleIsNotCovered()
    ensures Opened(BOOKS) && Orderly(BOOKS, DEPOSIT + SALE + EMPTIED)
    ensures var b := RunBooks(BOOKS, DEPOSIT + SALE + EMPTIED);
            Balanced(b) && AtRest(b) && b.vault == 10 && Obligations(b) == 20
  {
    SaleIsRecorded();
    DebitFails();
    RunThen(BOOKS, DEPOSIT + SALE, EMPTIED);
    HarmlessIsOrderly(DEPOSIT + SALE + EMPTIED);
    AccountBalances(BOOKS, DEPOSIT + SALE + EMPTIED);
    VaultAgainstObligations(BOOKS, DEPOSIT + SALE + EMPTIED);
    OneDebitFailed();
  }

  lemma OneDebitFailed()
    ensures FailedDebits(UNDEBITED.transfers) == 10 && Commissions(UNDEBITED.index.trades) == 0
  {
    var t := UNDEBITED.transfers;
    assert t[..3][..2] == t[..2] && t[..2][..1] == t[..1] && t[..1][..0] == [];
    assert FailedDebits(t[..1]) == 0;
    assert FailedDebits(t[..2]) == 10;
    assert FailedDebits(t[..3]) == 10;
    assert [TRADE][..0] == [];
  }
}
