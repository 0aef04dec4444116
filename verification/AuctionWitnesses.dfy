/** Runs of one auction that reach the failing side of the conditions in AuctionTheorems and AuctionMoney. */
module AuctionWitnesses {
  import opened Wrappers
  import opened BidLedger
  import opened Commission
  import opened AuctionMachine
  import opened AuctionPrice
  import opened AuctionMoney
  import opened AuctionTheorems

  // ---------------------------------------------------------------- sums over a few rows of three bidders

  function ShareAt(rows: seq<Bid>, i: nat, b: Address, s: Scope): int {
    if i < |rows| then Share(rows[i], b, s) else 0
  }

  function FewShares(rows: seq<Bid>, b: Address, s: Scope): int {
    ShareAt(rows, 0, b, s) + ShareAt(rows, 1, b, s) + ShareAt(rows, 2, b, s) + ShareAt(rows, 3, b, s) + ShareAt(rows, 4, b, s)
  }

  lemma TotalOfFew(rows: seq<Bid>, b: Address, s: Scope)
    requires |rows| <= 5
    ensures Total(rows, b, s) == FewShares(rows, b, s)
  {
    if rows != [] {
      var n := |rows| - 1;
      forall i: nat | i < n ensures ShareAt(rows, i, b, s) == ShareAt(rows[..n], i, b, s) {}
      TotalOfFew(rows[..n], b, s);
    }
  }

  predicate Few(rows: seq<Bid>) {
    |rows| <= 5 && forall i :: 0 <= i < |rows| ==> 1 <= rows[i].bidder <= 3
  }

  lemma TotalsOfFew(rows: seq<Bid>, s: Scope)
    requires Few(rows)
    ensures forall b :: Total(rows, b, s) == FewShares(rows, b, s)
  {
    forall b ensures Total(rows, b, s) == FewShares(rows, b, s) {
      TotalOfFew(rows, b, s);
    }
  }

  /** The bidder of row i leads if no sum of the three is larger. */
  lemma FirstOfFew(rows: seq<Bid>, s: Scope, i: nat)
    requires Few(rows) && i < |rows| && Counts(s, rows[i])
    requires forall b :: 1 <= b <= 3 ==> Total(rows, b, s) <= Total(rows, rows[i].bidder, s)
    ensures IsFirst(rows, s, Some(rows[i].bidder)) && HasAny(rows, s)
  {
  }

  lemma RunPush(l: Lot, moves: seq<Move>, m: Move)
    ensures Run(l, moves + [m]) == Next(Run(l, moves), m)
  {
    assert (moves + [m])[..|moves|] == moves;
  }

  const START := Lot(0, Active, 1, 1, 1, [], None, [])

  // ---------------------------------------------------------------- two bidders, 10 and 20, both landed

  const TWO_BIDS: seq<Move> := [Place(1, 10), BidLanded(0), Place(2, 20), BidLanded(1)]

  const TWO_ROWS: seq<Bid> := [Bid(0, 1, 10, 10, Finished), Bid(0, 2, 20, 20, Finished)]

  const ONE_BID: seq<Bid> := [Bid(0, 1, 10, 10, Minting)]
  const ONE_LANDED: seq<Bid> := [Bid(0, 1, 10, 10, Finished)]
  const SECOND_BID: seq<Bid> := ONE_LANDED + [Bid(0, 2, 20, 20, Minting)]

  lemma BidTen()
    ensures Next(START, Place(1, 10)) == START.(price := 10, rows := ONE_BID)
  {
    var l: Lot := START;
    assert Total(l.rows, 1, Pending) == 0 && !HasAny(l.rows, Pending);
    assert Accepts(l, 1, 10);
    var row := BidRow(0, l.rows, 1, 10);
    assert row == Bid(0, 1, 10, 10, Minting);
    assert l.rows + [row] == ONE_BID;
    assert Apply(l, Place(1, 10)) == l.(price := 10, rows := l.rows + [row]);
  }

  lemma BidTwenty()
    ensures Next(START.(price := 10, rows := ONE_LANDED), Place(2, 20)) == START.(price := 20, rows := SECOND_BID)
  {
    TotalOfFew(ONE_LANDED, 2, Pending);
    assert Counts(Pending, ONE_LANDED[0]);
  }

  lemma BothLand()
    ensures Next(START.(price := 10, rows := ONE_BID), BidLanded(0)) == START.(price := 10, rows := ONE_LANDED)
    ensures Next(START.(price := 20, rows := SECOND_BID), BidLanded(1)) == START.(price := 20, rows := TWO_ROWS)
  {
  }

  lemma FirstTwoBids()
    ensures Run(START, TWO_BIDS) == START.(price := 20, rows := TWO_ROWS)
  {
    BidTen();
    BidTwenty();
    BothLand();
    RunFour(START, Place(1, 10), BidLanded(0), Place(2, 20), BidLanded(1));
  }

  lemma RunFour(l: Lot, m0: Move, m1: Move, m2: Move, m3: Move)
    ensures Run(l, [m0, m1, m2, m3]) == Next(Next(Next(Next(l, m0), m1), m2), m3)
  {
    assert [m0, m1, m2, m3][..3] == [m0, m1, m2] && [m0, m1, m2][..2] == [m0, m1] && [m0, m1][..1] == [m0] && [m0][..0] == [];
    assert Run(l, [m0]) == Next(l, m0);
    assert Run(l, [m0, m1]) == Next(Run(l, [m0]), m1);
    assert Run(l, [m0, m1, m2]) == Next(Run(l, [m0, m1]), m2);
  }

  // ---------------------------------------------------------------- the price comes apart from the rows

  const THREE_ROWS: seq<Bid> := TWO_ROWS + [Bid(0, 1, 50, 60, Minting)]
  const FOUR_ROWS: seq<Bid> := THREE_ROWS + [Bid(0, 3, 100, 100, Minting)]
  const FIVE_ROWS: seq<Bid> := FOUR_ROWS + [Bid(0, 1, -10, 50, Minting)]

  lemma OutbidTwice()
    ensures Next(START.(price := 20, rows := TWO_ROWS), Place(1, 50)) == START.(price := 60, rows := THREE_ROWS)
    ensures Next(START.(price := 60, rows := THREE_ROWS), Place(3, 100)) == START.(price := 100, rows := FOUR_ROWS)
  {
    TotalOfFew(TWO_ROWS, 1, Pending);
    TotalOfFew(THREE_ROWS, 3, Pending);
    assert Counts(Pending, TWO_ROWS[0]) && Counts(Pending, THREE_ROWS[0]);
  }

  lemma TakeTenBack()
    ensures Next(START.(price := 100, rows := FOUR_ROWS), TakeBack(1, Some(3), Some(2))) == START.(price := 100, rows := FIVE_ROWS)
  {
    TotalsOfFew(FOUR_ROWS, Pending);
    TotalsOfFew(FOUR_ROWS, Actual);
    FirstOfFew(FOUR_ROWS, Pending, 3);
    FirstOfFew(FOUR_ROWS, Actual, 1);
  }

  lemma ThirdBidFails()
    ensures Next(START.(price := 100, rows := FIVE_ROWS), BidFailed(3, Some(1))) == START.(price := 50, rows := Mark(FIVE_ROWS, 3, Error))
  {
    var rows := Mark(FIVE_ROWS, 3, Error);
    TotalsOfFew(rows, Pending);
    FirstOfFew(rows, Pending, 2);
  }

  lemma WithdrawalFails()
    ensures Next(START.(price := 50, rows := Mark(FIVE_ROWS, 3, Error)), TransferFailed(4))
         == START.(price := 50, rows := Mark(Mark(FIVE_ROWS, 3, Error), 4, Error))
  {
  }

  const RESTORING_RUN: seq<Move> :=
    TWO_BIDS + [Place(1, 50)] + [Place(3, 100)] + [TakeBack(1, Some(3), Some(2))] + [BidFailed(3, Some(1))] + [TransferFailed(4)]

  /** A run that ends with the price 50 while the leading pending sum is 60: the withdrawal that failed last
      restored 10 to a sum that had become the price. */
  lemma FailedWithdrawalOutgrowsPrice()
    ensures var l := Run(START, RESTORING_RUN);
            && Fresh(START) && l.status == Active && l.price == 50 && Total(l.rows, 1, Pending) == 60
            && !PriceAgrees(l.rows, l.startPrice, l.price)
            && !HarmlessThroughout(START, RESTORING_RUN)
  {
    var rows := Mark(Mark(FIVE_ROWS, 3, Error), 4, Error);
    RestoringRun();
    TotalsOfFew(rows, Pending);
    assert Present(rows, 1, Pending) by { assert Counts(Pending, rows[0]); }
    if PriceAgrees(rows, 1, 50) {
      TopHolds(rows, 1, 50, 1);
      assert false;
    }
    assert RESTORING_RUN[..|RESTORING_RUN|] == RESTORING_RUN;
    AgreedThroughoutIff(START, RESTORING_RUN);
  }

  lemma RestoringRun()
    ensures Run(START, RESTORING_RUN) == START.(price := 50, rows := Mark(Mark(FIVE_ROWS, 3, Error), 4, Error))
  {
    FirstTwoBids();
    RunPush(START, TWO_BIDS, Place(1, 50));
    RunPush(START, TWO_BIDS + [Place(1, 50)], Place(3, 100));
    OutbidTwice();
    var before := TWO_BIDS + [Place(1, 50)] + [Place(3, 100)];
    RunPush(START, before, TakeBack(1, Some(3), Some(2)));
    TakeTenBack();
    RunPush(START, before + [TakeBack(1, Some(3), Some(2))], BidFailed(3, Some(1)));
    ThirdBidFails();
    RunPush(START, before + [TakeBack(1, Some(3), Some(2))] + [BidFailed(3, Some(1))], TransferFailed(4));
    WithdrawalFails();
  }

  // ---------------------------------------------------------------- a bidder is overdrawn, and the close does not balance

  const ONE_BACK: seq<Bid> := TWO_ROWS + [Bid(0, 1, -10, 0, Minting)]
  const BOTH_BACK: seq<Bid> := ONE_BACK + [Bid(0, 1, -10, -10, Minting)]
  const BOTH_LANDED: seq<Bid> := Mark(Mark(BOTH_BACK, 2, Finished), 3, Finished)

  const AGAIN: Move := TakeBack(1, Some(2), Some(2))

  lemma TakeBackOnce()
    ensures Next(START.(price := 20, rows := TWO_ROWS), AGAIN) == START.(price := 20, rows := ONE_BACK)
  {
    TotalsOfFew(TWO_ROWS, Pending);
    TotalsOfFew(TWO_ROWS, Actual);
    FirstOfFew(TWO_ROWS, Pending, 1);
    FirstOfFew(TWO_ROWS, Actual, 1);
  }

  lemma TakeBackTwice()
    ensures Next(START.(price := 20, rows := ONE_BACK), AGAIN) == START.(price := 20, rows := BOTH_BACK)
  {
    TotalsOfFew(ONE_BACK, Pending);
    TotalsOfFew(ONE_BACK, Actual);
    FirstOfFew(ONE_BACK, Pending, 1);
    FirstOfFew(ONE_BACK, Actual, 1);
  }

  const OVERLAPPING_RUN: seq<Move> := TWO_BIDS + [AGAIN] + [AGAIN] + [TransferLanded(2)] + [TransferLanded(3)]

  lemma OverlappingRun()
    ensures Run(START, OVERLAPPING_RUN) == START.(price := 20, rows := BOTH_LANDED)
  {
    FirstTwoBids();
    RunPush(START, TWO_BIDS, AGAIN);
    RunPush(START, TWO_BIDS + [AGAIN], AGAIN);
    TakeBackOnce();
    TakeBackTwice();
    RunPush(START, TWO_BIDS + [AGAIN] + [AGAIN], TransferLanded(2));
    RunPush(START, TWO_BIDS + [AGAIN] + [AGAIN] + [TransferLanded(2)], TransferLanded(3));
  }

  /** Two overlapping withdrawals of the same 10 both land: the bidder ends at -10. */
  lemma OverlappingWithdrawalsOverdraw()
    ensures var l := Run(START, OVERLAPPING_RUN);
            && Fresh(START) && Total(l.rows, 1, Actual) == -10 && !Solvent(l.rows)
            && !OneAtATime(START, OVERLAPPING_RUN)
  {
    OverlappingRun();
    TotalOfFew(BOTH_LANDED, 1, Actual);
    if OneAtATime(START, OVERLAPPING_RUN) {
      NobodyIsOverdrawn(START, OVERLAPPING_RUN);
      assert false;
    }
  }

  const FINAL_LIST: seq<Aggregate> := [Aggregate(2, 20), Aggregate(1, -10)]

  lemma FinalListing()
    ensures IsListing(FINAL_LIST, BOTH_LANDED, Actual)
  {
    TotalsOfFew(BOTH_LANDED, Actual);
    var rows := BOTH_LANDED;
    forall b ensures Listed(FINAL_LIST, b) <==> Present(rows, b, Actual) {
      assert rows[0].bidder == 1 && rows[1].bidder == 2 && rows[2].bidder == 1 && rows[3].bidder == 1;
      assert Counts(Actual, rows[0]) && Counts(Actual, rows[1]);
      assert FINAL_LIST[0].bidder == 2 && FINAL_LIST[1].bidder == 1;
    }
  }

  /** Stopped and closed after that run, the auction pays out and keeps 20 although it holds only 10. */
  lemma OverdrawnCloseDoesNotBalance(seller: Address, commission: nat)
    ensures var l := Run(START, OVERLAPPING_RUN + [Stop]);
            && Enabled(l, PickUp(FINAL_LIST)) && !NoneNegative(FINAL_LIST[1..])
            && Paid(CloseOut(l, FINAL_LIST, [true], seller, commission, true).payments) - Paid(l.payments) + MarketFee(20, commission)
               != GrandTotal(l.rows, Actual)
  {
    var l := Run(START, OVERLAPPING_RUN + [Stop]);
    OverlappingRun();
    RunPush(START, OVERLAPPING_RUN, Stop);
    assert l == START.(price := 20, rows := BOTH_LANDED, status := Stopped);
    FinalListing();
    assert FINAL_LIST[1..][0] == Aggregate(1, -10);
    RunIsGood(START, OVERLAPPING_RUN + [Stop]);
    CloseConserves(l, FINAL_LIST, [true], seller, commission);
  }
}
