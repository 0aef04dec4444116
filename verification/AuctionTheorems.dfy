/** What holds in every run of one auction, whatever the requests, the order in which transfers settle,
    the failures and the crashes. */
module AuctionTheorems {
  import opened Wrappers
  import opened BidLedger
  import opened Commission
  import opened AuctionMachine
  import opened AuctionPrice
  import opened AuctionMoney

  ghost predicate Good(l: Lot) {
    Shape(l) && PriceInv(l) && GrowthInv(l) && BalanceInv(l) && PaymentInv(l) && (NoFailedTransfer(l.rows) ==> Agreed(l))
  }

  lemma GoodKept(l: Lot, m: Move)
    requires Good(l)
    ensures Good(Next(l, m))
  {
    ShapeKept(l, m);
    PriceKept(l, m);
    GrowthKept(l, m);
    BalanceKept(l, m);
    PaymentsKept(l, m);
    if NoFailedTransfer(Next(l, m).rows) {
      NoFailedTransferBefore(l, m);
      AgreedKeptIff(l, m);
    }
  }

  lemma FreshIsGood(l: Lot)
    requires Fresh(l)
    ensures Good(l) && Covered(l.rows) && Agreed(l)
  {
  }

  lemma {:induction false} RunIsGood(l: Lot, moves: seq<Move>)
    requires Fresh(l)
    ensures Good(Run(l, moves))
  {
    if moves == [] {
      FreshIsGood(l);
    } else {
      RunIsGood(l, moves[..|moves| - 1]);
      GoodKept(Run(l, moves[..|moves| - 1]), moves[|moves| - 1]);
    }
  }

  lemma RunStep(l: Lot, moves: seq<Move>, n: nat)
    requires n < |moves|
    ensures Run(l, moves[..n + 1]) == Next(Run(l, moves[..n]), moves[n])
  {
    assert moves[..n + 1][..n] == moves[..n];
  }

  // ---------------------------------------------------------------- the cached price

  /** Until an auction is picked up, no withdrawal fails that restores a sum above the price. */
  ghost predicate HarmlessThroughout(l: Lot, moves: seq<Move>) {
    forall n :: 0 <= n < |moves| ==> Harmless(Run(l, moves[..n]), moves[n])
  }

  ghost predicate AgreedThroughout(l: Lot, moves: seq<Move>) {
    forall n :: 0 <= n <= |moves| ==> Agreed(Run(l, moves[..n]))
  }

  lemma {:induction false} AgreedUpTo(l: Lot, moves: seq<Move>, n: nat)
    requires Fresh(l) && HarmlessThroughout(l, moves) && n <= |moves|
    ensures Agreed(Run(l, moves[..n]))
  {
    if n == 0 {
      FreshIsGood(l);
    } else {
      AgreedUpTo(l, moves, n - 1);
      RunIsGood(l, moves[..n - 1]);
      RunStep(l, moves, n - 1);
      AgreedKeptIff(Run(l, moves[..n - 1]), moves[n - 1]);
    }
  }

  /** Price and rows agree all through a run, and price and final price through its closes, exactly when no
      withdrawal fails that restores a sum above the price. */
  lemma AgreedThroughoutIff(l: Lot, moves: seq<Move>)
    requires Fresh(l)
    ensures AgreedThroughout(l, moves) <==> HarmlessThroughout(l, moves)
  {
    if HarmlessThroughout(l, moves) {
      forall n | 0 <= n <= |moves| ensures Agreed(Run(l, moves[..n])) {
        AgreedUpTo(l, moves, n);
      }
    }
    if AgreedThroughout(l, moves) {
      forall n | 0 <= n < |moves| ensures Harmless(Run(l, moves[..n]), moves[n]) {
        assert Agreed(Run(l, moves[..n])) && Agreed(Run(l, moves[..n + 1]));
        RunStep(l, moves, n);
        RunIsGood(l, moves[..n]);
        AgreedKeptIff(Run(l, moves[..n]), moves[n]);
      }
    }
  }

  lemma {:induction false} NoFailedTransferUpTo(l: Lot, moves: seq<Move>, n: nat)
    requires NoFailedTransfer(Run(l, moves).rows) && n <= |moves|
    ensures NoFailedTransfer(Run(l, moves[..n]).rows)
    ensures n < |moves| ==> Harmless(Run(l, moves[..n]), moves[n])
    decreases |moves| - n
  {
    if n == |moves| {
      assert moves[..n] == moves;
    } else {
      NoFailedTransferUpTo(l, moves, n + 1);
      RunStep(l, moves, n);
      NoFailedTransferBefore(Run(l, moves[..n]), moves[n]);
    }
  }

  /** In particular without any failed withdrawal. */
  lemma NoFailedTransferIsHarmless(l: Lot, moves: seq<Move>)
    requires NoFailedTransfer(Run(l, moves).rows)
    ensures HarmlessThroughout(l, moves)
  {
    forall n | 0 <= n < |moves| ensures Harmless(Run(l, moves[..n]), moves[n]) {
      NoFailedTransferUpTo(l, moves, n);
    }
  }

  /** Until an auction is picked up for closing, its cached price never exceeds the largest pending sum,
      and it is that sum (the start price while there are no rows) if the failed withdrawals were harmless. */
  lemma CachedPriceFollowsRows(l: Lot, moves: seq<Move>)
    requires Fresh(l) && Unsettled(Run(l, moves).status)
    ensures var l' := Run(l, moves);
            && PriceBounded(l'.rows, l'.price)
            && (HarmlessThroughout(l, moves) || NoFailedTransfer(l'.rows) ==> PriceAgrees(l'.rows, l'.startPrice, l'.price))
  {
    RunIsGood(l, moves);
    assert moves[..|moves|] == moves;
    if HarmlessThroughout(l, moves) {
      AgreedUpTo(l, moves, |moves|);
    }
  }

  // ---------------------------------------------------------------- solvency

  /** No withdrawal starts while the same bidder has another one in flight. */
  ghost predicate OneAtATime(l: Lot, moves: seq<Move>) {
    forall n :: 0 <= n < |moves| && moves[n].TakeBack? && Enabled(Run(l, moves[..n]), moves[n])
      ==> !InFlight(Run(l, moves[..n]).rows, moves[n].bidder)
  }

  ghost predicate CoveredThroughout(l: Lot, moves: seq<Move>) {
    forall n :: 0 <= n <= |moves| ==> Covered(Run(l, moves[..n]).rows)
  }

  lemma {:induction false} CoveredUpTo(l: Lot, moves: seq<Move>, n: nat)
    requires Fresh(l) && OneAtATime(l, moves) && n <= |moves|
    ensures Covered(Run(l, moves[..n]).rows)
  {
    if n == 0 {
      FreshIsGood(l);
    } else {
      CoveredUpTo(l, moves, n - 1);
      RunIsGood(l, moves[..n - 1]);
      RunStep(l, moves, n - 1);
      CoveredKept(Run(l, moves[..n - 1]), moves[n - 1]);
    }
  }

  /** No worst-case sum turns negative all through a run exactly when withdrawals of one bidder never overlap. */
  lemma CoveredThroughoutIff(l: Lot, moves: seq<Move>)
    requires Fresh(l)
    ensures CoveredThroughout(l, moves) <==> OneAtATime(l, moves)
  {
    if OneAtATime(l, moves) {
      forall n | 0 <= n <= |moves| ensures Covered(Run(l, moves[..n]).rows) {
        CoveredUpTo(l, moves, n);
      }
    }
    if CoveredThroughout(l, moves) {
      forall n | 0 <= n < |moves| && moves[n].TakeBack? && Enabled(Run(l, moves[..n]), moves[n])
        ensures !InFlight(Run(l, moves[..n]).rows, moves[n].bidder)
      {
        RunStep(l, moves, n);
        assert Covered(Run(l, moves[..n + 1]).rows);
        TakeBackCoversIff(Run(l, moves[..n]), moves[n]);
      }
    }
  }

  // What is in flight may settle in any order and in any way.

  predicate IsSettlement(m: Move) {
    m.BidLanded? || m.BidFailed? || m.TransferLanded? || m.TransferFailed?
  }

  predicate Settlements(moves: seq<Move>) {
    forall n :: 0 <= n < |moves| ==> IsSettlement(moves[n])
  }

  /** However everything in flight settles, no final and no pending sum is negative on the way. */
  ghost predicate SolventHoweverSettled(l: Lot) {
    forall rest :: Settlements(rest) ==> Solvent(Run(l, rest).rows)
  }

  lemma {:induction false} SettlementsKeepCovered(l: Lot, rest: seq<Move>)
    requires Shape(l) && Covered(l.rows) && Settlements(rest)
    ensures Shape(Run(l, rest)) && Covered(Run(l, rest).rows)
  {
    if rest != [] {
      var n := |rest| - 1;
      SettlementsKeepCovered(l, rest[..n]);
      assert IsSettlement(rest[n]);
      ShapeKept(Run(l, rest[..n]), rest[n]);
      CoveredKept(Run(l, rest[..n]), rest[n]);
    }
  }

  /** The query for the first grouped row has an answer. */
  lemma SomeFirst(rows: seq<Bid>, s: Scope) returns (w: Option<Address>)
    ensures IsFirst(rows, s, w)
  {
    if HasAny(rows, s) {
      var i :| 0 <= i < |rows| && Counts(s, rows[i]);
      var top := TopAmong(rows, s, |rows|, i);
      w := Some(top);
    } else {
      w := None;
    }
  }

  lemma {:induction false} TopAmong(rows: seq<Bid>, s: Scope, n: nat, i: nat) returns (w: Address)
    requires n <= |rows| && i < |rows| && Counts(s, rows[i])
    ensures Present(rows, w, s)
    ensures forall k :: 0 <= k < n && Counts(s, rows[k]) ==> Total(rows, rows[k].bidder, s) <= Total(rows, w, s)
  {
    if n == 0 {
      w := rows[i].bidder;
    } else {
      w := TopAmong(rows, s, n - 1, i);
      if Counts(s, rows[n - 1]) && Total(rows, rows[n - 1].bidder, s) > Total(rows, w, s) {
        w := rows[n - 1].bidder;
      }
    }
  }

  /** The first n rows settled in the worst way. */
  function WorstUpTo(rows: seq<Bid>, n: nat): seq<Bid>
    requires n <= |rows|
  {
    Worst(rows)[..n] + rows[n..]
  }

  lemma SettleOne(l: Lot, j: nat) returns (m: Move)
    requires InFlightAt(l.rows, j)
    ensures IsSettlement(m) && Next(l, m).rows == Mark(l.rows, j, if l.rows[j].amount < 0 then Finished else Error)
  {
    if l.rows[j].amount < 0 {
      m := TransferLanded(j);
    } else {
      var winner := SomeFirst(Mark(l.rows, j, Error), Pending);
      m := BidFailed(j, winner);
    }
  }

  lemma {:induction false} SettleWorst(l: Lot, n: nat) returns (rest: seq<Move>)
    requires n <= |l.rows|
    ensures Settlements(rest) && Run(l, rest).rows == WorstUpTo(l.rows, n)
  {
    if n == 0 {
      rest := [];
    } else {
      var before := SettleWorst(l, n - 1);
      var l1 := Run(l, before);
      var r := l.rows[n - 1];
      assert l1.rows[n - 1] == r;
      if r.status != Minting {
        rest := before;
        assert WorstUpTo(l.rows, n) == WorstUpTo(l.rows, n - 1);
      } else {
        var m := SettleOne(l1, n - 1);
        rest := before + [m];
        assert rest[..|before|] == before;
        assert Run(l, rest).rows == WorstUpTo(l.rows, n);
      }
    }
  }

  /** Covered is exactly the condition under which no settlement of what is in flight overdraws anyone. */
  lemma CoveredIffSolventHoweverSettled(l: Lot)
    requires Shape(l)
    ensures Covered(l.rows) <==> SolventHoweverSettled(l)
  {
    if Covered(l.rows) {
      forall rest | Settlements(rest) ensures Solvent(Run(l, rest).rows) {
        SettlementsKeepCovered(l, rest);
        CoveredIsSolvent(Run(l, rest).rows);
      }
    }
    if SolventHoweverSettled(l) {
      var rest := SettleWorst(l, |l.rows|);
      assert WorstUpTo(l.rows, |l.rows|) == Worst(l.rows);
      forall b ensures Total(l.rows, b, Exposed) >= 0 {
        ExposedIsWorst(l.rows, b);
      }
    }
  }

  /** Nobody can be overdrawn at any point of a run, however everything in flight settles from there, exactly when
      withdrawals of one bidder never overlap. */
  lemma SolventThroughoutIff(l: Lot, moves: seq<Move>)
    requires Fresh(l)
    ensures (forall n :: 0 <= n <= |moves| ==> SolventHoweverSettled(Run(l, moves[..n]))) <==> OneAtATime(l, moves)
  {
    CoveredThroughoutIff(l, moves);
    forall n | 0 <= n <= |moves|
      ensures Covered(Run(l, moves[..n]).rows) <==> SolventHoweverSettled(Run(l, moves[..n]))
    {
      RunIsGood(l, moves[..n]);
      CoveredIffSolventHoweverSettled(Run(l, moves[..n]));
    }
  }

  /** In such a run no bidder's final sum and no bidder's pending sum is ever negative. */
  lemma NobodyIsOverdrawn(l: Lot, moves: seq<Move>)
    requires Fresh(l) && OneAtATime(l, moves)
    ensures Solvent(Run(l, moves).rows)
  {
    CoveredUpTo(l, moves, |moves|);
    assert moves[..|moves|] == moves;
    CoveredIsSolvent(Run(l, moves).rows);
  }

  // ---------------------------------------------------------------- balances, growth

  /** Without failures every balance column equals the bidder's running sum, whichever service wrote the row. */
  lemma BalancesRun(l: Lot, moves: seq<Move>, i: nat)
    requires Fresh(l) && NoFailure(Run(l, moves).rows) && i < |Run(l, moves).rows|
    ensures BalanceAt(Run(l, moves).rows, i)
  {
    RunIsGood(l, moves);
  }

  lemma RunTwo(l: Lot, first: Move, second: Move)
    ensures Run(l, [first, second]) == Next(Next(l, first), second)
  {
    var moves := [first, second];
    var one := [first];
    var none: seq<Move> := [];
    assert one[..|one| - 1] == none;
    assert Run(l, none) == l;
    assert Run(l, one) == Next(l, first);
    assert moves[..|moves| - 1] == one;
  }

  /** Two accepted bids of one bidder that leave the price where it started. */
  lemma SmallRaise(l: Lot)
    requires Fresh(l) && l.startPrice < l.priceStep
    ensures var l' := Run(l, [Place(1, l.startPrice), Place(1, 0)]);
            Unsettled(l'.status) && NoFailure(l'.rows) && !GrowsBySteps(l')
  {
    RunTwo(l, Place(1, l.startPrice), Place(1, 0));
    FirstBid(l);
    SecondSmallBid(Next(l, Place(1, l.startPrice)));
  }

  lemma FirstBid(l: Lot)
    requires Fresh(l)
    ensures Next(l, Place(1, l.startPrice)) == l.(rows := [Bid(l.id, 1, l.startPrice, l.startPrice, Minting)])
  {
    assert Total(l.rows, 1, Pending) == 0;
    assert l.rows + [Bid(l.id, 1, l.startPrice, l.startPrice, Minting)] == [Bid(l.id, 1, l.startPrice, l.startPrice, Minting)];
  }

  lemma SecondSmallBid(l: Lot)
    requires l.status == Active && l.price == l.startPrice && 1 <= l.startPrice < l.priceStep
    requires l.rows == [Bid(l.id, 1, l.startPrice, l.startPrice, Minting)]
    ensures var l' := Next(l, Place(1, 0));
            l'.status == Active && NoFailure(l'.rows) && !GrowsBySteps(l')
  {
    var r := l.rows[0];
    TotalSnoc([], r, 1, Pending);
    assert [] + [r] == [r];
    assert Total(l.rows, 1, Pending) == l.startPrice;
    assert Accepts(l, 1, 0);
    var l' := Apply(l, Place(1, 0));
    BidsSnoc([], r);
    BidsSnoc([r], l'.rows[1]);
    assert Bids(l'.rows) == 2;
  }

  /** In every run without failures the price climbs by a step per accepted bid after the first,
      exactly when the auction starts at a step or more. */
  lemma PriceClimbsIff(startPrice: int, priceStep: int)
    requires startPrice >= 1 && priceStep >= 1
    ensures (forall l, moves ::
              Fresh(l) && l.startPrice == startPrice && l.priceStep == priceStep
              && Unsettled(Run(l, moves).status) && NoFailure(Run(l, moves).rows)
              ==> GrowsBySteps(Run(l, moves)))
            <==> startPrice >= priceStep
  {
    if startPrice >= priceStep {
      forall l, moves | Fresh(l) && l.startPrice == startPrice && l.priceStep == priceStep
                        && Unsettled(Run(l, moves).status) && NoFailure(Run(l, moves).rows)
        ensures GrowsBySteps(Run(l, moves))
      {
        RunIsGood(l, moves);
        TermsNeverChange(l, moves);
      }
    } else {
      var l := Lot(0, Active, startPrice, priceStep, startPrice, [], None, []);
      SmallRaise(l);
    }
  }

  lemma {:induction false} TermsNeverChange(l: Lot, moves: seq<Move>)
    ensures var l' := Run(l, moves);
            l'.id == l.id && l'.startPrice == l.startPrice && l'.priceStep == l.priceStep
  {
    if moves != [] {
      TermsNeverChange(l, moves[..|moves| - 1]);
    }
  }

  // ---------------------------------------------------------------- stopping and closing

  /** A stopped auction takes no new row until it is picked up. */
  lemma StoppedTakesNoRow(l: Lot, m: Move)
    requires Shape(l) && l.status == Stopped && !m.PickUp?
    ensures |Next(l, m).rows| == |l.rows| && Next(l, m).status == Stopped
    ensures forall i :: 0 <= i < |l.rows| && l.rows[i].status != Minting ==> Next(l, m).rows[i] == l.rows[i]
  {
  }

  ghost predicate ReadyToClose(l: Lot) {
    l.status == Stopped && NoMinting(l.rows)
  }

  /** Ready to close is stable: nothing but the pick-up changes such an auction at all. */
  lemma {:induction false} ReadyIsStable(l: Lot, moves: seq<Move>)
    requires Shape(l) && ReadyToClose(l)
    requires forall n :: 0 <= n < |moves| ==> !moves[n].PickUp?
    ensures Run(l, moves) == l
  {
    if moves != [] {
      ReadyIsStable(l, moves[..|moves| - 1]);
    }
  }

  /** At pick-up the winner's total is at least the cached price, and equal to it exactly when the price agrees
      with the rows, as it does if the failed withdrawals were harmless: the payout and the trade record are
      computed from one amount. */
  lemma SettlementAgrees(l: Lot, moves: seq<Move>, list: seq<Aggregate>)
    requires Fresh(l) && Enabled(Run(l, moves), PickUp(list)) && list != []
    ensures var l' := Run(l, moves);
            && l'.price <= list[0].total
            && (l'.price == list[0].total <==> PriceAgrees(l'.rows, l'.startPrice, l'.price))
            && (HarmlessThroughout(l, moves) || NoFailedTransfer(l'.rows) ==> l'.price == list[0].total)
  {
    RunIsGood(l, moves);
    PriceAtPickUp(Run(l, moves), list);
    CachedPriceFollowsRows(l, moves);
  }

  /** The market submits each loser's refund and the seller's payout at most once, across crashes. */
  lemma PaidAtMostOnce(l: Lot, moves: seq<Move>)
    requires Fresh(l)
    ensures AtMostOnce(Run(l, moves).payments)
  {
    RunIsGood(l, moves);
  }

  /** Conservation at close, for any run before it: if withdrawals never overlapped and every transfer of the
      close succeeds, all final money is refunded, paid to the seller or kept as the fee, and afterwards
      the ledger holds the final price of the winner and nothing else. */
  lemma CloseBalances(l: Lot, moves: seq<Move>, list: seq<Aggregate>, landed: seq<bool>, seller: Address, commission: nat)
    requires Fresh(l) && OneAtATime(l, moves)
    requires Enabled(Run(l, moves), PickUp(list)) && list != []
    requires |landed| == |list| - 1 && AllLand(landed)
    ensures var l' := Run(l, moves);
            var end := CloseOut(l', list, landed, seller, commission, true);
            && Paid(end.payments) + MarketFee(list[0].total, commission) == GrandTotal(l'.rows, Actual)
            && (forall b :: Total(end.rows, b, Actual) == if b == list[0].bidder then list[0].total else 0)
  {
    var l' := Run(l, moves);
    RunIsGood(l, moves);
    NobodyIsOverdrawn(l, moves);
    CloseConserves(l', list, landed, seller, commission);
    forall b ensures Total(CloseOut(l', list, landed, seller, commission, true).rows, b, Actual)
                  == if b == list[0].bidder then list[0].total else 0 {
      CloseSettlesEveryone(l', list, landed, seller, commission, b);
    }
  }
}
