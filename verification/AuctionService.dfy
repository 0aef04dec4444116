/** The auction services over their tables. Each method is one service call: what it leaves in the tables is
    the step of AuctionWorld with the same name, so every theorem about runs speaks about any sequence of calls.
    A parameter landed or paid is the outcome of the chain transfer that the call waits for. */
module AuctionService {
  import opened Wrappers
  import opened Tables
  import opened BidLedger
  import opened Commission
  import opened AuctionMachine
  import opened AuctionWorld
  import opened AuctionRefinement
  import opened AuctionClosing
  import opened AuctionLaws

  datatype CalculationInfo = CalculationInfo(
    contractPendingPrice: int,
    priceStep: int,
    bidderPendingAmount: int,
    minBidderAmount: int)

  /** A quote: its minimum is the least amount that takes the bidder to the goal. */
  ghost predicate Quotes(l: Lot, bidder: Address, info: CalculationInfo) {
    && info.contractPendingPrice == l.price
    && info.priceStep == l.priceStep
    && info.bidderPendingAmount == Total(l.rows, bidder, Pending)
    && info.bidderPendingAmount + info.minBidderAmount == Goal(l, bidder)
  }

  lemma WithdrawIsStep(w: World, collection: nat, token: nat, bidder: Address, pendingTop: Option<Address>, actualTop: Option<Address>)
    requires WellFormed(w)
    requires var r := WithdrawOutcome(w, collection, token, bidder, pendingTop, actualTop);
             r.Success? ==> IsFirst(OfAuction(w.bids, r.value), Pending, pendingTop) && IsFirst(OfAuction(w.bids, r.value), Actual, actualTop)
    ensures Step(w, Withdraw(collection, token, bidder, pendingTop, actualTop))
         == match WithdrawOutcome(w, collection, token, bidder, pendingTop, actualTop)
            case Failure(_) => w
            case Success(a) => WithdrawWorld(w, a, bidder)
  {
  }

  /** Between two databases the listed auctions were closed and no other one changed. */
  ghost predicate OnlyClosed(start: World, w: World, closed: seq<nat>) {
    && WellFormed(start) && WellFormed(w) && |w.auctions| == |start.auctions|
    && (forall a :: a in closed ==> a < |w.auctions| && !Unsettled(w.auctions[a].status))
    && (forall x: nat :: x < |w.auctions| && x !in closed ==> LotOf(w, x) == LotOf(start, x) && SameOffer(start, w, x))
  }

  predicate SameOffer(w: World, w': World, x: nat)
    requires WellFormed(w) && WellFormed(w') && x < |w.auctions| == |w'.auctions|
  {
    w'.auctions[x] == w.auctions[x] && w'.asks[w'.auctions[x].ask] == w.asks[w.auctions[x].ask]
  }

  /** Among the closed auctions, exactly the last one threw if the round ended with an error, and none otherwise. */
  predicate LastThrows(start: World, closed: seq<nat>, tokenBlock: nat -> Option<nat>, paid: nat -> bool, threw: bool)
    requires WellFormed(start)
  {
    forall k :: 0 <= k < |closed| ==>
      closed[k] < |start.auctions|
      && (Throws(start, closed[k], tokenBlock(closed[k]), paid(closed[k])) <==> threw && k == |closed| - 1)
  }

  lemma StillReady(start: World, w: World, closed: seq<nat>, a: nat)
    requires OnlyClosed(start, w, closed) && Ready(start, a) && a !in closed
    ensures Ready(w, a)
    ensures forall tokenBlock, paid :: Throws(w, a, tokenBlock, paid) <==> Throws(start, a, tokenBlock, paid)
  {
    assert LotOf(w, a) == LotOf(start, a) && SameOffer(start, w, a);
  }

  lemma OneMoreClosed(start: World, w: World, w': World, closed: seq<nat>, a: nat)
    requires OnlyClosed(start, w, closed) && WellFormed(w') && |w'.auctions| == |w.auctions|
    requires a < |w.auctions| && !Unsettled(w'.auctions[a].status)
    requires forall x: nat :: x < |w.auctions| && x != a ==> LotOf(w', x) == LotOf(w, x) && SameOffer(w, w', x)
    ensures OnlyClosed(start, w', closed + [a])
  {
    forall x: nat | x < |w'.auctions| && x !in closed + [a] ensures LotOf(w', x) == LotOf(start, x) && SameOffer(start, w', x) {
      assert LotOf(w', x) == LotOf(w, x) && SameOffer(w, w', x);
    }
    forall x | x in closed ensures !Unsettled(w'.auctions[x].status) {
      assert x == a || LotOf(w', x).status == LotOf(w, x).status;
    }
  }

  lemma OneMoreThrows(start: World, closed: seq<nat>, a: nat, tokenBlock: nat -> Option<nat>, paid: nat -> bool, threw: bool)
    requires WellFormed(start) && a < |start.auctions| && LastThrows(start, closed, tokenBlock, paid, false)
    requires threw <==> Throws(start, a, tokenBlock(a), paid(a))
    ensures LastThrows(start, closed + [a], tokenBlock, paid, threw)
  {
    var closed' := closed + [a];
    forall k | 0 <= k < |closed'|
      ensures closed'[k] < |start.auctions|
      ensures Throws(start, closed'[k], tokenBlock(closed'[k]), paid(closed'[k])) <==> threw && k == |closed'| - 1
    {
      if k < |closed| { assert closed'[k] == closed[k]; }
    }
  }

  lemma NextIsNew(ready: seq<nat>, closed: seq<nat>)
    requires |closed| < |ready| && closed == ready[..|closed|]
    requires forall j, k :: 0 <= j < k < |ready| ==> ready[j] != ready[k]
    ensures ready[|closed|] !in closed && closed + [ready[|closed|]] == ready[..|closed| + 1]
  {
  }

  class AuctionTables {
    var asks: seq<Ask>
    var auctions: seq<AuctionRow>
    var bids: seq<Bid>
    var trades: seq<Trade>
    var payments: seq<Payment>  // transfers submitted by the market
    const account: Address
    const commission: nat

    function Snapshot(): World
      reads this
    {
      World(asks, auctions, bids, trades, payments, Idle, account, commission)
    }

    predicate Valid()
      reads this
    {
      WellFormed(Snapshot())
    }

    constructor (account: Address, commission: nat)
      ensures Valid() && Deployed(Snapshot())
      ensures this.account == account && this.commission == commission
    {
      this.account, this.commission := account, commission;
      asks, auctions, bids, trades, payments := [], [], [], [], [];
    }

    // ---------------------------------------------------------------- creating and cancelling

    method CreateAskAndBroadcast(collection: nat, token: nat, seller: Address,
                                 startPrice: int, priceStep: int, stopAt: int)
      returns (r: Result<nat, AuctionError>)
      requires Valid() && startPrice >= 1 && priceStep >= 1
      modifies this
      ensures Valid()
      ensures Snapshot() == Step(old(Snapshot()), Create(collection, token, seller, startPrice, priceStep, stopAt))
      ensures r == if HasLive(old(asks), collection, token) then Failure(DuplicateOffer) else Success(|old(auctions)|)
      ensures r.Success? ==> Unbid(r.value, startPrice)
    {
      CreateIsWellFormed(Snapshot(), Create(collection, token, seller, startPrice, priceStep, stopAt));
      if HasLive(asks, collection, token) {
        return Failure(DuplicateOffer);
      }
      OfAuctionNone(bids, |auctions|);
      auctions := auctions + [AuctionRow(|asks|, Active, startPrice, priceStep, stopAt)];
      asks := asks + [Ask(AskActive, collection, token, startPrice, seller, account, None)];
      r := Success(|auctions| - 1);
    }

    /** A new auction: active, priced at its start price, without a row. */
    predicate Unbid(a: nat, startPrice: int)
      reads this
    {
      && a < |auctions| && auctions[a].status == Active && auctions[a].ask < |asks|
      && asks[auctions[a].ask].status == AskActive && asks[auctions[a].ask].price == startPrice
      && OfAuction(bids, a) == []
    }

    method CancelInDatabase(collection: nat, token: nat, owner: Address, now: int) returns (r: Result<nat, AuctionError>)
      requires Valid()
      modifies this
      ensures Valid()
      ensures Snapshot() == Step(old(Snapshot()), CancelAuction(collection, token, owner, now))
      ensures r == CancelOutcome(old(Snapshot()), collection, token, owner)
    {
      StatusIsWellFormed(Snapshot(), CancelAuction(collection, token, owner, now));
      var found := Locate(Snapshot(), collection, token, {Active});
      if found.Failure? {
        return Failure(found.error);
      }
      var a := found.value;
      var ask := auctions[a].ask;
      if asks[ask].seller != owner {
        return Failure(NotOwner);
      }
      var bidsCount := CountUnfailed(a);
      if bidsCount != 0 {
        return Failure(HasBids);
      }
      asks := asks[ask := asks[ask].(status := AskCancelled)];
      auctions := auctions[a := auctions[a].(status := Ended, stopAt := now)];
      r := Success(a);
    }

    /** The number of the auction's bids that have not failed; the callers only ask whether it is zero. */
    method CountUnfailed(a: nat) returns (count: nat)
      ensures count == 0 <==> !HasAny(OfAuction(bids, a), Pending)
    {
      count := 0;
      for i := 0 to |bids|
        invariant count == 0 <==> !HasAny(OfAuction(bids[..i], a), Pending)
      {
        assert bids[..i + 1] == bids[..i] + [bids[i]];
        OfAuctionSnoc(bids[..i], bids[i], a);
        PresentSnoc(OfAuction(bids[..i], a), bids[i], bids[i].bidder, Pending);
        if bids[i].auction == a && bids[i].status != Error {
          count := count + 1;
        }
      }
      assert bids[..|bids|] == bids;
    }

    // ---------------------------------------------------------------- bidding

    method GetCalculationInfo(collection: nat, token: nat, bidder: Address)
      returns (r: Result<(CalculationInfo, nat), AuctionError>)
      requires Valid()
      ensures match Locate(Snapshot(), collection, token, {Active})
              case Failure(e) => r == Failure(e)
              case Success(a) => r.Success? && r.value.1 == a && Quotes(LotOf(Snapshot(), a), bidder, r.value.0)
    {
      var found := Locate(Snapshot(), collection, token, {Active});
      if found.Failure? {
        return Failure(found.error);
      }
      var a := found.value;
      var price := asks[auctions[a].ask].price;
      var rows := OfAuction(bids, a);
      var bidderPendingAmount := Total(rows, bidder, Pending);
      var minBidderAmount := price - bidderPendingAmount;
      var pendingWinner := FirstGroup(rows, Pending);
      var isFirstBid := price == auctions[a].startPrice && pendingWinner == None;
      assert pendingWinner.Some? ==> HasAny(rows, Pending) by {
        if pendingWinner.Some? {
          var i :| 0 <= i < |rows| && rows[i].bidder == pendingWinner.value.bidder && Counts(Pending, rows[i]);
        }
      }
      if minBidderAmount > 0 && !isFirstBid {
        minBidderAmount := minBidderAmount + auctions[a].priceStep;
      }
      AnyUnfailedIff(rows);
      r := Success((CalculationInfo(price, auctions[a].priceStep, bidderPendingAmount, minBidderAmount), a));
    }

    method TryPlacePendingBid(collection: nat, token: nat, bidder: Address, amount: nat)
      returns (r: Result<nat, AuctionError>)
      requires Valid()
      modifies this
      ensures Valid()
      ensures Snapshot() == Step(old(Snapshot()), PlaceBid(collection, token, bidder, amount))
      ensures match PlaceOutcome(old(Snapshot()), collection, token, bidder, amount)
              case Failure(e) => r == Failure(e)
              case Success(_) => r == Success(|old(bids)|) && BidInFlight(Snapshot(), r.value)
      ensures var found := old(Locate(Snapshot(), collection, token, {Active}));
              if found.Failure? then r == Failure(found.error)
              else r.Success? <==> ReachesGoal(old(LotOf(Snapshot(), found.value)), bidder, amount)
    {
      BidsAreWellFormed(Snapshot(), PlaceBid(collection, token, bidder, amount));
      var info := GetCalculationInfo(collection, token, bidder);
      if info.Failure? {
        return Failure(info.error);
      }
      var (calculation, a) := info.value;
      AcceptedIffGoal(LotOf(Snapshot(), a), bidder, amount);
      if calculation.contractPendingPrice >= calculation.priceStep && amount < calculation.priceStep {
        return Failure(BelowPriceStep);
      }
      if amount < calculation.minBidderAmount {
        return Failure(NotEnough);
      }
      var userNextPendingAmount := calculation.bidderPendingAmount + amount;
      var ask := auctions[a].ask;
      asks := asks[ask := asks[ask].(price := userNextPendingAmount)];
      bids := bids + [Bid(a, bidder, amount, userNextPendingAmount, Minting)];
      r := Success(|bids| - 1);
    }

    method HandleBidTxSuccess(row: nat)
      requires Valid() && BidInFlight(Snapshot(), row)
      modifies this`bids
      ensures Valid() && Snapshot() == Step(old(Snapshot()), BidSettled(row, true, None))
    {
      SettlingIsWellFormed(Snapshot(), BidSettled(row, true, None));
      bids := Mark(bids, row, Finished);
    }

    method HandleBidTxFail(row: nat) returns (winner: Option<Address>)
      requires Valid() && BidInFlight(Snapshot(), row)
      modifies this
      ensures Valid() && Snapshot() == Step(old(Snapshot()), BidSettled(row, false, winner))
      ensures IsFirst(OfAuction(bids, bids[row].auction), Pending, winner)
    {
      var a := bids[row].auction;
      var failed := Mark(bids, row, Error);
      var newWinner := FirstGroup(OfAuction(failed, a), Pending);
      winner := if newWinner.None? then None else Some(newWinner.value.bidder);
      SettlingIsWellFormed(Snapshot(), BidSettled(row, false, winner));
      bids := failed;
      var newOfferPrice := if newWinner.None? then auctions[a].startPrice else newWinner.value.total;
      var ask := auctions[a].ask;
      asks := asks[ask := asks[ask].(price := newOfferPrice)];
    }

    // ---------------------------------------------------------------- withdrawing

    method TryCreateWithdrawingBid(collection: nat, token: nat, bidder: Address)
      returns (r: Result<nat, AuctionError>, pendingTop: Option<Address>, actualTop: Option<Address>)
      requires Valid()
      modifies this`bids
      ensures Valid()
      ensures Snapshot() == Step(old(Snapshot()), Withdraw(collection, token, bidder, pendingTop, actualTop))
      ensures match WithdrawOutcome(old(Snapshot()), collection, token, bidder, pendingTop, actualTop)
              case Failure(e) => r == Failure(e)
              case Success(_) => r == Success(|old(bids)|) && WithdrawalInFlight(Snapshot(), r.value)
    {
      pendingTop, actualTop := None, None;
      ghost var before := Snapshot();
      var found := Locate(Snapshot(), collection, token, {Active});
      if found.Failure? {
        WithdrawIsStep(before, collection, token, bidder, None, None);
        return Failure(found.error), None, None;
      }
      var a := found.value;
      var rows := OfAuction(bids, a);
      var bidderActualSum := Total(rows, bidder, Actual);
      var bidderPendingSum := Total(rows, bidder, Pending);
      if bidderActualSum <= 0 {
        WithdrawIsStep(before, collection, token, bidder, None, None);
        return Failure(NothingToWithdraw), None, None;
      }
      var pendingWinner := FirstGroup(rows, Pending);
      var actualWinner := FirstGroup(rows, Actual);
      pendingTop := if pendingWinner.None? then None else Some(pendingWinner.value.bidder);
      actualTop := if actualWinner.None? then None else Some(actualWinner.value.bidder);
      WithdrawIsStep(before, collection, token, bidder, pendingTop, actualTop);
      BidsAreWellFormed(before, Withdraw(collection, token, bidder, pendingTop, actualTop));
      if pendingTop == Some(bidder) {
        return Failure(PendingLeader), pendingTop, actualTop;
      }
      if actualTop == Some(bidder) {
        return Failure(CurrentLeader), pendingTop, actualTop;
      }
      bids := bids + [Bid(a, bidder, -bidderActualSum, bidderPendingSum - bidderActualSum, Minting)];
      r := Success(|bids| - 1);
    }

    method MakeWithdrawalTransfer(row: nat, landed: bool)
      requires Valid() && WithdrawalInFlight(Snapshot(), row)
      modifies this`bids
      ensures Valid() && Snapshot() == Step(old(Snapshot()), WithdrawalSettled(row, landed))
    {
      SettlingIsWellFormed(Snapshot(), WithdrawalSettled(row, landed));
      bids := Mark(bids, row, if landed then Finished else Error);
    }

    // ---------------------------------------------------------------- stopping

    /** Stops every auction that is due; the answer lists their offers. */
    method UpdateAuctionsAsStopped(now: int) returns (contractIds: seq<nat>)
      requires Valid()
      modifies this`auctions
      ensures Valid() && Snapshot() == Step(old(Snapshot()), StopDue(now))
      ensures |auctions| == |old(auctions)|
      ensures forall a :: 0 <= a < |auctions| ==>
                auctions[a] == if old(auctions)[a].status == Active && old(auctions)[a].stopAt <= now
                               then old(auctions)[a].(status := Stopped, stopAt := now) else old(auctions)[a]
      ensures forall i :: i in contractIds <==>
                exists a :: 0 <= a < |old(auctions)| && old(auctions)[a].status == Active && old(auctions)[a].stopAt <= now
                            && old(auctions)[a].ask == i
    {
      StatusIsWellFormed(Snapshot(), StopDue(now));
      contractIds := [];
      var auctionIds: seq<nat> := [];
      for a := 0 to |auctions|
        invariant forall x :: x in auctionIds <==> 0 <= x < a && IsDue(auctions[x], now)
        invariant forall i :: i in contractIds <==> exists x :: 0 <= x < a && IsDue(auctions[x], now) && auctions[x].ask == i
        invariant auctions == old(auctions)
      {
        if auctions[a].status == Active && auctions[a].stopAt <= now {
          contractIds := contractIds + [auctions[a].ask];
          auctionIds := auctionIds + [a];
        }
      }
      for k := 0 to |auctionIds|
        invariant |auctions| == |old(auctions)|
        invariant forall x :: 0 <= x < |auctions| ==>
          auctions[x] == if x in auctionIds[..k] then old(auctions)[x].(status := Stopped, stopAt := now) else old(auctions)[x]
      {
        assert auctionIds[..k + 1] == auctionIds[..k] + [auctionIds[k]];
        assert auctionIds[k] in auctionIds;
        auctions := auctions[auctionIds[k] := auctions[auctionIds[k]].(status := Stopped, stopAt := now)];
      }
      assert auctionIds[..|auctionIds|] == auctionIds;
      assert auctions == StopRows(old(auctions), now);
    }

    method ForceCloseAuction(collection: nat, token: nat, now: int) returns (r: Result<nat, AuctionError>)
      requires Valid()
      modifies this`auctions
      ensures Valid() && Snapshot() == Step(old(Snapshot()), ForceClose(collection, token, now))
      ensures r == Locate(old(Snapshot()), collection, token, {Created, Active})
    {
      StatusIsWellFormed(Snapshot(), ForceClose(collection, token, now));
      r := Locate(Snapshot(), collection, token, {Created, Active});
      if r.Success? {
        auctions := auctions[r.value := auctions[r.value].(status := Stopped, stopAt := now)];
      }
    }

    /** Gives every active auction of another seller the deadline now, and counts them. */
    method MassAuctionCancel(admin: Address, now: int) returns (affected: nat)
      requires Valid()
      modifies this`auctions
      ensures Valid() && Snapshot() == Step(old(Snapshot()), MassCancel(admin, now))
      ensures affected == ForeignCount(old(Snapshot()), admin, |old(auctions)|)
    {
      affected := 0;
      ghost var before := Snapshot();
      StatusIsWellFormed(before, MassCancel(admin, now));
      for a := 0 to |auctions|
        invariant |auctions| == |before.auctions|
        invariant affected == ForeignCount(before, admin, a)
        invariant forall x :: 0 <= x < |auctions| ==>
          auctions[x] == if x < a && Foreign(before, x, admin) then before.auctions[x].(stopAt := now) else before.auctions[x]
      {
        assert auctions[a] == before.auctions[a];
        if auctions[a].status == Active && asks[auctions[a].ask].seller != admin {
          auctions := auctions[a := auctions[a].(stopAt := now)];
          affected := affected + 1;
        }
      }
      assert auctions == DeadlineRows(before, admin, now);
    }

    // ---------------------------------------------------------------- closing

    method FindAuctionsReadyForWithdraw() returns (ready: seq<nat>)
      ensures forall a :: a in ready <==> Ready(Snapshot(), a)
      ensures forall k :: 0 <= k < |ready| ==> ready[k] < |auctions|
      ensures forall j, k :: 0 <= j < k < |ready| ==> ready[j] != ready[k]
    {
      ready := [];
      for a := 0 to |auctions|
        invariant forall x: nat :: x in ready <==> x < a && Ready(Snapshot(), x)
        invariant forall k :: 0 <= k < |ready| ==> ready[k] < a
        invariant forall j, k :: 0 <= j < k < |ready| ==> ready[j] != ready[k]
      {
        if auctions[a].status == Stopped && NoMinting(OfAuction(bids, a)) {
          ready := ready + [a];
        }
      }
    }

    /** Writes the refund row, submits the transfer and settles the row. */
    method WithdrawByMarket(a: nat, bidder: Address, amount: int, landed: bool)
      requires Valid() && a < |auctions| && amount > 0
      modifies this`bids, this`payments
      ensures Valid()
      ensures payments == old(payments) + [Refund(a, bidder, amount)]
      ensures bids == old(bids) + [RefundRow(a, Aggregate(bidder, amount)).(status := if landed then Finished else Error)]
    {
      bids := bids + [Bid(a, bidder, -amount, 0, Minting)];
      payments := payments + [Refund(a, bidder, amount)];
      MakeWithdrawalTransfer(|bids| - 1, landed);
    }

    /** Closes one auction: refunds the losers in turn, then sends the token and the seller's share.
        list is the answer of the grouped query; threw tells whether recording the trade failed. */
    method ProcessAuctionWithdraws(a: nat, lands: Address -> bool, tokenBlock: Option<nat>, paid: bool)
      returns (list: seq<Aggregate>, threw: bool)
      requires Valid() && Ready(Snapshot(), a)
      modifies this
      ensures Valid()
      ensures CanPickUp(old(Snapshot()), a, list)
      ensures Snapshot() == CloseWorld(old(Snapshot()), a, list, lands, tokenBlock, paid)
      ensures !Unsettled(auctions[a].status)
      ensures threw <==> Throws(old(Snapshot()), a, tokenBlock, paid)
    {
      ghost var w0 := Snapshot();
      list := GroupedBids(OfAuction(bids, a), Actual);
      ListingEmptyIff(list, OfAuction(bids, a), Actual);
      threw := false;
      PickUpIsWellFormed(w0, a, list);
      PickUp(a, list);
      if list != [] {
        threw := RefundAndPay(a, list, lands, tokenBlock, paid, PickUpWorld(w0, a, list));
      }
    }

    /** The rest of a close with bidders. */
    method RefundAndPay(a: nat, list: seq<Aggregate>, lands: Address -> bool, tokenBlock: Option<nat>, paid: bool, ghost w1: World)
      returns (threw: bool)
      requires Valid() && a < |auctions| && list != []
      requires WellFormed(w1) && w1.closer == Busy(a, Closing(list[0], list[1..]), None)
      requires Snapshot() == w1.(closer := Idle)
      modifies this
      ensures Valid() && Snapshot() == PayWorld(RefundLosers(w1, lands), tokenBlock, paid)
      ensures auctions[a].status == if paid then Ended else old(auctions)[a].status
      ensures threw <==> paid && tokenBlock.None? && old(asks[auctions[a].ask].blockBuy.None?)
    {
      RefundLosersKeepTerms(w1, lands);
      RefundOthers(a, list[0], list[1..], lands, w1);
      threw := SendTokenAndPay(a, list[0], tokenBlock, paid, RefundLosers(w1, lands));
    }

    /** The first updates of a close; without losers the auction is over at once. */
    method PickUp(a: nat, list: seq<Aggregate>)
      requires Valid() && a < |auctions|
      modifies this`auctions, this`asks
      ensures Snapshot() == PickUpWorld(old(Snapshot()), a, list).(closer := Idle)
    {
      auctions := auctions[a := auctions[a].(status := Withdrawing)];
      if |list| <= 1 {
        var ask := auctions[a].ask;
        asks := asks[ask := asks[ask].(status := AskCancelled)];
        auctions := auctions[a := auctions[a].(status := Ended)];
      }
    }

    method RefundOther(a: nat, loser: Aggregate, lands: Address -> bool, ghost w: World)
      requires Valid() && a < |auctions|
      requires WellFormed(w) && CanProceed(w) && w.closer.auction == a
      requires w.closer.work.losers != [] && w.closer.work.losers[0] == loser
      requires Snapshot() == w.(closer := Idle)
      modifies this`bids, this`payments
      ensures Valid() && Snapshot() == RefundLoserWorld(w, lands).(closer := Idle)
    {
      ghost var next := RefundLoserWorld(w, lands);
      if loser.total > 0 {
        WithdrawByMarket(a, loser.bidder, loser.total, lands(loser.bidder));
        assert bids == next.bids;
      }
    }

    /** The loop over the bidders who did not win. */
    method RefundOthers(a: nat, winner: Aggregate, others: seq<Aggregate>, lands: Address -> bool, ghost w1: World)
      requires Valid() && a < |auctions|
      requires WellFormed(w1) && w1.closer == Busy(a, Closing(winner, others), None)
      requires Snapshot() == w1.(closer := Idle)
      modifies this`bids, this`payments
      ensures Valid() && Snapshot() == RefundLosers(w1, lands).(closer := Idle)
    {
      ghost var w := w1;
      for k := 0 to |others|
        invariant Valid() && WellFormed(w) && CanProceed(w)
        invariant Snapshot() == w.(closer := Idle)
        invariant w.closer.auction == a && w.closer.work == Closing(winner, others[k..])
        invariant RefundLosers(w, lands) == RefundLosers(w1, lands)
      {
        assert others[k..][0] == others[k] && others[k..][1..] == others[k + 1..];
        RefundOther(a, others[k], lands, w);
        w := RefundLoserWorld(w, lands);
      }
      assert others[|others|..] == [];
    }

    /** The end of a close: the token is sent, the seller is paid, the sale recorded. */
    method SendTokenAndPay(a: nat, winner: Aggregate, tokenBlock: Option<nat>, paid: bool, ghost w: World)
      returns (threw: bool)
      requires Valid() && a < |auctions|
      requires WellFormed(w) && w.closer.Busy? && w.closer.auction == a && w.closer.work.winner == winner
      requires Snapshot() == w.(closer := Idle)
      modifies this
      ensures Valid() && Snapshot() == PayWorld(w, tokenBlock, paid)
      ensures auctions[a].status == if paid then Ended else old(auctions)[a].status
      ensures threw <==> paid && tokenBlock.None? && old(asks[auctions[a].ask].blockBuy.None?)
      ensures |payments| == |old(payments)| + 1 && old(payments) <= payments
      ensures var last := payments[|payments| - 1];
              && last.Payout? && last.auction == a && last.seller == old(asks[auctions[a].ask].seller)
              && KeepsCommission(winner.total, commission, winner.total - last.amount)
    {
      PayIsWellFormed(w, tokenBlock, paid);
      var ask := auctions[a].ask;
      var marketFee := Quotient(winner.total * commission, 100);
      var ownerPrice := winner.total - marketFee;
      KeptIsFee(winner.total, commission);
      if tokenBlock.Some? {
        asks := asks[ask := asks[ask].(blockBuy := tokenBlock)];
      }
      payments := payments + [Payout(a, asks[ask].seller, ownerPrice)];
      threw := false;
      if paid {
        var sold := asks[ask];
        asks := asks[ask := sold.(status := AskBought, addressTo := winner.bidder)];
        auctions := auctions[a := auctions[a].(status := Ended)];
        if sold.blockBuy.Some? {
          trades := trades + [AuctionTrade(sold, winner.bidder, commission)];
        } else {
          threw := true;
        }
      }
    }

    /** One round of the handler: the close as a run, and what it leaves alone. */
    method CloseOne(a: nat, lands: Address -> bool, tokenBlock: Option<nat>, paid: bool)
      returns (threw: bool, ghost events: seq<Event>)
      requires Valid() && Ready(Snapshot(), a)
      modifies this
      ensures Valid() && Snapshot() == RunEvents(old(Snapshot()), events)
      ensures |auctions| == |old(auctions)| && !Unsettled(auctions[a].status)
      ensures forall x: nat :: x < |auctions| && x != a ==>
        LotOf(Snapshot(), x) == LotOf(old(Snapshot()), x) && SameOffer(old(Snapshot()), Snapshot(), x)
      ensures threw <==> Throws(old(Snapshot()), a, tokenBlock, paid)
    {
      ghost var before := Snapshot();
      var list;
      list, threw := ProcessAuctionWithdraws(a, lands, tokenBlock, paid);
      CloseIsRun(before, a, list, lands, tokenBlock, paid);
      events := CloseEvents(a, list, |before.bids|, lands, tokenBlock, paid);
      forall x: nat | x < |auctions| && x != a
        ensures LotOf(Snapshot(), x) == LotOf(before, x) && SameOffer(before, Snapshot(), x)
      {
        CloseLeavesOthers(before, a, list, lands, tokenBlock, paid, x);
        CloseLeavesOtherOffers(before, a, list, lands, tokenBlock, paid, x);
      }
    }

    /** Closes the ready auctions one after the other until one throws. The list of ready auctions is read
        once; each is still ready, and otherwise unchanged, when its turn comes. Those closed are a prefix of
        the list, up to the first one whose recording throws. */
    method AuctionsWithdrawingIntervalHandler(lands: (nat, Address) -> bool, tokenBlock: nat -> Option<nat>, paid: nat -> bool)
      returns (ready: seq<nat>, closed: seq<nat>, threw: bool, ghost events: seq<Event>)
      requires Valid()
      modifies this
      ensures Valid() && Snapshot() == RunEvents(old(Snapshot()), events)
      ensures forall a :: a in ready <==> Ready(old(Snapshot()), a)
      ensures forall j, k :: 0 <= j < k < |ready| ==> ready[j] != ready[k]
      ensures closed <= ready && OnlyClosed(old(Snapshot()), Snapshot(), closed)
      ensures LastThrows(old(Snapshot()), closed, tokenBlock, paid, threw)
      ensures if threw then closed != [] else closed == ready
    {
      ready := FindAuctionsReadyForWithdraw();
      closed, threw, events := [], false, [];
      ghost var start := Snapshot();
      while |closed| < |ready| && !threw
        invariant |closed| <= |ready| && closed == ready[..|closed|]
        invariant Valid() && Snapshot() == RunEvents(start, events)
        invariant OnlyClosed(start, Snapshot(), closed)
        invariant threw ==> closed != []
        invariant LastThrows(start, closed, tokenBlock, paid, threw)
        decreases |ready| - |closed|
      {
        var a := ready[|closed|];
        assert a in ready;
        NextIsNew(ready, closed);
        ghost var before := Snapshot();
        ghost var more;
        StillReady(start, before, closed, a);
        threw, more := CloseOne(a, (b: Address) => lands(a, b), tokenBlock(a), paid(a));
        RunAppend(start, events, more);
        events := events + more;
        OneMoreClosed(start, before, Snapshot(), closed, a);
        OneMoreThrows(start, closed, a, tokenBlock, paid, threw);
        closed := closed + [a];
      }
    }
  }
}
