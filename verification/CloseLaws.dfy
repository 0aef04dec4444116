/** What closing an auction submits and writes, and whose money it is: the whole effect of processAuctionWithdraws in
    terms of rows and fields, and the sellers of all runs. */
module CloseLaws {
  import opened Wrappers
  import opened Tables
  import opened BidLedger
  import opened Commission
  import opened AuctionMachine
  import opened AuctionWorld
  import opened AuctionRefinement
  import opened AuctionClosing
  import opened AuctionLaws

  // ---------------------------------------------------------------- the refunds

  /** One transfer for each loser with a positive sum, of that sum, in the order of the ranking. */
  function RefundsDue(a: nat, losers: seq<Aggregate>): seq<Payment> {
    if losers == [] then []
    else (if losers[0].total > 0 then [Refund(a, losers[0].bidder, losers[0].total)] else []) + RefundsDue(a, losers[1..])
  }

  /** And one settled row that takes the sum out of the auction. */
  function RowsDue(a: nat, losers: seq<Aggregate>, lands: Address -> bool): seq<Bid> {
    if losers == [] then []
    else
      (if losers[0].total > 0
       then [Bid(a, losers[0].bidder, -losers[0].total, 0, if lands(losers[0].bidder) then Finished else Error)] else [])
      + RowsDue(a, losers[1..], lands)
  }

  lemma RefundLoserWrites(w: World, lands: Address -> bool)
    requires WellFormed(w) && CanProceed(w) && w.closer.work.losers != []
    ensures var loser, w', a := w.closer.work.losers[0], RefundLoserWorld(w, lands), w.closer.auction;
            if loser.total > 0
            then w'.payments == w.payments + [Refund(a, loser.bidder, loser.total)]
                 && w'.bids == w.bids + [Bid(a, loser.bidder, -loser.total, 0, if lands(loser.bidder) then Finished else Error)]
            else w'.payments == w.payments && w'.bids == w.bids
    ensures var w' := RefundLoserWorld(w, lands); w'.account == w.account
  {
  }

  lemma RowsAndRefundsFront(a: nat, losers: seq<Aggregate>, lands: Address -> bool, bids: seq<Bid>, payments: seq<Payment>)
    requires losers != []
    ensures var loser := losers[0];
            if loser.total > 0
            then payments + RefundsDue(a, losers) == (payments + [Refund(a, loser.bidder, loser.total)]) + RefundsDue(a, losers[1..])
                 && bids + RowsDue(a, losers, lands)
                    == (bids + [Bid(a, loser.bidder, -loser.total, 0, if lands(loser.bidder) then Finished else Error)])
                       + RowsDue(a, losers[1..], lands)
            else RefundsDue(a, losers) == RefundsDue(a, losers[1..]) && RowsDue(a, losers, lands) == RowsDue(a, losers[1..], lands)
  {
  }

  lemma {:induction false} RefundsAreDue(w: World, lands: Address -> bool)
    requires WellFormed(w) && CanProceed(w)
    ensures var w', a, losers := RefundLosers(w, lands), w.closer.auction, w.closer.work.losers;
            && w'.payments == w.payments + RefundsDue(a, losers)
            && w'.bids == w.bids + RowsDue(a, losers, lands)
            && w'.account == w.account
    decreases |w.closer.work.losers|
  {
    var losers := w.closer.work.losers;
    if losers != [] {
      RefundLoserWrites(w, lands);
      RowsAndRefundsFront(w.closer.auction, losers, lands, w.bids, w.payments);
      RefundsAreDue(RefundLoserWorld(w, lands), lands);
    }
  }

  // ---------------------------------------------------------------- the whole close

  /** The close submits the refunds due and then pays the seller of the auction the winner's finished sum less the
      commission's share of it; its rows are the refunds'. */
  lemma CloseSubmits(w: World, a: nat, list: seq<Aggregate>, lands: Address -> bool, tokenBlock: Option<nat>, paid: bool)
    requires CanPickUp(w, a, list) && list != []
    ensures var end := CloseWorld(w, a, list, lands, tokenBlock, paid);
            && end.bids == w.bids + RowsDue(a, list[1..], lands)
            && |end.payments| == |w.payments| + |RefundsDue(a, list[1..])| + 1
            && (var last := end.payments[|end.payments| - 1];
                && end.payments == w.payments + RefundsDue(a, list[1..]) + [last]
                && last.Payout? && last.auction == a && last.seller == w.asks[w.auctions[a].ask].seller
                && KeepsCommission(list[0].total, w.commission, list[0].total - last.amount))
  {
    PickUpIsWellFormed(w, a, list);
    var w1 := PickUpWorld(w, a, list);
    RefundsAreDue(w1, lands);
    RefundLosersKeepTerms(w1, lands);
    KeptIsFee(list[0].total, w.commission);
  }

  /** If the seller's transfer lands the offer is bought by the winner and the auction over; if not, it is over only
      without losers. */
  lemma CloseWritesOffer(w: World, a: nat, list: seq<Aggregate>, lands: Address -> bool, tokenBlock: Option<nat>, paid: bool)
    requires CanPickUp(w, a, list) && list != []
    ensures var end, i := CloseWorld(w, a, list, lands, tokenBlock, paid), w.auctions[a].ask;
            var ask := w.asks[i];
            && |end.asks| == |w.asks| && (forall j :: 0 <= j < |w.asks| && j != i ==> end.asks[j] == w.asks[j])
            && end.asks[i].status == (if paid then AskBought else if |list| == 1 then AskCancelled else ask.status)
            && end.asks[i].addressTo == (if paid then list[0].bidder else ask.addressTo)
            && end.asks[i].blockBuy == (if tokenBlock.Some? then tokenBlock else ask.blockBuy)
            && end.asks[i] == ask.(status := end.asks[i].status, addressTo := end.asks[i].addressTo, blockBuy := end.asks[i].blockBuy)
            && |end.auctions| == |w.auctions|
            && end.auctions == w.auctions[a := w.auctions[a].(status := if paid || |list| == 1 then Ended else Withdrawing)]
  {
    PickUpIsWellFormed(w, a, list);
    RefundLosersKeepTerms(PickUpWorld(w, a, list), lands);
  }

  /** And the sale is recorded, from the seller to the winner, with the cached price split by the commission, if the block
      of the token's transfer is known. */
  lemma CloseRecordsSale(w: World, a: nat, list: seq<Aggregate>, lands: Address -> bool, tokenBlock: Option<nat>, paid: bool)
    requires CanPickUp(w, a, list) && list != []
    ensures var end, ask := CloseWorld(w, a, list, lands, tokenBlock, paid), w.asks[w.auctions[a].ask];
            if paid && (tokenBlock.Some? || ask.blockBuy.Some?)
            then |end.trades| == |w.trades| + 1
                 && (var trade := end.trades[|w.trades|];
                     && end.trades == w.trades + [trade]
                     && trade == Trade(ask.collection, ask.token, trade.price, ask.seller, list[0].bidder,
                                       ask.price, ask.price - trade.price, AuctionSale)
                     && FitsPrice(ask.price, w.commission, trade.price))
            else end.trades == w.trades
  {
    PickUpIsWellFormed(w, a, list);
    RefundLosersKeepTerms(PickUpWorld(w, a, list), lands);
    RecordedFits(w.asks[w.auctions[a].ask].price, w.commission);
  }

  /** Without a finished bid the offer is cancelled and the auction over; nobody is paid. */
  lemma CloseWithoutBids(w: World, a: nat, lands: Address -> bool, tokenBlock: Option<nat>, paid: bool)
    requires CanPickUp(w, a, [])
    ensures var end, i := CloseWorld(w, a, [], lands, tokenBlock, paid), w.auctions[a].ask;
            && end.asks == w.asks[i := w.asks[i].(status := AskCancelled)]
            && end.auctions == w.auctions[a := w.auctions[a].(status := Ended)]
            && end == w.(asks := end.asks, auctions := end.auctions)
  {
  }

  /** Only a stopped auction without a row in flight is picked up, and by an idle worker; it is read as ready exactly then. */
  lemma PickedUpWhenReady(w: World, a: nat, list: seq<Aggregate>)
    requires WellFormed(w) && a < |w.auctions|
    ensures Ready(w, a)
            <==> w.auctions[a].status == Stopped && forall i :: 0 <= i < |w.bids| && w.bids[i].auction == a ==> w.bids[i].status != Minting
    ensures Step(w, PickUpAuction(a, list)) != w ==>
              Ready(w, a) && w.closer == Idle && IsListing(list, OfAuction(w.bids, a), Actual)
  {
    SelectionNoMintingIff(w.bids, a);
  }

  // ---------------------------------------------------------------- the sellers of all runs

  /** Who created the auctions, in the order of their creation. */
  ghost function Creators(w: World, events: seq<Event>): seq<Address>
    requires Deployed(w)
  {
    if events == [] then []
    else
      var before, e := events[..|events| - 1], events[|events| - 1];
      if e.Create? && |RunEvents(w, events).auctions| > |RunEvents(w, before).auctions|
      then Creators(w, before) + [e.seller] else Creators(w, before)
  }

  predicate SameSellers(w: World, w': World)
    requires WellFormed(w) && WellFormed(w')
  {
    |w.auctions| <= |w'.auctions|
    && forall a :: 0 <= a < |w.auctions| ==> w'.asks[w'.auctions[a].ask].seller == w.asks[w.auctions[a].ask].seller
  }

  /** Payments are only added, and a payout goes to the seller of its auction. */
  predicate PaysSellers(w: World, w': World)
    requires WellFormed(w)
  {
    && w.payments <= w'.payments
    && forall k :: |w.payments| <= k < |w'.payments| && w'.payments[k].Payout? ==>
         w'.payments[k].auction < |w.auctions|
         && w'.payments[k].seller == w.asks[w.auctions[w'.payments[k].auction].ask].seller
  }

  lemma PayKeepsSellers(w: World, tokenBlock: Option<nat>, paid: bool)
    requires WellFormed(w) && w.closer.Busy?
    ensures var w' := PayWorld(w, tokenBlock, paid);
            WellFormed(w') && SameSellers(w, w') && PaysSellers(w, w') && |w'.auctions| == |w.auctions|
  {
    PayIsWellFormed(w, tokenBlock, paid);
  }

  lemma RefundKeepsSellers(w: World)
    requires WellFormed(w) && w.closer.Busy? && w.closer.work.losers != []
    ensures var w' := RefundWorld(w);
            WellFormed(w') && SameSellers(w, w') && PaysSellers(w, w') && |w'.auctions| == |w.auctions|
  {
    RefundIsWellFormed(w);
  }

  lemma RowsKeepSellers(w: World, e: Event)
    requires WellFormed(w) && (e.PlaceBid? || e.BidSettled? || e.Withdraw? || e.WithdrawalSettled?)
    ensures var w' := Step(w, e);
            WellFormed(w') && SameSellers(w, w') && PaysSellers(w, w') && |w'.auctions| == |w.auctions|
  {
    StepIsWellFormed(w, e);
  }

  lemma StatusKeepsSellers(w: World, e: Event)
    requires WellFormed(w)
    requires e.CancelAuction? || e.StopDue? || e.ForceClose? || e.MassCancel? || e.PickUpAuction? || e.CrashAll?
    ensures var w' := Step(w, e);
            WellFormed(w') && SameSellers(w, w') && PaysSellers(w, w') && |w'.auctions| == |w.auctions|
  {
    StepIsWellFormed(w, e);
  }

  lemma CreateKeepsSellers(w: World, e: Event)
    requires WellFormed(w) && e.Create?
    ensures var w' := Step(w, e);
            && WellFormed(w') && SameSellers(w, w') && PaysSellers(w, w')
            && (|w'.auctions| == |w.auctions|
                || (|w'.auctions| == |w.auctions| + 1 && w'.asks[w'.auctions[|w.auctions|].ask].seller == e.seller))
  {
    StepIsWellFormed(w, e);
  }

  lemma StepKeepsSellers(w: World, e: Event)
    requires WellFormed(w)
    ensures var w' := Step(w, e);
            && WellFormed(w') && SameSellers(w, w') && PaysSellers(w, w')
            && (|w'.auctions| == |w.auctions|
                || (e.Create? && |w'.auctions| == |w.auctions| + 1 && w'.asks[w'.auctions[|w.auctions|].ask].seller == e.seller))
  {
    match e
    case Create(_, _, _, _, _, _) => CreateKeepsSellers(w, e);
    case PlaceBid(_, _, _, _) => RowsKeepSellers(w, e);
    case BidSettled(_, _, _) => RowsKeepSellers(w, e);
    case Withdraw(_, _, _, _, _) => RowsKeepSellers(w, e);
    case WithdrawalSettled(_, _) => RowsKeepSellers(w, e);
    case RefundLoser => if CanProceed(w) && w.closer.work.losers != [] { RefundKeepsSellers(w); }
    case PayWinner(tokenBlock, paid) => if CanProceed(w) && w.closer.work.losers == [] { PayKeepsSellers(w, tokenBlock, paid); }
    case _ => StatusKeepsSellers(w, e);
  }

  /** In every reachable database the seller of an auction is who created it, and every payout has gone to the creator of
      its auction. */
  lemma {:induction false} PayoutsGoToCreators(w: World, events: seq<Event>)
    requires Deployed(w)
    ensures var w', creators := RunEvents(w, events), Creators(w, events);
            && |creators| == |w'.auctions|
            && (forall a :: 0 <= a < |w'.auctions| ==> w'.asks[w'.auctions[a].ask].seller == creators[a])
            && (forall k :: 0 <= k < |w'.payments| && w'.payments[k].Payout? ==>
                  w'.payments[k].auction < |creators| && w'.payments[k].seller == creators[w'.payments[k].auction])
  {
    if events != [] {
      var before, e := events[..|events| - 1], events[|events| - 1];
      PayoutsGoToCreators(w, before);
      StepKeepsSellers(RunEvents(w, before), e);
    }
  }

  /** So a close, from any reachable database, pays the creator of the auction what the largest finished sum leaves after
      the commission. */
  lemma ClosePaysCreator(w: World, events: seq<Event>, a: nat, list: seq<Aggregate>, lands: Address -> bool,
                         tokenBlock: Option<nat>, paid: bool)
    returns (share: int)
    requires Deployed(w) && CanPickUp(RunEvents(w, events), a, list) && list != []
    ensures a < |Creators(w, events)|
    ensures var w' := RunEvents(w, events);
            var end := CloseWorld(w', a, list, lands, tokenBlock, paid);
            && end.payments == w'.payments + RefundsDue(a, list[1..]) + [Payout(a, Creators(w, events)[a], share)]
            && IsTop(OfAuction(w'.bids, a), Actual, list[0].bidder)
            && list[0].total == Total(OfAuction(w'.bids, a), list[0].bidder, Actual)
            && KeepsCommission(list[0].total, w.commission, list[0].total - share)
  {
    PayoutsGoToCreators(w, events);
    CommissionIsFixed(w, events);
    CloseSubmits(RunEvents(w, events), a, list, lands, tokenBlock, paid);
    FirstOfListing(list, OfAuction(RunEvents(w, events).bids, a), Actual);
    var end := CloseWorld(RunEvents(w, events), a, list, lands, tokenBlock, paid);
    share := end.payments[|end.payments| - 1].amount;
  }

  // ---------------------------------------------------------------- one live offer per token

  /** No event gives an offer another token or brings one back to life. */
  predicate NoneRevived(w: World, w': World) {
    |w'.asks| == |w.asks|
    && forall i :: 0 <= i < |w.asks| ==>
         w'.asks[i].collection == w.asks[i].collection && w'.asks[i].token == w.asks[i].token
         && (Live(w'.asks[i].status) ==> Live(w.asks[i].status))
  }

  lemma PayRevivesNone(w: World, tokenBlock: Option<nat>, paid: bool)
    requires WellFormed(w) && w.closer.Busy?
    ensures NoneRevived(w, PayWorld(w, tokenBlock, paid))
  {
  }

  lemma RowsReviveNone(w: World, e: Event)
    requires WellFormed(w) && (e.PlaceBid? || e.BidSettled? || e.Withdraw? || e.WithdrawalSettled? || e.RefundLoser?)
    ensures NoneRevived(w, Step(w, e))
  {
  }

  lemma StatusRevivesNone(w: World, e: Event)
    requires WellFormed(w)
    requires e.CancelAuction? || e.StopDue? || e.ForceClose? || e.MassCancel? || e.PickUpAuction? || e.CrashAll?
    ensures NoneRevived(w, Step(w, e))
  {
  }

  lemma StepRevivesNone(w: World, e: Event)
    requires WellFormed(w) && !e.Create?
    ensures NoneRevived(w, Step(w, e))
  {
    if e.PayWinner? {
      if CanProceed(w) && w.closer.work.losers == [] { PayRevivesNone(w, e.tokenBlock, e.paid); }
    } else if e.PlaceBid? || e.BidSettled? || e.Withdraw? || e.WithdrawalSettled? || e.RefundLoser? {
      RowsReviveNone(w, e);
    } else {
      StatusRevivesNone(w, e);
    }
  }

  lemma CreateKeepsOneLive(w: World, e: Event)
    requires WellFormed(w) && e.Create? && OneLivePerToken(w.asks)
    ensures OneLivePerToken(Step(w, e).asks)
  {
    if !HasLive(w.asks, e.collection, e.token) {
      OneLiveGrows(w.asks, Ask(AskActive, e.collection, e.token, e.startPrice, e.seller, w.account, None));
    }
  }

  /** In every reachable database a token has at most one live offer. */
  lemma {:induction false} OneLiveOfferPerToken(w: World, events: seq<Event>)
    requires Deployed(w)
    ensures OneLivePerToken(RunEvents(w, events).asks)
  {
    if events != [] {
      var before, e := RunEvents(w, events[..|events| - 1]), events[|events| - 1];
      OneLiveOfferPerToken(w, events[..|events| - 1]);
      if e.Create? {
        CreateKeepsOneLive(before, e);
      } else {
        StepRevivesNone(before, e);
        OneLiveShrinks(before.asks, Step(before, e).asks);
      }
    }
  }
}
