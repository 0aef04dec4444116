/** A close on the tables: the events that one call of processAuctionWithdraws makes, and the per-auction
    theorems carried to the whole database. */
module AuctionClosing {
  import opened Wrappers
  import opened BidLedger
  import opened Commission
  import opened AuctionMachine
  import opened AuctionPrice
  import opened AuctionMoney
  import opened AuctionTheorems
  import opened AuctionWorld
  import opened AuctionRefinement

  /** Handles the next loser: the row is written, the transfer submitted and settled. */
  function RefundLoserWorld(w: World, lands: Address -> bool): (w': World)
    requires WellFormed(w) && CanProceed(w) && w.closer.work.losers != []
    ensures WellFormed(w') && CanProceed(w') && w'.closer.auction == w.closer.auction
    ensures w'.closer.work == w.closer.work.(losers := w.closer.work.losers[1..])
    ensures |w'.auctions| == |w.auctions|
  {
    var loser := w.closer.work.losers[0];
    var w1 := RefundWorld(w);
    if loser.total > 0
    then w1.(bids := Mark(w1.bids, |w.bids|, if lands(loser.bidder) then Finished else Error))
    else w1
  }

  function RefundLosers(w: World, lands: Address -> bool): (w': World)
    requires WellFormed(w) && CanProceed(w)
    ensures WellFormed(w') && CanProceed(w') && w'.closer.auction == w.closer.auction
    ensures w'.closer.work == w.closer.work.(losers := [])
    ensures |w'.auctions| == |w.auctions|
    decreases |w.closer.work.losers|
  {
    if w.closer.work.losers == [] then w else RefundLosers(RefundLoserWorld(w, lands), lands)
  }

  ghost predicate CanPickUp(w: World, a: nat, list: seq<Aggregate>) {
    WellFormed(w) && Ready(w, a) && w.closer.Idle? && IsListing(list, OfAuction(w.bids, a), Actual)
  }

  /** One call of processAuctionWithdraws. */
  ghost function CloseWorld(w: World, a: nat, list: seq<Aggregate>, lands: Address -> bool,
                            tokenBlock: Option<nat>, paid: bool): (w': World)
    requires CanPickUp(w, a, list)
    ensures WellFormed(w') && w'.closer.Idle? && |w'.auctions| == |w.auctions|
  {
    PickUpIsWellFormed(w, a, list);
    var w1 := PickUpWorld(w, a, list);
    if list == [] then w1
    else
      var w2 := RefundLosers(w1, lands);
      PayIsWellFormed(w2, tokenBlock, paid);
      PayWorld(w2, tokenBlock, paid)
  }

  // ---------------------------------------------------------------- a close is a run

  function RefundEvents(losers: seq<Aggregate>, n: nat, lands: Address -> bool): seq<Event> {
    if losers == [] then []
    else if losers[0].total > 0 then
      [RefundLoser, WithdrawalSettled(n, lands(losers[0].bidder))] + RefundEvents(losers[1..], n + 1, lands)
    else [RefundLoser] + RefundEvents(losers[1..], n, lands)
  }

  /** The events of a close, when the bids table has n rows at its start. */
  function CloseEvents(a: nat, list: seq<Aggregate>, n: nat, lands: Address -> bool,
                       tokenBlock: Option<nat>, paid: bool): seq<Event> {
    if list == [] then [PickUpAuction(a, list)]
    else [PickUpAuction(a, list)] + RefundEvents(list[1..], n, lands) + [PayWinner(tokenBlock, paid)]
  }

  lemma {:induction false} RunAppend(w: World, first: seq<Event>, second: seq<Event>)
    requires WellFormed(w)
    ensures RunEvents(w, first + second) == RunEvents(RunEvents(w, first), second)
  {
    if second == [] {
      assert first + second == first;
    } else {
      var n := |second| - 1;
      assert (first + second)[..|first + second| - 1] == first + second[..n];
      RunAppend(w, first, second[..n]);
    }
  }

  lemma RunOne(w: World, e: Event)
    requires WellFormed(w)
    ensures RunEvents(w, [e]) == Step(w, e)
  {
    assert [e][..0] == [];
  }

  lemma RunPair(w: World, first: Event, second: Event)
    requires WellFormed(w)
    ensures WellFormed(Step(w, first)) && RunEvents(w, [first, second]) == Step(Step(w, first), second)
  {
    StepIsWellFormed(w, first);
    assert [first, second] == [first] + [second];
    RunAppend(w, [first], [second]);
    RunOne(w, first);
    RunOne(Step(w, first), second);
  }

  lemma RefundIsStep(w: World)
    requires WellFormed(w) && CanProceed(w) && w.closer.work.losers != []
    ensures Step(w, RefundLoser) == RefundWorld(w)
  {
  }

  lemma SettlementIsStep(w: World, i: nat, landed: bool)
    requires WellFormed(w) && WithdrawalInFlight(w, i)
    ensures Step(w, WithdrawalSettled(i, landed)) == w.(bids := Mark(w.bids, i, if landed then Finished else Error))
  {
  }

  lemma RefundLoserIsRun(w: World, lands: Address -> bool)
    requires WellFormed(w) && CanProceed(w) && w.closer.work.losers != []
    ensures var loser := w.closer.work.losers[0];
            RefundLoserWorld(w, lands) == RunEvents(w,
              if loser.total > 0 then [RefundLoser, WithdrawalSettled(|w.bids|, lands(loser.bidder))] else [RefundLoser])
  {
    var loser := w.closer.work.losers[0];
    RefundIsStep(w);
    RefundIsWellFormed(w);
    if loser.total > 0 {
      RunPair(w, RefundLoser, WithdrawalSettled(|w.bids|, lands(loser.bidder)));
      SettlementIsStep(RefundWorld(w), |w.bids|, lands(loser.bidder));
    } else {
      RunOne(w, RefundLoser);
    }
  }

  lemma {:induction false} RefundLosersAreRun(w: World, lands: Address -> bool)
    requires WellFormed(w) && CanProceed(w)
    ensures RefundLosers(w, lands) == RunEvents(w, RefundEvents(w.closer.work.losers, |w.bids|, lands))
    decreases |w.closer.work.losers|
  {
    var losers := w.closer.work.losers;
    if losers != [] {
      var w1 := RefundLoserWorld(w, lands);
      RefundLosersAreRun(w1, lands);
      RunAfterRefund(w, lands, RefundEvents(losers[1..], |w1.bids|, lands));
    }
  }

  lemma RunAfterRefund(w: World, lands: Address -> bool, rest: seq<Event>)
    requires WellFormed(w) && CanProceed(w) && w.closer.work.losers != []
    ensures var loser := w.closer.work.losers[0];
            RunEvents(RefundLoserWorld(w, lands), rest) == RunEvents(w,
              (if loser.total > 0 then [RefundLoser, WithdrawalSettled(|w.bids|, lands(loser.bidder))] else [RefundLoser]) + rest)
  {
    var loser := w.closer.work.losers[0];
    var first := if loser.total > 0 then [RefundLoser, WithdrawalSettled(|w.bids|, lands(loser.bidder))] else [RefundLoser];
    RefundLoserIsRun(w, lands);
    RunAppend(w, first, rest);
  }

  lemma PickUpIsRun(w: World, a: nat, list: seq<Aggregate>)
    requires CanPickUp(w, a, list)
    ensures RunEvents(w, [PickUpAuction(a, list)]) == PickUpWorld(w, a, list)
  {
    RunOne(w, PickUpAuction(a, list));
  }

  lemma PayIsRun(w: World, tokenBlock: Option<nat>, paid: bool)
    requires WellFormed(w) && CanProceed(w) && w.closer.work.losers == []
    ensures RunEvents(w, [PayWinner(tokenBlock, paid)]) == PayWorld(w, tokenBlock, paid)
  {
    RunOne(w, PayWinner(tokenBlock, paid));
    PayIsStep(w, tokenBlock, paid);
  }

  lemma PayIsStep(w: World, tokenBlock: Option<nat>, paid: bool)
    requires WellFormed(w) && CanProceed(w) && w.closer.work.losers == []
    ensures Step(w, PayWinner(tokenBlock, paid)) == PayWorld(w, tokenBlock, paid)
  {
  }

  lemma RunThree(w: World, first: seq<Event>, second: seq<Event>, third: seq<Event>)
    requires WellFormed(w)
    ensures RunEvents(w, first + second + third) == RunEvents(RunEvents(RunEvents(w, first), second), third)
  {
    RunAppend(w, first, second);
    RunAppend(w, first + second, third);
  }

  /** A call of processAuctionWithdraws makes a run of the database like any other. */
  lemma CloseIsRun(w: World, a: nat, list: seq<Aggregate>, lands: Address -> bool, tokenBlock: Option<nat>, paid: bool)
    requires CanPickUp(w, a, list)
    ensures CloseWorld(w, a, list, lands, tokenBlock, paid)
         == RunEvents(w, CloseEvents(a, list, |w.bids|, lands, tokenBlock, paid))
  {
    PickUpIsWellFormed(w, a, list);
    PickUpIsRun(w, a, list);
    if list != [] {
      var w1 := PickUpWorld(w, a, list);
      RefundLosersAreRun(w1, lands);
      PayIsRun(RefundLosers(w1, lands), tokenBlock, paid);
      RunThree(w, [PickUpAuction(a, list)], RefundEvents(list[1..], |w.bids|, lands), [PayWinner(tokenBlock, paid)]);
    }
  }

  // ---------------------------------------------------------------- a close and the auction machines

  function Landed(losers: seq<Aggregate>, lands: Address -> bool): seq<bool> {
    if losers == [] then [] else [lands(losers[0].bidder)] + Landed(losers[1..], lands)
  }

  lemma {:induction false} LandedLength(losers: seq<Aggregate>, lands: Address -> bool)
    ensures |Landed(losers, lands)| == |losers|
    ensures (forall b :: lands(b)) ==> AllLand(Landed(losers, lands))
  {
    if losers != [] {
      LandedLength(losers[1..], lands);
    }
  }

  lemma RefundLoserRefines(w: World, lands: Address -> bool, a: nat)
    requires WellFormed(w) && CanProceed(w) && w.closer.work.losers != [] && a < |w.auctions|
    ensures LotOf(RefundLoserWorld(w, lands), a)
         == if a == w.closer.auction then RefundOne(LotOf(w, a), lands(w.closer.work.losers[0].bidder)) else LotOf(w, a)
  {
    var loser := w.closer.work.losers[0];
    var w1 := RefundWorld(w);
    RefundLot(w, a);
    if loser.total > 0 {
      RefundIsWellFormed(w);
      MarkLot(w1, |w.bids|, if lands(loser.bidder) then Finished else Error, a);
      assert w1.bids[..|w.bids|] == w.bids;
    }
  }

  lemma {:induction false} RefundLosersRefine(w: World, lands: Address -> bool, a: nat)
    requires WellFormed(w) && CanProceed(w) && a < |w.auctions|
    ensures |Landed(w.closer.work.losers, lands)| == |w.closer.work.losers|
    ensures LotOf(RefundLosers(w, lands), a)
         == if a == w.closer.auction then RefundAll(LotOf(w, a), Landed(w.closer.work.losers, lands)) else LotOf(w, a)
    decreases |w.closer.work.losers|
  {
    LandedLength(w.closer.work.losers, lands);
    if w.closer.work.losers != [] {
      RefundLoserRefines(w, lands, a);
      RefundLosersRefine(RefundLoserWorld(w, lands), lands, a);
    }
  }

  lemma PickUpLot(w: World, a: nat, list: seq<Aggregate>, x: nat)
    requires CanPickUp(w, a, list) && x < |w.auctions|
    ensures LotOf(PickUpWorld(w, a, list), x) == if x == a then Apply(LotOf(w, a), PickUp(list)) else LotOf(w, x)
    ensures PickUpWorld(w, a, list).asks[w.auctions[a].ask].seller == w.asks[w.auctions[a].ask].seller
  {
  }

  /** Closing one auction touches no other. */
  lemma CloseLeavesOthers(w: World, a: nat, list: seq<Aggregate>, lands: Address -> bool,
                          tokenBlock: Option<nat>, paid: bool, x: nat)
    requires CanPickUp(w, a, list) && x < |w.auctions| && x != a
    ensures LotOf(CloseWorld(w, a, list, lands, tokenBlock, paid), x) == LotOf(w, x)
  {
    PickUpIsWellFormed(w, a, list);
    PickUpLot(w, a, list, x);
    if list != [] {
      var w1 := PickUpWorld(w, a, list);
      RefundLosersRefine(w1, lands, x);
      PayLot(RefundLosers(w1, lands), tokenBlock, paid, x);
    }
  }

  /** Nor the offer of another auction. */
  lemma CloseLeavesOtherOffers(w: World, a: nat, list: seq<Aggregate>, lands: Address -> bool,
                               tokenBlock: Option<nat>, paid: bool, x: nat)
    requires CanPickUp(w, a, list) && x < |w.auctions| && x != a
    ensures var w' := CloseWorld(w, a, list, lands, tokenBlock, paid);
            w'.auctions[x] == w.auctions[x] && w'.asks[w'.auctions[x].ask] == w.asks[w.auctions[x].ask]
  {
    PickUpIsWellFormed(w, a, list);
    if list != [] {
      RefundLosersKeepTerms(PickUpWorld(w, a, list), lands);
    }
  }

  /** Recording the sale throws: there is a winner, the seller is paid, and no block of the token transfer is known. */
  predicate Throws(w: World, a: nat, tokenBlock: Option<nat>, paid: bool)
    requires WellFormed(w) && a < |w.auctions|
  {
    HasAny(OfAuction(w.bids, a), Actual) && paid && tokenBlock.None? && w.asks[w.auctions[a].ask].blockBuy.None?
  }

  lemma ListingEmptyIff(list: seq<Aggregate>, rows: seq<Bid>, s: Scope)
    requires IsListing(list, rows, s)
    ensures list == [] <==> !HasAny(rows, s)
  {
    if list != [] {
      assert Listed(list, list[0].bidder);
      PresentIsAny(rows, list[0].bidder, s);
    }
    if HasAny(rows, s) {
      var i :| 0 <= i < |rows| && Counts(s, rows[i]);
      assert Present(rows, rows[i].bidder, s);
    }
  }

  /** The losers of a listing; a close without bidders has none. */
  function Losers(list: seq<Aggregate>): seq<Aggregate> {
    if list == [] then [] else list[1..]
  }

  /** On its own auction a close is the machine's close, with and without bidders, paid or not. */
  lemma CloseRefines(w: World, a: nat, list: seq<Aggregate>, lands: Address -> bool, tokenBlock: Option<nat>, paid: bool)
    requires CanPickUp(w, a, list)
    ensures |Landed(Losers(list), lands)| == |Losers(list)|
    ensures LotOf(CloseWorld(w, a, list, lands, tokenBlock, paid), a)
         == CloseOut(LotOf(w, a), list, Landed(Losers(list), lands), w.asks[w.auctions[a].ask].seller, w.commission, paid)
  {
    PickUpIsWellFormed(w, a, list);
    PickUpLot(w, a, list, a);
    LandedLength(Losers(list), lands);
    if list != [] {
      var w1 := PickUpWorld(w, a, list);
      RefundLosersRefine(w1, lands, a);
      RefundLosersKeepTerms(w1, lands);
      PayLot(RefundLosers(w1, lands), tokenBlock, paid, a);
    }
  }

  lemma {:induction false} RefundLosersKeepTerms(w: World, lands: Address -> bool)
    requires WellFormed(w) && CanProceed(w)
    ensures var w' := RefundLosers(w, lands);
            w'.asks == w.asks && w'.auctions == w.auctions && w'.commission == w.commission && w'.trades == w.trades
    decreases |w.closer.work.losers|
  {
    if w.closer.work.losers != [] {
      RefundLosersKeepTerms(RefundLoserWorld(w, lands), lands);
    }
  }

  // ---------------------------------------------------------------- theorems about every reachable database

  /** In the history of the auction, no withdrawal failed that restored a sum above the price. */
  ghost predicate HarmlessHistory(w: World, events: seq<Event>, a: nat)
    requires Deployed(w) && a < |RunEvents(w, events).auctions|
  {
    HarmlessThroughout(History(w, events, a).0, History(w, events, a).1)
  }

  /** The cached contract_ask.price of every auction not yet picked up, in every reachable database. */
  lemma CachedPriceInTables(w: World, events: seq<Event>, a: nat)
    requires Deployed(w) && a < |RunEvents(w, events).auctions|
    requires Unsettled(RunEvents(w, events).auctions[a].status)
    ensures var w' := RunEvents(w, events);
            var rows, price := OfAuction(w'.bids, a), w'.asks[w'.auctions[a].ask].price;
            && PriceBounded(rows, price)
            && (HarmlessHistory(w, events, a) || NoFailedTransfer(rows) ==> PriceAgrees(rows, w'.auctions[a].startPrice, price))
  {
    AuctionsAreMachines(w, events, a);
    var h := History(w, events, a);
    CachedPriceFollowsRows(h.0, h.1);
  }

  predicate PaidOnce(payments: seq<Payment>) {
    forall i, j :: 0 <= i < j < |payments| && payments[i].auction == payments[j].auction
      ==> !SamePurpose(payments[i], payments[j])
  }

  /** In every reachable database, crashes included, no refund of a loser and no payout of an auction
      has been submitted twice. */
  lemma PaidOnceInTables(w: World, events: seq<Event>)
    requires Deployed(w)
    ensures PaidOnce(RunEvents(w, events).payments)
  {
    var w' := RunEvents(w, events);
    forall a | 0 <= a < |w'.auctions| ensures AtMostOnce(PaymentsOf(w'.payments, a)) {
      AuctionsAreMachines(w, events, a);
      var h := History(w, events, a);
      PaidAtMostOnce(h.0, h.1);
    }
    OncePerAuction(w'.payments, |w'.auctions|);
  }

  lemma {:induction false} OncePerAuction(payments: seq<Payment>, n: nat)
    requires forall i :: 0 <= i < |payments| ==> payments[i].auction < n
    requires forall a :: 0 <= a < n ==> AtMostOnce(PaymentsOf(payments, a))
    ensures PaidOnce(payments)
  {
    if payments != [] {
      var m := |payments| - 1;
      var init, p := payments[..m], payments[m];
      forall a | 0 <= a < n ensures AtMostOnce(PaymentsOf(init, a)) {
        var all := PaymentsOf(payments, a);
        assert AtMostOnce(all);
        assert PaymentsOf(init, a) <= all;
      }
      OncePerAuction(init, n);
      forall i | 0 <= i < m && payments[i].auction == p.auction ensures !SamePurpose(payments[i], p) {
        var mine := PaymentsOf(init, p.auction);
        InPaymentsOf(init, i);
        var k :| 0 <= k < |mine| && mine[k] == init[i];
        var all := PaymentsOf(payments, p.auction);
        assert all == mine + [p];
        assert all[k] == mine[k] && all[|mine|] == p;
        assert AtMostOnce(all);
      }
      forall i, j | 0 <= i < j < |payments| && payments[i].auction == payments[j].auction
        ensures !SamePurpose(payments[i], payments[j])
      {
        if j < m { assert init[i] == payments[i] && init[j] == payments[j]; }
      }
    }
  }

  lemma {:induction false} InPaymentsOf(payments: seq<Payment>, i: nat)
    requires i < |payments|
    ensures payments[i] in PaymentsOf(payments, payments[i].auction)
  {
    var n := |payments| - 1;
    if i < n {
      InPaymentsOf(payments[..n], i);
    }
  }

  /** Conservation at close on the tables, from every reachable database. */
  lemma CloseBalancesInTables(w: World, events: seq<Event>, a: nat, list: seq<Aggregate>,
                              lands: Address -> bool, tokenBlock: Option<nat>)
    requires Deployed(w) && CanPickUp(RunEvents(w, events), a, list) && list != []
    requires OneAtATime(History(w, events, a).0, History(w, events, a).1)
    requires forall b :: lands(b)
    ensures var w' := RunEvents(w, events);
            var end := CloseWorld(w', a, list, lands, tokenBlock, true);
            && Paid(PaymentsOf(end.payments, a)) + MarketFee(list[0].total, w.commission)
               == GrandTotal(OfAuction(w'.bids, a), Actual)
            && (forall b :: Total(OfAuction(end.bids, a), b, Actual) == if b == list[0].bidder then list[0].total else 0)
  {
    var w' := RunEvents(w, events);
    var h := History(w, events, a);
    AuctionsAreMachines(w, events, a);
    CloseRefines(w', a, list, lands, tokenBlock, true);
    LandedLength(list[1..], lands);
    CommissionIsFixed(w, events);
    CloseBalances(h.0, h.1, list, Landed(list[1..], lands), w'.asks[w'.auctions[a].ask].seller, w'.commission);
  }

  lemma {:induction false} CommissionIsFixed(w: World, events: seq<Event>)
    requires WellFormed(w)
    ensures RunEvents(w, events).commission == w.commission
  {
    if events != [] {
      CommissionIsFixed(w, events[..|events| - 1]);
    }
  }

  /** The trade record of a paid close always splits the cached price; that is the amount the seller's share was
      computed from exactly when price and rows agreed, as they do if the auction's failed withdrawals were harmless. */
  lemma TradeRecordsFinalPrice(w: World, events: seq<Event>, a: nat, list: seq<Aggregate>,
                               lands: Address -> bool, block: nat)
    requires Deployed(w) && CanPickUp(RunEvents(w, events), a, list) && list != []
    ensures var w' := RunEvents(w, events);
            var end := CloseWorld(w', a, list, lands, Some(block), true);
            var rows, price := OfAuction(w'.bids, a), w'.asks[w'.auctions[a].ask].price;
            && |end.trades| == |w'.trades| + 1
            && end.trades[..|w'.trades|] == w'.trades
            && (var trade := end.trades[|w'.trades|];
                && trade.originPrice == price && trade.price + trade.commission == price && trade.buyer == list[0].bidder
                && (trade.originPrice == list[0].total <==> PriceAgrees(rows, w'.auctions[a].startPrice, price))
                && (HarmlessHistory(w, events, a) || NoFailedTransfer(rows) ==> trade.originPrice == list[0].total))
  {
    var w' := RunEvents(w, events);
    AuctionsAreMachines(w, events, a);
    var h := History(w, events, a);
    assert Enabled(LotOf(w', a), PickUp(list));
    SettlementAgrees(h.0, h.1, list);
    CloseRecordsTrade(w', a, list, lands, block);
  }

  lemma CloseRecordsTrade(w: World, a: nat, list: seq<Aggregate>, lands: Address -> bool, block: nat)
    requires CanPickUp(w, a, list) && list != []
    ensures CloseWorld(w, a, list, lands, Some(block), true).trades
         == w.trades + [AuctionTrade(w.asks[w.auctions[a].ask], list[0].bidder, w.commission)]
  {
    PickUpIsWellFormed(w, a, list);
    var w1 := PickUpWorld(w, a, list);
    RefundLosersKeepTerms(w1, lands);
  }
}
