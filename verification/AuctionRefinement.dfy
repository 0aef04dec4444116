/** Every auction in the tables is an auction machine: an event of the database is at most one move of each
    auction, and no move of any auction but the one it is about. */
module AuctionRefinement {
  import opened Wrappers
  import opened BidLedger
  import opened Commission
  import opened AuctionMachine
  import opened AuctionWorld

  // ---------------------------------------------------------------- selecting an auction's rows

  lemma OfAuctionSnoc(bids: seq<Bid>, r: Bid, a: nat)
    ensures OfAuction(bids + [r], a) == if r.auction == a then OfAuction(bids, a) + [r] else OfAuction(bids, a)
  {
    assert (bids + [r])[..|bids|] == bids;
  }

  lemma PaymentsSnoc(payments: seq<Payment>, p: Payment, a: nat)
    ensures PaymentsOf(payments + [p], a) == if p.auction == a then PaymentsOf(payments, a) + [p] else PaymentsOf(payments, a)
  {
    assert (payments + [p])[..|payments|] == payments;
  }

  lemma {:induction false} RankFinds(bids: seq<Bid>, i: nat)
    requires i < |bids|
    ensures Rank(bids, i) < |OfAuction(bids, bids[i].auction)|
    ensures OfAuction(bids, bids[i].auction)[Rank(bids, i)] == bids[i]
  {
    var n := |bids| - 1;
    if i < n {
      assert bids[..n][..i] == bids[..i];
      RankFinds(bids[..n], i);
    }
  }

  lemma {:induction false} OfAuctionMark(bids: seq<Bid>, i: nat, st: BidStatus, a: nat)
    requires i < |bids|
    ensures bids[i].auction != a ==> OfAuction(Mark(bids, i, st), a) == OfAuction(bids, a)
    ensures bids[i].auction == a ==>
      Rank(bids, i) < |OfAuction(bids, a)| && OfAuction(Mark(bids, i, st), a) == Mark(OfAuction(bids, a), Rank(bids, i), st)
  {
    var n := |bids| - 1;
    var bids' := Mark(bids, i, st);
    if bids[i].auction == a {
      RankFinds(bids, i);
    }
    if i == n {
      assert bids'[..n] == bids[..n];
    } else {
      assert bids[..n][..i] == bids[..i];
      assert bids'[..n] == Mark(bids[..n], i, st);
      OfAuctionMark(bids[..n], i, st, a);
    }
  }

  lemma {:induction false} OfAuctionNone(bids: seq<Bid>, a: nat)
    requires forall i :: 0 <= i < |bids| ==> bids[i].auction != a
    ensures OfAuction(bids, a) == []
  {
    if bids != [] {
      OfAuctionNone(bids[..|bids| - 1], a);
    }
  }

  lemma {:induction false} PaymentsOfNone(payments: seq<Payment>, a: nat)
    requires forall i :: 0 <= i < |payments| ==> payments[i].auction != a
    ensures PaymentsOf(payments, a) == []
  {
    if payments != [] {
      PaymentsOfNone(payments[..|payments| - 1], a);
    }
  }

  // ---------------------------------------------------------------- the move an event makes on one auction

  ghost function MoveOf(w: World, e: Event, a: nat): Option<Move>
    requires WellFormed(w) && a < |w.auctions|
  {
    match e
    case Create(_, _, _, _, _, _) => None
    case PlaceBid(collection, token, bidder, amount) =>
      if PlaceOutcome(w, collection, token, bidder, amount) == Success(a) then Some(Place(bidder, amount)) else None
    case BidSettled(i, landed, winner) =>
      if !BidInFlight(w, i) || w.bids[i].auction != a then None
      else if landed then Some(BidLanded(Rank(w.bids, i)))
      else if IsFirst(OfAuction(Mark(w.bids, i, Error), a), Pending, winner) then Some(BidFailed(Rank(w.bids, i), winner))
      else None
    case Withdraw(collection, token, bidder, pendingTop, actualTop) =>
      var rows := OfAuction(w.bids, a);
      if WithdrawOutcome(w, collection, token, bidder, pendingTop, actualTop) == Success(a)
         && IsFirst(rows, Pending, pendingTop) && IsFirst(rows, Actual, actualTop)
      then Some(TakeBack(bidder, pendingTop, actualTop)) else None
    case WithdrawalSettled(i, landed) =>
      if !WithdrawalInFlight(w, i) || w.bids[i].auction != a then None
      else Some(if landed then TransferLanded(Rank(w.bids, i)) else TransferFailed(Rank(w.bids, i)))
    case CancelAuction(collection, token, owner, _) =>
      if CancelOutcome(w, collection, token, owner) == Success(a) then Some(Retire) else None
    case StopDue(now) => if IsDue(w.auctions[a], now) then Some(Stop) else None
    case ForceClose(collection, token, now) =>
      if Locate(w, collection, token, {Created, Active}) == Success(a) then Some(Stop) else None
    case MassCancel(_, _) => None
    case PickUpAuction(x, list) =>
      if x == a && Ready(w, a) && w.closer.Idle? && IsListing(list, OfAuction(w.bids, a), Actual) then Some(PickUp(list)) else None
    case RefundLoser =>
      if CanProceed(w) && w.closer.work.losers != [] && w.closer.auction == a then Some(RefundNext) else None
    case PayWinner(tokenBlock, paid) =>
      if CanProceed(w) && w.closer.work.losers == [] && w.closer.auction == a
      then Some(Finish(w.asks[w.auctions[a].ask].seller, w.commission, paid)) else None
    case CrashAll => Some(Crash)
  }

  ghost predicate Moves(w: World, e: Event, a: nat)
    requires WellFormed(w) && a < |w.auctions|
  {
    var l := LotOf(w, a);
    var w' := Step(w, e);
    && a < |w'.auctions| && w'.auctions[a].ask < |w'.asks|
    && match MoveOf(w, e, a)
       case None => LotOf(w', a) == l
       case Some(m) => Enabled(l, m) && LotOf(w', a) == Apply(l, m)
  }

  lemma SnocLot(w: World, r: Bid, a: nat)
    requires WellFormed(w) && a < |w.auctions|
    ensures LotOf(w.(bids := w.bids + [r]), a)
         == if r.auction == a then LotOf(w, a).(rows := LotOf(w, a).rows + [r]) else LotOf(w, a)
  {
    OfAuctionSnoc(w.bids, r, a);
  }

  lemma PriceLot(w: World, x: nat, price: int, a: nat)
    requires WellFormed(w) && x < |w.auctions| && a < |w.auctions|
    ensures WellFormed(SetPrice(w, x, price)) && SetPrice(w, x, price).auctions == w.auctions
    ensures LotOf(SetPrice(w, x, price), a) == if x == a then LotOf(w, a).(price := price) else LotOf(w, a)
  {
  }

  lemma PlaceLot(w: World, x: nat, bidder: Address, amount: nat, a: nat)
    requires WellFormed(w) && x < |w.auctions| && a < |w.auctions|
    ensures PlaceWorld(w, x, bidder, amount).auctions == w.auctions
    ensures |PlaceWorld(w, x, bidder, amount).asks| == |w.asks|
    ensures LotOf(PlaceWorld(w, x, bidder, amount), a)
         == if x == a then Apply(LotOf(w, a), Place(bidder, amount)) else LotOf(w, a)
  {
    var row := BidRow(x, OfAuction(w.bids, x), bidder, amount);
    PriceLot(w, x, row.balance, a);
    SnocLot(SetPrice(w, x, row.balance), row, a);
  }

  lemma PlaceMoves(w: World, e: Event, a: nat)
    requires WellFormed(w) && a < |w.auctions| && e.PlaceBid?
    ensures Moves(w, e, a)
  {
    var r := PlaceOutcome(w, e.collection, e.token, e.bidder, e.amount);
    if r.Success? {
      PlaceLot(w, r.value, e.bidder, e.amount, a);
    }
  }

  lemma MarkLot(w: World, i: nat, st: BidStatus, a: nat)
    requires WellFormed(w) && i < |w.bids| && a < |w.auctions|
    ensures w.bids[i].auction == a ==>
      Rank(w.bids, i) < |LotOf(w, a).rows| && LotOf(w, a).rows[Rank(w.bids, i)] == w.bids[i]
    ensures LotOf(w.(bids := Mark(w.bids, i, st)), a)
         == if w.bids[i].auction == a then LotOf(w, a).(rows := Mark(LotOf(w, a).rows, Rank(w.bids, i), st)) else LotOf(w, a)
  {
    RankFinds(w.bids, i);
    OfAuctionMark(w.bids, i, st, a);
  }

  lemma BidFailedLot(w: World, i: nat, winner: Option<Address>, a: nat)
    requires WellFormed(w) && i < |w.bids| && a < |w.auctions|
    ensures BidFailedWorld(w, i, winner).auctions == w.auctions
    ensures |BidFailedWorld(w, i, winner).asks| == |w.asks|
    ensures w.bids[i].auction == a ==> Rank(w.bids, i) < |LotOf(w, a).rows|
    ensures LotOf(BidFailedWorld(w, i, winner), a)
         == if w.bids[i].auction == a then Apply(LotOf(w, a), BidFailed(Rank(w.bids, i), winner)) else LotOf(w, a)
  {
    MarkLot(w, i, Error, a);
  }

  lemma BidSettledMoves(w: World, e: Event, a: nat)
    requires WellFormed(w) && a < |w.auctions| && e.BidSettled?
    ensures Moves(w, e, a)
  {
    if BidInFlight(w, e.row) {
      MarkLot(w, e.row, Finished, a);
      MarkLot(w, e.row, Error, a);
      BidFailedLot(w, e.row, e.winner, a);
    }
  }

  lemma WithdrawLot(w: World, x: nat, bidder: Address, top: Option<Address>, leader: Option<Address>, a: nat)
    requires WellFormed(w) && x < |w.auctions| && a < |w.auctions|
    ensures LotOf(WithdrawWorld(w, x, bidder), a)
         == if x == a then Apply(LotOf(w, a), TakeBack(bidder, top, leader)) else LotOf(w, a)
  {
    SnocLot(w, WithdrawalRow(x, OfAuction(w.bids, x), bidder), a);
  }

  lemma WithdrawMoves(w: World, e: Event, a: nat)
    requires WellFormed(w) && a < |w.auctions| && e.Withdraw?
    ensures Moves(w, e, a)
  {
    var r := WithdrawOutcome(w, e.collection, e.token, e.bidder, e.pendingTop, e.actualTop);
    if r.Success? {
      WithdrawLot(w, r.value, e.bidder, e.pendingTop, e.actualTop, a);
    }
  }

  lemma WithdrawalSettledMoves(w: World, e: Event, a: nat)
    requires WellFormed(w) && a < |w.auctions| && e.WithdrawalSettled?
    ensures Moves(w, e, a)
  {
    if WithdrawalInFlight(w, e.row) {
      MarkLot(w, e.row, Finished, a);
      MarkLot(w, e.row, Error, a);
    }
  }

  lemma RefundLot(w: World, a: nat)
    requires WellFormed(w) && a < |w.auctions| && w.closer.Busy? && w.closer.work.losers != []
    ensures LotOf(RefundWorld(w), a) == if w.closer.auction == a then Apply(LotOf(w, a), RefundNext) else LotOf(w, a)
  {
    var x, loser := w.closer.auction, w.closer.work.losers[0];
    var w' := RefundWorld(w);
    assert LotOf(w', a).closing == if x == a then Some(w'.closer.work) else None;
    if loser.total > 0 {
      OfAuctionSnoc(w.bids, RefundRow(x, loser), a);
      PaymentsSnoc(w.payments, Refund(x, loser.bidder, loser.total), a);
    }
  }

  lemma RefundMoves(w: World, a: nat)
    requires WellFormed(w) && a < |w.auctions|
    ensures Moves(w, RefundLoser, a)
  {
    if CanProceed(w) && w.closer.work.losers != [] {
      RefundLot(w, a);
    }
  }

  lemma CancelMoves(w: World, e: Event, a: nat)
    requires WellFormed(w) && a < |w.auctions| && e.CancelAuction?
    ensures Moves(w, e, a)
  {
  }

  lemma StopMoves(w: World, e: Event, a: nat)
    requires WellFormed(w) && a < |w.auctions| && (e.StopDue? || e.ForceClose? || e.MassCancel?)
    ensures Moves(w, e, a)
  {
  }

  lemma PickUpMoves(w: World, e: Event, a: nat)
    requires WellFormed(w) && a < |w.auctions| && e.PickUpAuction?
    ensures Moves(w, e, a)
  {
  }

  lemma PayLot(w: World, tokenBlock: Option<nat>, paid: bool, a: nat)
    requires WellFormed(w) && a < |w.auctions| && w.closer.Busy?
    ensures PayWorld(w, tokenBlock, paid).auctions[a].ask < |PayWorld(w, tokenBlock, paid).asks|
    ensures LotOf(PayWorld(w, tokenBlock, paid), a)
         == if w.closer.auction == a
            then Apply(LotOf(w, a), Finish(w.asks[w.auctions[a].ask].seller, w.commission, paid))
            else LotOf(w, a)
  {
    PayPayments(w, tokenBlock, paid, a);
  }

  lemma PayPayments(w: World, tokenBlock: Option<nat>, paid: bool, a: nat)
    requires WellFormed(w) && a < |w.auctions| && w.closer.Busy?
    ensures PaymentsOf(PayWorld(w, tokenBlock, paid).payments, a)
         == if w.closer.auction == a
            then PaymentsOf(w.payments, a)
                 + [Payout(a, w.asks[w.auctions[a].ask].seller,
                           w.closer.work.winner.total - MarketFee(w.closer.work.winner.total, w.commission))]
            else PaymentsOf(w.payments, a)
  {
    PaymentsSnoc(w.payments, PayWorld(w, tokenBlock, paid).payments[|w.payments|], a);
  }

  lemma PayMoves(w: World, e: Event, a: nat)
    requires WellFormed(w) && a < |w.auctions| && e.PayWinner?
    ensures Moves(w, e, a)
  {
    if CanProceed(w) && w.closer.work.losers == [] {
      PayLot(w, e.tokenBlock, e.paid, a);
    }
  }

  /** Each event refines to at most one move per auction. */
  lemma EventIsMove(w: World, e: Event, a: nat)
    requires WellFormed(w) && a < |w.auctions|
    ensures Moves(w, e, a)
  {
    match e
    case PlaceBid(_, _, _, _) => PlaceMoves(w, e, a);
    case BidSettled(_, _, _) => BidSettledMoves(w, e, a);
    case Withdraw(_, _, _, _, _) => WithdrawMoves(w, e, a);
    case WithdrawalSettled(_, _) => WithdrawalSettledMoves(w, e, a);
    case RefundLoser => RefundMoves(w, a);
    case PayWinner(_, _) => PayMoves(w, e, a);
    case CancelAuction(_, _, _, _) => CancelMoves(w, e, a);
    case StopDue(_) => StopMoves(w, e, a);
    case ForceClose(_, _, _) => StopMoves(w, e, a);
    case MassCancel(_, _) => StopMoves(w, e, a);
    case PickUpAuction(_, _) => PickUpMoves(w, e, a);
    case Create(_, _, _, _, _, _) =>
    case CrashAll =>
  }

  lemma RefundIsWellFormed(w: World)
    requires WellFormed(w)
    ensures w.closer.Busy? && w.closer.work.losers != [] ==> WellFormed(RefundWorld(w))
  {
  }

  lemma PayIsWellFormed(w: World, tokenBlock: Option<nat>, paid: bool)
    requires WellFormed(w)
    ensures w.closer.Busy? ==> WellFormed(PayWorld(w, tokenBlock, paid))
  {
  }

  lemma PickUpIsWellFormed(w: World, a: nat, list: seq<Aggregate>)
    requires WellFormed(w) && a < |w.auctions|
    ensures WellFormed(PickUpWorld(w, a, list))
  {
  }

  lemma BidsAreWellFormed(w: World, e: Event)
    requires WellFormed(w) && (e.PlaceBid? || e.Withdraw?)
    ensures WellFormed(Step(w, e)) && |Step(w, e).auctions| == |w.auctions|
  {
  }

  lemma SettlingIsWellFormed(w: World, e: Event)
    requires WellFormed(w) && (e.BidSettled? || e.WithdrawalSettled?)
    ensures WellFormed(Step(w, e)) && |Step(w, e).auctions| == |w.auctions|
  {
  }

  lemma StatusIsWellFormed(w: World, e: Event)
    requires WellFormed(w) && (e.CancelAuction? || e.StopDue? || e.ForceClose? || e.MassCancel?)
    ensures WellFormed(Step(w, e)) && |Step(w, e).auctions| == |w.auctions|
  {
  }

  lemma CreateIsWellFormed(w: World, e: Event)
    requires WellFormed(w) && e.Create?
    ensures WellFormed(Step(w, e)) && |w.auctions| <= |Step(w, e).auctions| <= |w.auctions| + 1
  {
  }

  lemma StepIsWellFormed(w: World, e: Event)
    requires WellFormed(w)
    ensures WellFormed(Step(w, e))
    ensures |w.auctions| <= |Step(w, e).auctions| <= |w.auctions| + 1
  {
    match e
    case PlaceBid(_, _, _, _) => BidsAreWellFormed(w, e);
    case BidSettled(_, _, _) => SettlingIsWellFormed(w, e);
    case Withdraw(_, _, _, _, _) => BidsAreWellFormed(w, e);
    case WithdrawalSettled(_, _) => SettlingIsWellFormed(w, e);
    case Create(_, _, _, _, _, _) => CreateIsWellFormed(w, e);
    case RefundLoser => RefundIsWellFormed(w);
    case PayWinner(tokenBlock, paid) => PayIsWellFormed(w, tokenBlock, paid);
    case PickUpAuction(a, list) => if Ready(w, a) { PickUpIsWellFormed(w, a, list); }
    case CancelAuction(_, _, _, _) => StatusIsWellFormed(w, e);
    case StopDue(_) => StatusIsWellFormed(w, e);
    case ForceClose(_, _, _) => StatusIsWellFormed(w, e);
    case MassCancel(_, _) => StatusIsWellFormed(w, e);
    case CrashAll =>
  }

  /** A new auction starts fresh. */
  lemma CreatedIsFresh(w: World, e: Event)
    requires WellFormed(w) && |Step(w, e).auctions| > |w.auctions|
    requires w.closer.Busy? ==> w.closer.auction < |w.auctions|
    ensures WellFormed(Step(w, e)) && Fresh(LotOf(Step(w, e), |w.auctions|))
  {
    StepIsWellFormed(w, e);
    OfAuctionNone(w.bids, |w.auctions|);
    PaymentsOfNone(w.payments, |w.auctions|);
  }

  // ---------------------------------------------------------------- runs of the database

  predicate Deployed(w: World) {
    w.asks == [] && w.auctions == [] && w.bids == [] && w.trades == [] && w.payments == [] && w.closer == Idle
  }

  ghost function RunEvents(w: World, events: seq<Event>): (w': World)
    requires WellFormed(w)
    ensures WellFormed(w')
  {
    if events == [] then w
    else
      var w1 := RunEvents(w, events[..|events| - 1]);
      StepIsWellFormed(w1, events[|events| - 1]);
      Step(w1, events[|events| - 1])
  }

  lemma NewAuctionIsLast(w: World, e: Event, a: nat)
    requires WellFormed(w) && |w.auctions| <= a < |Step(w, e).auctions|
    ensures WellFormed(Step(w, e)) && Fresh(LotOf(Step(w, e), a))
  {
    StepIsWellFormed(w, e);
    CreatedIsFresh(w, e);
  }

  /** The auction at its creation, and the moves it has made since. */
  ghost function History(w: World, events: seq<Event>, a: nat): (h: (Lot, seq<Move>))
    requires Deployed(w)
    requires a < |RunEvents(w, events).auctions|
    ensures Fresh(h.0)
  {
    var n := |events| - 1;
    var before, e := RunEvents(w, events[..n]), events[n];
    if a < |before.auctions| then
      var h := History(w, events[..n], a);
      if MoveOf(before, e, a).None? then h else (h.0, h.1 + [MoveOf(before, e, a).value])
    else
      NewAuctionIsLast(before, e, a);
      (LotOf(RunEvents(w, events), a), [])
  }

  /** The tables show each auction exactly as its own machine leaves it after its own moves. */
  lemma {:induction false} AuctionsAreMachines(w: World, events: seq<Event>, a: nat)
    requires Deployed(w) && a < |RunEvents(w, events).auctions|
    ensures var h := History(w, events, a);
            Fresh(h.0) && Run(h.0, h.1) == LotOf(RunEvents(w, events), a)
  {
    var n := |events| - 1;
    var before, e := RunEvents(w, events[..n]), events[n];
    if a < |before.auctions| {
      AuctionsAreMachines(w, events[..n], a);
      var h := History(w, events[..n], a);
      EventIsMove(before, e, a);
      match MoveOf(before, e, a) {
        case None =>
        case Some(m) => assert (h.1 + [m])[..|h.1|] == h.1;
      }
    }
  }
}
