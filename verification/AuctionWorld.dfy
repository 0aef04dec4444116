/** The whole auction database: many offers, many auctions, one table of bids, and the one background worker
    that closes auctions. Each service transaction is an event. Every auction in it evolves as a machine of
    its own (AuctionMachine), which is what carries the per-auction theorems to the tables. */
module AuctionWorld {
  import opened Wrappers
  import opened Tables
  import opened BidLedger
  import opened Commission
  import opened AuctionMachine

  /** auctions */
  datatype AuctionRow = AuctionRow(ask: nat, status: AuctionStatus, startPrice: int, priceStep: int, stopAt: int)

  /** The closing worker: its local variables do not survive a crash. */
  datatype Closer =
    | Idle
    | Busy(auction: nat, work: Closing, waiting: Option<nat>)

  datatype World = World(
    asks: seq<Ask>,
    auctions: seq<AuctionRow>,
    bids: seq<Bid>,
    trades: seq<Trade>,
    payments: seq<Payment>,
    closer: Closer,
    account: Address,  // the auction account, which holds the tokens on auction
    commission: nat)

  datatype AuctionError =
    | NoOffer
    | NoAuction
    | WrongStatus(status: AuctionStatus)
    | DuplicateOffer
    | BelowPriceStep
    | NotEnough
    | NothingToWithdraw
    | PendingLeader
    | CurrentLeader
    | NotOwner
    | HasBids

  datatype Event =
    | Create(collection: nat, token: nat, seller: Address, startPrice: int, priceStep: int, stopAt: int)
    | PlaceBid(collection: nat, token: nat, bidder: Address, amount: nat)
    | BidSettled(row: nat, landed: bool, winner: Option<Address>)
    | Withdraw(collection: nat, token: nat, bidder: Address, pendingTop: Option<Address>, actualTop: Option<Address>)
    | WithdrawalSettled(row: nat, landed: bool)
    | CancelAuction(collection: nat, token: nat, owner: Address, now: int)
    | StopDue(now: int)
    | ForceClose(collection: nat, token: nat, now: int)
    | MassCancel(admin: Address, now: int)
    | PickUpAuction(auction: nat, list: seq<Aggregate>)
    | RefundLoser
    | PayWinner(tokenBlock: Option<nat>, paid: bool)
    | CrashAll

  // ---------------------------------------------------------------- lookups

  /** The active offer for a token. */
  function FindAsk(asks: seq<Ask>, collection: nat, token: nat): (r: Option<nat>)
    ensures r.Some? ==>
      r.value < |asks| && asks[r.value].collection == collection && asks[r.value].token == token
      && asks[r.value].status == AskActive
    ensures r.None? ==>
      forall i :: 0 <= i < |asks| && asks[i].collection == collection && asks[i].token == token
        ==> asks[i].status != AskActive
  {
    if asks == [] then None
    else
      var n := |asks| - 1;
      if asks[n].collection == collection && asks[n].token == token && asks[n].status == AskActive then Some(n)
      else FindAsk(asks[..n], collection, token)
  }

  /** The auction that belongs to an offer. */
  function AuctionOf(auctions: seq<AuctionRow>, ask: nat): (r: Option<nat>)
    ensures r.Some? ==> r.value < |auctions| && auctions[r.value].ask == ask
    ensures r.None? ==> forall a :: 0 <= a < |auctions| ==> auctions[a].ask != ask
  {
    if auctions == [] then None
    else
      var n := |auctions| - 1;
      if auctions[n].ask == ask then Some(n) else AuctionOf(auctions[..n], ask)
  }

  /** getAuctionContract: the auction for a token, provided its status is one of those allowed. */
  function Locate(w: World, collection: nat, token: nat, allowed: set<AuctionStatus>): (r: Result<nat, AuctionError>)
    ensures r.Success? ==>
      && r.value < |w.auctions| && w.auctions[r.value].status in allowed
      && w.auctions[r.value].ask < |w.asks|
      && w.asks[w.auctions[r.value].ask].collection == collection
      && w.asks[w.auctions[r.value].ask].token == token
      && w.asks[w.auctions[r.value].ask].status == AskActive
  {
    match FindAsk(w.asks, collection, token)
    case None => Failure(NoOffer)
    case Some(ask) =>
      match AuctionOf(w.auctions, ask)
      case None => Failure(NoAuction)
      case Some(a) =>
        if w.auctions[a].status in allowed then Success(a) else Failure(WrongStatus(w.auctions[a].status))
  }

  // ---------------------------------------------------------------- one auction inside the tables

  /** WHERE auction_id = a */
  function OfAuction(bids: seq<Bid>, a: nat): seq<Bid> {
    if bids == [] then []
    else
      var r := bids[|bids| - 1];
      OfAuction(bids[..|bids| - 1], a) + (if r.auction == a then [r] else [])
  }

  function PaymentsOf(payments: seq<Payment>, a: nat): seq<Payment> {
    if payments == [] then []
    else
      var p := payments[|payments| - 1];
      PaymentsOf(payments[..|payments| - 1], a) + (if p.auction == a then [p] else [])
  }

  predicate WellFormed(w: World) {
    && (forall a :: 0 <= a < |w.auctions| ==> w.auctions[a].ask < |w.asks|)
    && (forall a, b :: 0 <= a < b < |w.auctions| ==> w.auctions[a].ask != w.auctions[b].ask)
    && (forall i :: 0 <= i < |w.bids| ==> w.bids[i].auction < |w.auctions|)
    && (forall i :: 0 <= i < |w.payments| ==> w.payments[i].auction < |w.auctions|)
    && (w.closer.Busy? ==>
          w.closer.auction < |w.auctions| && (w.closer.waiting.Some? ==> w.closer.waiting.value < |w.bids|))
  }

  function LotOf(w: World, a: nat): Lot
    requires a < |w.auctions| && w.auctions[a].ask < |w.asks|
  {
    var row := w.auctions[a];
    Lot(a, row.status, row.startPrice, row.priceStep, w.asks[row.ask].price,
        OfAuction(w.bids, a),
        if w.closer.Busy? && w.closer.auction == a then Some(w.closer.work) else None,
        PaymentsOf(w.payments, a))
  }

  /** The position of a bid among the rows of its auction. */
  function Rank(bids: seq<Bid>, i: nat): nat
    requires i < |bids|
  {
    |OfAuction(bids[..i], bids[i].auction)|
  }

  // ---------------------------------------------------------------- updates of the tables

  function SetPrice(w: World, a: nat, price: int): World
    requires a < |w.auctions| && w.auctions[a].ask < |w.asks|
  {
    var ask := w.auctions[a].ask;
    w.(asks := w.asks[ask := w.asks[ask].(price := price)])
  }

  function SetAskStatus(w: World, a: nat, st: AskStatus): World
    requires a < |w.auctions| && w.auctions[a].ask < |w.asks|
  {
    var ask := w.auctions[a].ask;
    w.(asks := w.asks[ask := w.asks[ask].(status := st)])
  }

  function SetStatus(w: World, a: nat, st: AuctionStatus): World
    requires a < |w.auctions|
  {
    w.(auctions := w.auctions[a := w.auctions[a].(status := st)])
  }

  function IsDue(row: AuctionRow, now: int): bool {
    row.status == Active && row.stopAt <= now
  }

  function StopRows(auctions: seq<AuctionRow>, now: int): (r: seq<AuctionRow>)
    ensures |r| == |auctions|
    ensures forall a :: 0 <= a < |r| ==>
      r[a] == if IsDue(auctions[a], now) then auctions[a].(status := Stopped, stopAt := now) else auctions[a]
  {
    seq(|auctions|, a requires 0 <= a < |auctions| =>
      if IsDue(auctions[a], now) then auctions[a].(status := Stopped, stopAt := now) else auctions[a])
  }

  /** An active auction whose seller is not the administrator. */
  predicate Foreign(w: World, a: nat, admin: Address)
    requires a < |w.auctions| && w.auctions[a].ask < |w.asks|
  {
    w.auctions[a].status == Active && w.asks[w.auctions[a].ask].seller != admin
  }

  function DeadlineRows(w: World, admin: Address, now: int): (r: seq<AuctionRow>)
    requires WellFormed(w)
    ensures |r| == |w.auctions|
    ensures forall a :: 0 <= a < |r| ==>
      r[a] == if Foreign(w, a, admin) then w.auctions[a].(stopAt := now) else w.auctions[a]
  {
    seq(|w.auctions|, a requires 0 <= a < |w.auctions| =>
      if Foreign(w, a, admin) then w.auctions[a].(stopAt := now) else w.auctions[a])
  }

  /** How many of the first n auctions are active and belong to another seller. */
  function ForeignCount(w: World, admin: Address, n: nat): nat
    requires WellFormed(w) && n <= |w.auctions|
  {
    if n == 0 then 0 else ForeignCount(w, admin, n - 1) + (if Foreign(w, n - 1, admin) then 1 else 0)
  }

  // ---------------------------------------------------------------- the transactions

  function CreateOutcome(w: World, e: Event): Result<World, AuctionError>
    requires e.Create?
  {
    if HasLive(w.asks, e.collection, e.token) then Failure(DuplicateOffer)
    else
      Success(w.(
        asks := w.asks + [Ask(AskActive, e.collection, e.token, e.startPrice, e.seller, w.account, None)],
        auctions := w.auctions + [AuctionRow(|w.asks|, Active, e.startPrice, e.priceStep, e.stopAt)]))
  }

  /** Success carries the auction bid on. */
  function PlaceOutcome(w: World, collection: nat, token: nat, bidder: Address, amount: nat): (r: Result<nat, AuctionError>)
    requires WellFormed(w)
    ensures r.Success? ==> r.value < |w.auctions| && w.auctions[r.value].status == Active
  {
    match Locate(w, collection, token, {Active})
    case Failure(e) => Failure(e)
    case Success(a) =>
      var l := LotOf(w, a);
      if l.price >= l.priceStep && amount < l.priceStep then Failure(BelowPriceStep)
      else if !Accepts(l, bidder, amount) then Failure(NotEnough)
      else Success(a)
  }

  function PlaceWorld(w: World, a: nat, bidder: Address, amount: nat): World
    requires WellFormed(w) && a < |w.auctions|
  {
    var row := BidRow(a, OfAuction(w.bids, a), bidder, amount);
    SetPrice(w, a, row.balance).(bids := w.bids + [row])
  }

  function WithdrawOutcome(w: World, collection: nat, token: nat, bidder: Address,
                           pendingTop: Option<Address>, actualTop: Option<Address>): (r: Result<nat, AuctionError>)
    requires WellFormed(w)
    ensures r.Success? ==> r.value < |w.auctions| && w.auctions[r.value].status == Active
  {
    match Locate(w, collection, token, {Active})
    case Failure(e) => Failure(e)
    case Success(a) =>
      if Total(OfAuction(w.bids, a), bidder, Actual) <= 0 then Failure(NothingToWithdraw)
      else if pendingTop == Some(bidder) then Failure(PendingLeader)
      else if actualTop == Some(bidder) then Failure(CurrentLeader)
      else Success(a)
  }

  function WithdrawWorld(w: World, a: nat, bidder: Address): World
    requires WellFormed(w) && a < |w.auctions|
  {
    w.(bids := w.bids + [WithdrawalRow(a, OfAuction(w.bids, a), bidder)])
  }

  function CancelOutcome(w: World, collection: nat, token: nat, owner: Address): (r: Result<nat, AuctionError>)
    requires WellFormed(w)
    ensures r.Success? ==> r.value < |w.auctions| && w.auctions[r.value].status == Active
  {
    match Locate(w, collection, token, {Active})
    case Failure(e) => Failure(e)
    case Success(a) =>
      if w.asks[w.auctions[a].ask].seller != owner then Failure(NotOwner)
      else if HasAny(OfAuction(w.bids, a), Pending) then Failure(HasBids)
      else Success(a)
  }

  function CancelWorld(w: World, a: nat, now: int): World
    requires WellFormed(w) && a < |w.auctions|
  {
    SetAskStatus(w, a, AskCancelled).(auctions := w.auctions[a := w.auctions[a].(status := Ended, stopAt := now)])
  }

  predicate BidInFlight(w: World, i: nat) {
    i < |w.bids| && w.bids[i].status == Minting && w.bids[i].amount >= 0
  }

  predicate WithdrawalInFlight(w: World, i: nat) {
    i < |w.bids| && w.bids[i].status == Minting && w.bids[i].amount < 0
  }

  /** What handleBidTxFail leaves: the row fails, the price follows the new pending winner. */
  function BidFailedWorld(w: World, i: nat, winner: Option<Address>): World
    requires WellFormed(w) && i < |w.bids|
  {
    var a := w.bids[i].auction;
    var bids := Mark(w.bids, i, Error);
    SetPrice(w, a, RefreshedPrice(OfAuction(bids, a), w.auctions[a].startPrice, winner)).(bids := bids)
  }

  /** Stopped, and no bid of the auction is in flight. */
  predicate Ready(w: World, a: nat) {
    a < |w.auctions| && w.auctions[a].status == Stopped && NoMinting(OfAuction(w.bids, a))
  }

  function PickUpWorld(w: World, a: nat, list: seq<Aggregate>): World
    requires WellFormed(w) && a < |w.auctions|
  {
    var w1 := if |list| <= 1 then SetStatus(SetAskStatus(w, a, AskCancelled), a, Ended) else SetStatus(w, a, Withdrawing);
    w1.(closer := if list == [] then Idle else Busy(a, Closing(list[0], list[1..]), None))
  }

  /** The closer goes on only after the transfer it waits for has settled. */
  predicate CanProceed(w: World) {
    && w.closer.Busy?
    && (w.closer.waiting.Some? ==>
          w.closer.waiting.value < |w.bids| && w.bids[w.closer.waiting.value].status != Minting)
  }

  function RefundWorld(w: World): World
    requires w.closer.Busy? && w.closer.work.losers != []
  {
    var a, c := w.closer.auction, w.closer.work;
    var loser := c.losers[0];
    var w' := w.(closer := Busy(a, c.(losers := c.losers[1..]), None));
    if loser.total > 0 then
      w'.(bids := w.bids + [RefundRow(a, loser)],
          payments := w.payments + [Refund(a, loser.bidder, loser.total)],
          closer := w'.closer.(waiting := Some(|w.bids|)))
    else w'
  }

  function AuctionTrade(ask: Ask, winner: Address, commission: nat): Trade {
    var price := PriceWithoutCommission(ask.price, commission);
    Trade(ask.collection, ask.token, price, ask.seller, winner, ask.price, ask.price - price, AuctionSale)
  }

  /** The end of a close: the token goes to the winner, the seller is paid, the trade is recorded. Without a
      block number for the token transfer the trade record is never written. */
  function PayWorld(w: World, tokenBlock: Option<nat>, paid: bool): World
    requires WellFormed(w) && w.closer.Busy?
  {
    var a, winner := w.closer.auction, w.closer.work.winner;
    var i := w.auctions[a].ask;
    var ask := w.asks[i].(blockBuy := if tokenBlock.Some? then tokenBlock else w.asks[i].blockBuy);
    var sold := ask.(status := AskBought, addressTo := winner.bidder);
    var w1 := w.(
      asks := w.asks[i := if paid then sold else ask],
      payments := w.payments + [Payout(a, ask.seller, winner.total - MarketFee(winner.total, w.commission))],
      trades := if paid && ask.blockBuy.Some? then w.trades + [AuctionTrade(ask, winner.bidder, w.commission)] else w.trades,
      closer := Idle);
    if paid then SetStatus(w1, a, Ended) else w1
  }

  /** One event; a rejected request changes nothing. */
  ghost function Step(w: World, e: Event): World
    requires WellFormed(w)
  {
    match e
    case Create(_, _, _, startPrice, priceStep, _) =>
      if startPrice >= 1 && priceStep >= 1 && CreateOutcome(w, e).Success? then CreateOutcome(w, e).value else w
    case PlaceBid(collection, token, bidder, amount) =>
      (match PlaceOutcome(w, collection, token, bidder, amount)
       case Failure(_) => w
       case Success(a) => PlaceWorld(w, a, bidder, amount))
    case BidSettled(i, landed, winner) =>
      if !BidInFlight(w, i) then w
      else if landed then w.(bids := Mark(w.bids, i, Finished))
      else if IsFirst(OfAuction(Mark(w.bids, i, Error), w.bids[i].auction), Pending, winner) then BidFailedWorld(w, i, winner)
      else w
    case Withdraw(collection, token, bidder, pendingTop, actualTop) =>
      (match WithdrawOutcome(w, collection, token, bidder, pendingTop, actualTop)
       case Failure(_) => w
       case Success(a) =>
         var rows := OfAuction(w.bids, a);
         if IsFirst(rows, Pending, pendingTop) && IsFirst(rows, Actual, actualTop) then WithdrawWorld(w, a, bidder) else w)
    case WithdrawalSettled(i, landed) =>
      if WithdrawalInFlight(w, i) then w.(bids := Mark(w.bids, i, if landed then Finished else Error)) else w
    case CancelAuction(collection, token, owner, now) =>
      (match CancelOutcome(w, collection, token, owner)
       case Failure(_) => w
       case Success(a) => CancelWorld(w, a, now))
    case StopDue(now) => w.(auctions := StopRows(w.auctions, now))
    case ForceClose(collection, token, now) =>
      (match Locate(w, collection, token, {Created, Active})
       case Failure(_) => w
       case Success(a) => w.(auctions := w.auctions[a := w.auctions[a].(status := Stopped, stopAt := now)]))
    case MassCancel(admin, now) => w.(auctions := DeadlineRows(w, admin, now))
    case PickUpAuction(a, list) =>
      if Ready(w, a) && w.closer.Idle? && IsListing(list, OfAuction(w.bids, a), Actual) then PickUpWorld(w, a, list) else w
    case RefundLoser => if CanProceed(w) && w.closer.work.losers != [] then RefundWorld(w) else w
    case PayWinner(tokenBlock, paid) =>
      if CanProceed(w) && w.closer.work.losers == [] then PayWorld(w, tokenBlock, paid) else w
    case CrashAll => w.(closer := Idle)
  }
}
