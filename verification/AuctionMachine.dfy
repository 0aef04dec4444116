/** One auction as a state machine. Every database transaction of the bid, withdrawal and closing services
    is one move; a query answer that the database may choose freely (who comes first among equal totals)
    is part of the move, and so is the outcome of a chain transfer. */
module AuctionMachine {
  import opened Wrappers
  import opened BidLedger
  import opened Commission

  datatype AuctionStatus = Created | Active | Stopped | Withdrawing | Ended | Failed

  /** A transfer that the market submits while it closes an auction. */
  datatype Payment =
    | Refund(auction: nat, bidder: Address, amount: int)
    | Payout(auction: nat, seller: Address, amount: int)

  /** What a running close keeps in memory: the winner and the losers it has not handled yet. */
  datatype Closing = Closing(winner: Aggregate, losers: seq<Aggregate>)

  datatype Lot = Lot(
    id: nat,
    status: AuctionStatus,
    startPrice: int,
    priceStep: int,
    price: int,             // the cached contract_ask.price
    rows: seq<Bid>,
    closing: Option<Closing>,
    payments: seq<Payment>) // everything the market has submitted so far

  datatype Move =
    | Place(bidder: Address, amount: nat)
    | BidLanded(row: nat)
    | BidFailed(row: nat, winner: Option<Address>)
    | TakeBack(bidder: Address, pendingTop: Option<Address>, actualTop: Option<Address>)
    | TransferLanded(row: nat)
    | TransferFailed(row: nat)
    | Stop
    | Retire
    | PickUp(list: seq<Aggregate>)
    | RefundNext
    | Finish(seller: Address, commission: nat, paid: bool)
    | Crash

  /** Not picked up for closing yet. */
  predicate Unsettled(st: AuctionStatus) {
    st == Created || st == Active || st == Stopped
  }

  // ---------------------------------------------------------------- the quote

  /** The least amount a bidder with pending sum pend may add. */
  function MinimumBid(price: int, startPrice: int, priceStep: int, pend: int, anyPending: bool): int {
    var gap := price - pend;
    if gap > 0 && !(price == startPrice && !anyPending) then gap + priceStep else gap
  }

  predicate Accepts(l: Lot, b: Address, amount: int) {
    && (l.price >= l.priceStep ==> amount >= l.priceStep)
    && amount >= MinimumBid(l.price, l.startPrice, l.priceStep, Total(l.rows, b, Pending), HasAny(l.rows, Pending))
  }

  // ---------------------------------------------------------------- the moves

  predicate InFlightAt(rows: seq<Bid>, j: nat) {
    j < |rows| && rows[j].status == Minting
  }

  predicate NoMinting(rows: seq<Bid>) {
    forall i :: 0 <= i < |rows| ==> rows[i].status != Minting
  }

  ghost predicate Enabled(l: Lot, m: Move) {
    match m
    case Place(b, amount) => l.status == Active && Accepts(l, b, amount)
    case BidLanded(j) => InFlightAt(l.rows, j) && l.rows[j].amount >= 0
    case BidFailed(j, winner) =>
      InFlightAt(l.rows, j) && l.rows[j].amount >= 0 && IsFirst(Mark(l.rows, j, Error), Pending, winner)
    case TakeBack(b, pendingTop, actualTop) =>
      && l.status == Active
      && Total(l.rows, b, Actual) > 0
      && IsFirst(l.rows, Pending, pendingTop) && pendingTop != Some(b)
      && IsFirst(l.rows, Actual, actualTop) && actualTop != Some(b)
    case TransferLanded(j) => InFlightAt(l.rows, j) && l.rows[j].amount < 0
    case TransferFailed(j) => InFlightAt(l.rows, j) && l.rows[j].amount < 0
    case Stop => l.status == Created || l.status == Active
    case Retire => l.status == Active && !HasAny(l.rows, Pending)
    case PickUp(list) =>
      l.status == Stopped && NoMinting(l.rows) && l.closing.None? && IsListing(list, l.rows, Actual)
    case RefundNext => l.closing.Some? && l.closing.value.losers != []
    case Finish(_, _, _) => l.closing.Some? && l.closing.value.losers == []
    case Crash => true
  }

  /** The price that a failed bid leaves behind. */
  function RefreshedPrice(rows: seq<Bid>, startPrice: int, winner: Option<Address>): int {
    match winner
    case None => startPrice
    case Some(w) => Total(rows, w, Pending)
  }

  /** The row of a new bid: its balance is the bidder's next pending sum. */
  function BidRow(id: nat, rows: seq<Bid>, b: Address, amount: nat): Bid {
    Bid(id, b, amount, Total(rows, b, Pending) + amount, Minting)
  }

  /** The row with which the market returns a loser's total. */
  function RefundRow(id: nat, loser: Aggregate): Bid {
    Bid(id, loser.bidder, -loser.total, 0, Minting)
  }

  /** The row that takes back everything final a bidder has in the auction. */
  function WithdrawalRow(id: nat, rows: seq<Bid>, b: Address): Bid {
    var actual := Total(rows, b, Actual);
    Bid(id, b, -actual, Total(rows, b, Pending) - actual, Minting)
  }

  function Apply(l: Lot, m: Move): Lot
    requires match m
             case BidLanded(j) => j < |l.rows|
             case BidFailed(j, _) => j < |l.rows|
             case TransferLanded(j) => j < |l.rows|
             case TransferFailed(j) => j < |l.rows|
             case RefundNext => l.closing.Some? && l.closing.value.losers != []
             case Finish(_, _, _) => l.closing.Some?
             case _ => true
  {
    match m
    case Place(b, amount) =>
      var row := BidRow(l.id, l.rows, b, amount);
      l.(price := row.balance, rows := l.rows + [row])
    case BidLanded(j) => l.(rows := Mark(l.rows, j, Finished))
    case BidFailed(j, winner) =>
      var rows := Mark(l.rows, j, Error);
      l.(rows := rows, price := RefreshedPrice(rows, l.startPrice, winner))
    case TakeBack(b, _, _) =>
      l.(rows := l.rows + [WithdrawalRow(l.id, l.rows, b)])
    case TransferLanded(j) => l.(rows := Mark(l.rows, j, Finished))
    case TransferFailed(j) => l.(rows := Mark(l.rows, j, Error))
    case Stop => l.(status := Stopped)
    case Retire => l.(status := Ended)
    case PickUp(list) =>
      l.(status := if |list| <= 1 then Ended else Withdrawing,
         closing := if list == [] then None else Some(Closing(list[0], list[1..])))
    case RefundNext =>
      var c := l.closing.value;
      var loser := c.losers[0];
      var l' := l.(closing := Some(c.(losers := c.losers[1..])));
      if loser.total > 0 then
        l'.(rows := l.rows + [RefundRow(l.id, loser)],
            payments := l.payments + [Refund(l.id, loser.bidder, loser.total)])
      else l'
    case Finish(seller, commission, paid) =>
      var final := l.closing.value.winner.total;
      l.(closing := None,
         status := if paid then Ended else l.status,
         payments := l.payments + [Payout(l.id, seller, final - MarketFee(final, commission))])
    case Crash => l.(closing := None)
  }

  /** A move that is not enabled is a rejected request: it changes nothing. */
  ghost function Next(l: Lot, m: Move): Lot {
    if Enabled(l, m) then Apply(l, m) else l
  }

  ghost function Run(l: Lot, moves: seq<Move>): Lot {
    if moves == [] then l else Next(Run(l, moves[..|moves| - 1]), moves[|moves| - 1])
  }

  predicate Fresh(l: Lot) {
    l.startPrice >= 1 && l.priceStep >= 1 && l.status == Active && l.price == l.startPrice && l.rows == [] && l.closing.None? && l.payments == []
  }

  // ---------------------------------------------------------------- shape: facts the other invariants rest on

  predicate MintingFree(rows: seq<Bid>, b: Address) {
    forall i :: 0 <= i < |rows| && rows[i].bidder == b ==> rows[i].status != Minting
  }

  /** A withdrawal in flight belongs to a bidder who also has a final row. */
  ghost predicate Companions(rows: seq<Bid>) {
    forall i :: 0 <= i < |rows| && rows[i].amount < 0 && rows[i].status == Minting
      ==> Present(rows, rows[i].bidder, Actual)
  }

  /** What the close read still describes the rows of every bidder it has yet to handle. */
  predicate Current(rows: seq<Bid>, g: Aggregate) {
    g.total == Total(rows, g.bidder, Actual) && MintingFree(rows, g.bidder)
  }

  ghost predicate ClosingInv(l: Lot) {
    l.closing.Some? ==>
      var c := l.closing.value;
      && !Unsettled(l.status)
      && l.rows != []
      && Distinct(c.losers)
      && !Listed(c.losers, c.winner.bidder)
      && Current(l.rows, c.winner)
      && Present(l.rows, c.winner.bidder, Actual)
      && forall k :: 0 <= k < |c.losers| ==> Current(l.rows, c.losers[k]) && Present(l.rows, c.losers[k].bidder, Actual)
  }

  ghost predicate Shape(l: Lot) {
    && l.startPrice >= 1 && l.priceStep >= 1
    && Companions(l.rows)
    && (l.rows != [] ==> l.rows[0].amount >= 0)
    && (!Unsettled(l.status) ==> forall i :: 0 <= i < |l.rows| && l.rows[i].status == Minting ==> l.rows[i].amount < 0)
    && ClosingInv(l)
  }

  lemma PositiveTotalIsPresent(rows: seq<Bid>, b: Address, s: Scope)
    requires Total(rows, b, s) != 0
    ensures Present(rows, b, s)
  {
    if !Present(rows, b, s) {
      AbsentIsZero(rows, b, s);
    }
  }

  lemma CompanionsSnoc(rows: seq<Bid>, r: Bid)
    requires Companions(rows)
    requires r.amount < 0 ==> Present(rows, r.bidder, Actual)
    ensures Companions(rows + [r])
  {
    var rows' := rows + [r];
    forall i | 0 <= i < |rows'| && rows'[i].amount < 0 && rows'[i].status == Minting
      ensures Present(rows', rows'[i].bidder, Actual)
    {
      PresentSnoc(rows, r, rows'[i].bidder, Actual);
      assert i < |rows| ==> rows'[i] == rows[i];
    }
  }

  lemma PresentMark(rows: seq<Bid>, j: nat, st: BidStatus, b: Address)
    requires InFlightAt(rows, j) && st != Minting
    ensures Present(rows, b, Actual) ==> Present(Mark(rows, j, st), b, Actual)
  {
    var rows' := Mark(rows, j, st);
    if Present(rows, b, Actual) {
      var i :| 0 <= i < |rows| && rows[i].bidder == b && Counts(Actual, rows[i]);
      assert rows'[i] == rows[i];
    }
  }

  lemma CompanionsMark(rows: seq<Bid>, j: nat, st: BidStatus)
    requires Companions(rows) && InFlightAt(rows, j) && st != Minting
    ensures Companions(Mark(rows, j, st))
  {
    var rows' := Mark(rows, j, st);
    forall i | 0 <= i < |rows'| && rows'[i].amount < 0 && rows'[i].status == Minting
      ensures Present(rows', rows'[i].bidder, Actual)
    {
      assert i != j && rows'[i] == rows[i];
      PresentMark(rows, j, st, rows[i].bidder);
    }
  }

  /** A settling row does not belong to anyone the close still has to handle. */
  lemma CurrentMark(rows: seq<Bid>, j: nat, st: BidStatus, g: Aggregate)
    requires InFlightAt(rows, j) && st != Minting && Current(rows, g)
    ensures Current(Mark(rows, j, st), g)
  {
    assert rows[j].bidder != g.bidder;
    TotalMark(rows, j, st, g.bidder, Actual);
  }

  lemma CurrentSnoc(rows: seq<Bid>, r: Bid, g: Aggregate)
    requires Current(rows, g) && r.bidder != g.bidder
    ensures Current(rows + [r], g)
  {
    TotalSnoc(rows, r, g.bidder, Actual);
  }

  lemma ShapeMark(l: Lot, j: nat, st: BidStatus, price: int)
    requires Shape(l) && InFlightAt(l.rows, j) && st != Minting
    ensures Shape(l.(rows := Mark(l.rows, j, st), price := price))
  {
    var rows' := Mark(l.rows, j, st);
    CompanionsMark(l.rows, j, st);
    assert rows'[0].amount == l.rows[0].amount;
    forall i | 0 <= i < |rows'| && rows'[i].status == Minting ensures rows'[i] == l.rows[i] {}
    if l.closing.Some? {
      var c := l.closing.value;
      CurrentMark(l.rows, j, st, c.winner);
      PresentMark(l.rows, j, st, c.winner.bidder);
      forall k | 0 <= k < |c.losers|
        ensures Current(rows', c.losers[k]) && Present(rows', c.losers[k].bidder, Actual)
      {
        CurrentMark(l.rows, j, st, c.losers[k]);
        PresentMark(l.rows, j, st, c.losers[k].bidder);
      }
    }
  }

  lemma ShapePickUp(l: Lot, list: seq<Aggregate>)
    requires Shape(l) && Enabled(l, PickUp(list))
    ensures Shape(Apply(l, PickUp(list)))
  {
    if list != [] {
      forall k | 0 <= k < |list| ensures Current(l.rows, list[k]) && Present(l.rows, list[k].bidder, Actual) {
        assert Listed(list, list[k].bidder);
      }
      var losers := list[1..];
      assert forall k :: 0 <= k < |losers| ==> losers[k] == list[k + 1];
    }
  }

  lemma ShapeRefund(l: Lot)
    requires Shape(l) && Enabled(l, RefundNext)
    ensures Shape(Apply(l, RefundNext))
  {
    var c := l.closing.value;
    var loser, rest := c.losers[0], c.losers[1..];
    assert forall k :: 0 <= k < |rest| ==> rest[k] == c.losers[k + 1];
    assert !Listed(rest, c.winner.bidder);
    if loser.total > 0 {
      var r := RefundRow(l.id, loser);
      CompanionsSnoc(l.rows, r);
      assert Listed(c.losers, loser.bidder);
      CurrentSnoc(l.rows, r, c.winner);
      PresentSnoc(l.rows, r, c.winner.bidder, Actual);
      forall k | 0 <= k < |rest|
        ensures Current(l.rows + [r], rest[k]) && Present(l.rows + [r], rest[k].bidder, Actual)
      {
        CurrentSnoc(l.rows, r, rest[k]);
        PresentSnoc(l.rows, r, rest[k].bidder, Actual);
      }
    }
  }

  lemma ShapeKept(l: Lot, m: Move)
    requires Shape(l)
    ensures Shape(Next(l, m))
  {
    if Enabled(l, m) {
      match m
      case Place(b, amount) =>
        CompanionsSnoc(l.rows, Apply(l, m).rows[|l.rows|]);
      case TakeBack(b, _, _) =>
        PositiveTotalIsPresent(l.rows, b, Actual);
        CompanionsSnoc(l.rows, Apply(l, m).rows[|l.rows|]);
      case BidLanded(j) => ShapeMark(l, j, Finished, l.price);
      case BidFailed(j, _) => ShapeMark(l, j, Error, Apply(l, m).price);
      case TransferLanded(j) => ShapeMark(l, j, Finished, l.price);
      case TransferFailed(j) => ShapeMark(l, j, Error, l.price);
      case Retire =>
        forall i | 0 <= i < |l.rows| ensures l.rows[i].status != Minting {
          assert !Counts(Pending, l.rows[i]);
        }
      case PickUp(list) => ShapePickUp(l, list);
      case RefundNext => ShapeRefund(l);
      case _ =>
    }
  }
}
