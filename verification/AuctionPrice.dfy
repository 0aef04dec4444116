/** The cached price against the bid rows: what every run keeps, and how fast bids raise it. */
module AuctionPrice {
  import opened Wrappers
  import opened BidLedger
  import opened AuctionMachine

  /** The price is the largest pending sum of a bidder, or the start price while nobody has a row. */
  ghost predicate PriceAgrees(rows: seq<Bid>, startPrice: int, price: int) {
    if HasAny(rows, Pending)
    then exists w :: IsTop(rows, Pending, w) && price == Total(rows, w, Pending)
    else price == startPrice
  }

  /** The price does not exceed the largest pending sum. */
  ghost predicate PriceBounded(rows: seq<Bid>, price: int) {
    HasAny(rows, Pending) ==> exists w :: Present(rows, w, Pending) && price <= Total(rows, w, Pending)
  }

  /** No withdrawal has failed: failing rows are never removed, so this also speaks about the past. */
  predicate NoFailedTransfer(rows: seq<Bid>) {
    forall i :: 0 <= i < |rows| && rows[i].status == Error ==> rows[i].amount >= 0
  }

  predicate NoFailure(rows: seq<Bid>) {
    forall i :: 0 <= i < |rows| ==> rows[i].status != Error
  }

  ghost predicate PriceInv(l: Lot) {
    && (Unsettled(l.status) ==> PriceBounded(l.rows, l.price))
    && (l.closing.Some? ==> l.price <= l.closing.value.winner.total)
  }

  /** Price and rows agree; during a close, price and final price do. */
  ghost predicate Agreed(l: Lot) {
    && (Unsettled(l.status) ==> PriceAgrees(l.rows, l.startPrice, l.price))
    && (l.closing.Some? ==> l.price == l.closing.value.winner.total)
  }

  /** The move is not a withdrawal that fails and restores a sum above the price. */
  ghost predicate Harmless(l: Lot, m: Move) {
    m.TransferFailed? && Enabled(l, m) && Unsettled(l.status) ==>
      Total(l.rows, l.rows[m.row].bidder, Pending) - l.rows[m.row].amount <= l.price
  }

  // ---------------------------------------------------------------- one move

  lemma TopHolds(rows: seq<Bid>, startPrice: int, price: int, b: Address)
    requires PriceAgrees(rows, startPrice, price) && Present(rows, b, Pending)
    ensures Total(rows, b, Pending) <= price
  {
    PresentIsAny(rows, b, Pending);
  }

  lemma PresentIsAny(rows: seq<Bid>, b: Address, s: Scope)
    requires Present(rows, b, s)
    ensures HasAny(rows, s)
  {
    var i :| 0 <= i < |rows| && rows[i].bidder == b && Counts(s, rows[i]);
  }

  lemma PriceAfterPlace(l: Lot, b: Address, amount: nat)
    requires Shape(l) && Enabled(l, Place(b, amount))
    ensures var l' := Apply(l, Place(b, amount));
            PriceBounded(l'.rows, l'.price)
    ensures var l' := Apply(l, Place(b, amount));
            PriceAgrees(l.rows, l.startPrice, l.price) ==> PriceAgrees(l'.rows, l'.startPrice, l'.price) && l'.price >= l.price
  {
    var l' := Apply(l, Place(b, amount));
    var r := l'.rows[|l.rows|];
    forall c ensures Total(l'.rows, c, Pending) == Total(l.rows, c, Pending) + Share(r, c, Pending)
             ensures Present(l'.rows, c, Pending) <==> Present(l.rows, c, Pending) || c == b
    {
      TotalSnoc(l.rows, r, c, Pending);
      PresentSnoc(l.rows, r, c, Pending);
    }
    if PriceAgrees(l.rows, l.startPrice, l.price) {
      assert l'.price >= l.price by {
        if Present(l.rows, b, Pending) {
          TopHolds(l.rows, l.startPrice, l.price, b);
        } else {
          AbsentIsZero(l.rows, b, Pending);
        }
      }
      forall c | Present(l'.rows, c, Pending) ensures Total(l'.rows, c, Pending) <= l'.price {
        if c != b {
          TopHolds(l.rows, l.startPrice, l.price, c);
        }
      }
      assert IsTop(l'.rows, Pending, b);
    }
  }

  lemma PendingAfterLanding(rows: seq<Bid>, j: nat)
    requires InFlightAt(rows, j)
    ensures forall b :: Total(Mark(rows, j, Finished), b, Pending) == Total(rows, b, Pending)
    ensures forall b :: Present(Mark(rows, j, Finished), b, Pending) <==> Present(rows, b, Pending)
    ensures HasAny(Mark(rows, j, Finished), Pending) <==> HasAny(rows, Pending)
  {
    var rows' := Mark(rows, j, Finished);
    forall i | 0 <= i < |rows|
      ensures rows'[i].bidder == rows[i].bidder && (Counts(Pending, rows'[i]) <==> Counts(Pending, rows[i]))
    {}
    forall b ensures Total(rows', b, Pending) == Total(rows, b, Pending) {
      TotalMark(rows, j, Finished, b, Pending);
    }
    forall b ensures Present(rows', b, Pending) <==> Present(rows, b, Pending) {
      if Present(rows, b, Pending) {
        var i :| 0 <= i < |rows| && rows[i].bidder == b && Counts(Pending, rows[i]);
        assert rows'[i].bidder == b;
      }
      if Present(rows', b, Pending) {
        var i :| 0 <= i < |rows| && rows'[i].bidder == b && Counts(Pending, rows'[i]);
        assert rows[i].bidder == b;
      }
    }
  }

  lemma PriceAfterLanding(l: Lot, j: nat)
    requires InFlightAt(l.rows, j)
    ensures var rows' := Mark(l.rows, j, Finished);
            && (PriceBounded(l.rows, l.price) ==> PriceBounded(rows', l.price))
            && (PriceAgrees(l.rows, l.startPrice, l.price) ==> PriceAgrees(rows', l.startPrice, l.price))
  {
    var rows' := Mark(l.rows, j, Finished);
    PendingAfterLanding(l.rows, j);
    if PriceAgrees(l.rows, l.startPrice, l.price) && HasAny(l.rows, Pending) {
      var w :| IsTop(l.rows, Pending, w) && l.price == Total(l.rows, w, Pending);
      assert IsTop(rows', Pending, w);
    }
  }

  /** Whatever the price was, a failed bid leaves one that agrees with the rows. */
  lemma PriceAfterBidFailed(l: Lot, j: nat, winner: Option<Address>)
    requires Enabled(l, BidFailed(j, winner))
    ensures var l' := Apply(l, BidFailed(j, winner));
            PriceAgrees(l'.rows, l'.startPrice, l'.price) && PriceBounded(l'.rows, l'.price)
  {
    var rows' := Mark(l.rows, j, Error);
    match winner {
      case None =>
      case Some(w) =>
        PresentIsAny(rows', w, Pending);
        assert IsTop(rows', Pending, w);
    }
  }

  lemma PriceAfterTakeBack(l: Lot, m: Move)
    requires m.TakeBack? && Enabled(l, m)
    ensures var l' := Apply(l, m);
            && (PriceBounded(l.rows, l.price) ==> PriceBounded(l'.rows, l'.price))
            && (PriceAgrees(l.rows, l.startPrice, l.price) ==> PriceAgrees(l'.rows, l'.startPrice, l'.price))
  {
    var b, l' := m.bidder, Apply(l, m);
    var r := l'.rows[|l.rows|];
    PositiveTotalIsPresent(l.rows, b, Actual);
    var k :| 0 <= k < |l.rows| && l.rows[k].bidder == b && Counts(Actual, l.rows[k]);
    assert HasAny(l.rows, Pending);
    var top := m.pendingTop.value;
    forall c ensures Total(l'.rows, c, Pending) == Total(l.rows, c, Pending) + Share(r, c, Pending)
             ensures Present(l'.rows, c, Pending) <==> Present(l.rows, c, Pending) || c == b
    {
      TotalSnoc(l.rows, r, c, Pending);
      PresentSnoc(l.rows, r, c, Pending);
    }
    assert Present(l.rows, b, Pending);
    assert IsTop(l'.rows, Pending, top);
  }

  lemma PendingAfterFailure(rows: seq<Bid>, j: nat, c: Address)
    requires InFlightAt(rows, j) && Companions(rows) && rows[j].amount < 0
    ensures Total(Mark(rows, j, Error), c, Pending)
         == Total(rows, c, Pending) - (if rows[j].bidder == c then rows[j].amount else 0)
    ensures Present(Mark(rows, j, Error), c, Pending) <==> Present(rows, c, Pending)
  {
    var rows' := Mark(rows, j, Error);
    TotalMark(rows, j, Error, c, Pending);
    if Present(rows, c, Pending) {
      var i :| 0 <= i < |rows| && rows[i].bidder == c && Counts(Pending, rows[i]);
      if i == j {
        var k :| 0 <= k < |rows| && rows[k].bidder == c && Counts(Actual, rows[k]);
        assert rows'[k] == rows[k];
      } else {
        assert rows'[i] == rows[i];
      }
    }
    if Present(rows', c, Pending) {
      var i :| 0 <= i < |rows| && rows'[i].bidder == c && Counts(Pending, rows'[i]);
      assert rows'[i] == rows[i];
    }
  }

  lemma PriceAfterTransferFailed(l: Lot, j: nat)
    requires Shape(l) && Enabled(l, TransferFailed(j))
    ensures PriceBounded(l.rows, l.price) ==> PriceBounded(Mark(l.rows, j, Error), l.price)
  {
    var rows' := Mark(l.rows, j, Error);
    forall c ensures Total(rows', c, Pending) >= Total(l.rows, c, Pending)
             ensures Present(rows', c, Pending) <==> Present(l.rows, c, Pending)
    {
      PendingAfterFailure(l.rows, j, c);
    }
    if HasAny(rows', Pending) {
      var i :| 0 <= i < |rows'| && Counts(Pending, rows'[i]);
      assert Counts(Pending, l.rows[i]);
    }
  }

  /** The one way the price can come apart from the rows: a failed withdrawal restores a sum above it. */
  lemma FailedTransferAgreesIff(l: Lot, j: nat)
    requires Shape(l) && Enabled(l, TransferFailed(j))
    requires PriceAgrees(l.rows, l.startPrice, l.price)
    ensures var l' := Apply(l, TransferFailed(j));
            PriceAgrees(l'.rows, l'.startPrice, l'.price)
            <==> Total(l.rows, l.rows[j].bidder, Pending) - l.rows[j].amount <= l.price
  {
    var rows', b := Mark(l.rows, j, Error), l.rows[j].bidder;
    forall c ensures Total(rows', c, Pending) == Total(l.rows, c, Pending) - (if b == c then l.rows[j].amount else 0)
             ensures Present(rows', c, Pending) <==> Present(l.rows, c, Pending)
    {
      PendingAfterFailure(l.rows, j, c);
    }
    assert Counts(Pending, l.rows[j]);
    assert HasAny(l.rows, Pending) && Present(l.rows, b, Pending);
    PresentIsAny(rows', b, Pending);
    var w :| IsTop(l.rows, Pending, w) && l.price == Total(l.rows, w, Pending);
    if Total(rows', b, Pending) <= l.price {
      assert w != b;
      assert IsTop(rows', Pending, w);
    }
  }

  /** With nothing in flight, the first final total is the largest pending sum. */
  lemma FirstIsPendingTop(l: Lot, list: seq<Aggregate>)
    requires NoMinting(l.rows) && IsListing(list, l.rows, Actual) && list != []
    ensures IsTop(l.rows, Pending, list[0].bidder) && HasAny(l.rows, Pending)
    ensures list[0].total == Total(l.rows, list[0].bidder, Pending)
  {
    FirstOfListing(list, l.rows, Actual);
    forall b ensures Total(l.rows, b, Actual) == Total(l.rows, b, Pending)
             ensures Present(l.rows, b, Actual) <==> Present(l.rows, b, Pending)
    {
      TotalsCoincide(l.rows, b, Actual, Pending);
    }
    PresentIsAny(l.rows, list[0].bidder, Pending);
  }

  /** At pick-up the cached price is at most the final price, and equal to it exactly when it agrees with the rows. */
  lemma PriceAtPickUp(l: Lot, list: seq<Aggregate>)
    requires PriceInv(l) && Enabled(l, PickUp(list)) && list != []
    ensures l.price <= list[0].total
    ensures PriceAgrees(l.rows, l.startPrice, l.price) <==> l.price == list[0].total
  {
    FirstIsPendingTop(l, list);
  }

  /** The price never exceeds the largest pending sum, nor, during a close, the final price. */
  lemma PriceKept(l: Lot, m: Move)
    requires Shape(l) && PriceInv(l)
    ensures PriceInv(Next(l, m))
  {
    if Enabled(l, m) {
      match m
      case Place(b, amount) => PriceAfterPlace(l, b, amount);
      case BidLanded(j) => PriceAfterLanding(l, j);
      case BidFailed(j, winner) => PriceAfterBidFailed(l, j, winner);
      case TakeBack(_, _, _) => PriceAfterTakeBack(l, m);
      case TransferLanded(j) => PriceAfterLanding(l, j);
      case TransferFailed(j) => PriceAfterTransferFailed(l, j);
      case PickUp(list) => if list != [] { PriceAtPickUp(l, list); }
      case _ =>
    }
  }

  /** A move keeps price and rows in agreement exactly when it is harmless. */
  lemma AgreedKeptIff(l: Lot, m: Move)
    requires Shape(l) && PriceInv(l) && Agreed(l)
    ensures Agreed(Next(l, m)) <==> Harmless(l, m)
  {
    if Enabled(l, m) {
      match m
      case Place(b, amount) => PriceAfterPlace(l, b, amount);
      case BidLanded(j) => PriceAfterLanding(l, j);
      case BidFailed(j, winner) => PriceAfterBidFailed(l, j, winner);
      case TakeBack(_, _, _) => PriceAfterTakeBack(l, m);
      case TransferLanded(j) => PriceAfterLanding(l, j);
      case TransferFailed(j) => if Unsettled(l.status) { FailedTransferAgreesIff(l, j); }
      case PickUp(list) => if list != [] { PriceAtPickUp(l, list); }
      case _ =>
    }
  }

  /** Failed rows stay: without a failed withdrawal now, there was none before, and none has failed just now. */
  lemma NoFailedTransferBefore(l: Lot, m: Move)
    requires NoFailedTransfer(Next(l, m).rows)
    ensures NoFailedTransfer(l.rows) && Harmless(l, m)
  {
    var rows' := Next(l, m).rows;
    forall i | 0 <= i < |l.rows| && l.rows[i].status == Error ensures l.rows[i].amount >= 0 {
      assert rows'[i] == l.rows[i];
    }
    if m.TransferFailed? && Enabled(l, m) {
      FailedTransferShows(l, m.row);
    }
  }

  lemma FailedTransferShows(l: Lot, j: nat)
    requires Enabled(l, TransferFailed(j))
    ensures !NoFailedTransfer(Apply(l, TransferFailed(j)).rows)
  {
    var r := Apply(l, TransferFailed(j)).rows[j];
    assert r.status == Error && r.amount < 0;
  }

  // ---------------------------------------------------------------- growth

  /** How many bids were accepted. */
  function Bids(rows: seq<Bid>): nat {
    if rows == [] then 0
    else Bids(rows[..|rows| - 1]) + (if rows[|rows| - 1].amount >= 0 then 1 else 0)
  }

  lemma BidsSnoc(rows: seq<Bid>, r: Bid)
    ensures Bids(rows + [r]) == Bids(rows) + (if r.amount >= 0 then 1 else 0)
  {
    assert (rows + [r])[..|rows|] == rows;
  }

  lemma {:induction false} BidsMark(rows: seq<Bid>, j: nat, st: BidStatus)
    requires j < |rows|
    ensures Bids(Mark(rows, j, st)) == Bids(rows)
  {
    var n := |rows| - 1;
    if j == n {
      assert Mark(rows, j, st)[..n] == rows[..n];
    } else {
      assert Mark(rows, j, st)[..n] == Mark(rows[..n], j, st);
      BidsMark(rows[..n], j, st);
    }
  }

  lemma {:induction false} BidsPositive(rows: seq<Bid>)
    requires rows != [] && rows[0].amount >= 0
    ensures Bids(rows) >= 1
  {
    if |rows| > 1 {
      BidsPositive(rows[..|rows| - 1]);
    }
  }

  /** After n >= 1 accepted bids the price has risen by at least n - 1 steps. */
  predicate GrowsBySteps(l: Lot) {
    Bids(l.rows) >= 1 ==> l.price >= l.startPrice + (Bids(l.rows) - 1) * l.priceStep
  }

  predicate GrowthInv(l: Lot) {
    Unsettled(l.status) && NoFailure(l.rows) && l.startPrice >= l.priceStep >= 1 ==> GrowsBySteps(l)
  }

  /** Against an agreed price at least one step above zero, an accepted bid raises the price by a step. */
  lemma PlaceClimbs(l: Lot, b: Address, amount: nat)
    requires Shape(l) && Enabled(l, Place(b, amount))
    requires PriceAgrees(l.rows, l.startPrice, l.price) && HasAny(l.rows, Pending) && l.price >= l.priceStep
    ensures Apply(l, Place(b, amount)).price >= l.price + l.priceStep
  {
    if Present(l.rows, b, Pending) {
      TopHolds(l.rows, l.startPrice, l.price, b);
    } else {
      AbsentIsZero(l.rows, b, Pending);
    }
  }

  lemma OneMoreStep(n: nat, start: int, step: int, price: int, price': int)
    requires n >= 1 && step >= 1 && price >= start + (n - 1) * step && price' >= price + step
    ensures price' >= start + (n + 1 - 1) * step && price >= start
  {
    assert n * step == (n - 1) * step + step;
    assert (n - 1) * step >= 0;
  }

  lemma GrowthAfterPlace(l: Lot, b: Address, amount: nat)
    requires Shape(l) && GrowthInv(l) && Enabled(l, Place(b, amount))
    requires NoFailure(l.rows) ==> Agreed(l)
    ensures GrowthInv(Apply(l, Place(b, amount)))
  {
    var l' := Apply(l, Place(b, amount));
    BidsSnoc(l.rows, l'.rows[|l.rows|]);
    if NoFailure(l'.rows) && l.startPrice >= l.priceStep >= 1 {
      forall i | 0 <= i < |l.rows| ensures l.rows[i] == l'.rows[i] {}
      if l.rows != [] {
        BidsPositive(l.rows);
        assert Counts(Pending, l.rows[0]);
        assert l.price >= l.startPrice by {
          OneMoreStep(Bids(l.rows), l.startPrice, l.priceStep, l.price, l.price + l.priceStep);
        }
        PlaceClimbs(l, b, amount);
        OneMoreStep(Bids(l.rows), l.startPrice, l.priceStep, l.price, l'.price);
      } else {
        assert l.price == l.startPrice;
        PriceAfterPlace(l, b, amount);
      }
    }
  }

  lemma GrowthAfterTakeBack(l: Lot, m: Move)
    requires GrowthInv(l) && m.TakeBack? && Enabled(l, m)
    ensures GrowthInv(Apply(l, m))
  {
    var l' := Apply(l, m);
    BidsSnoc(l.rows, l'.rows[|l.rows|]);
    if NoFailure(l'.rows) {
      forall i | 0 <= i < |l.rows| ensures l.rows[i] == l'.rows[i] {}
    }
  }

  lemma GrowthKept(l: Lot, m: Move)
    requires Shape(l) && GrowthInv(l) && (NoFailure(l.rows) ==> Agreed(l))
    ensures GrowthInv(Next(l, m))
  {
    if Enabled(l, m) {
      match m
      case Place(b, amount) => GrowthAfterPlace(l, b, amount);
      case BidLanded(j) => GrowthAfterMark(l, j, Finished, l.price);
      case TransferLanded(j) => GrowthAfterMark(l, j, Finished, l.price);
      case BidFailed(j, _) => GrowthAfterMark(l, j, Error, Apply(l, m).price);
      case TransferFailed(j) => GrowthAfterMark(l, j, Error, l.price);
      case TakeBack(_, _, _) => GrowthAfterTakeBack(l, m);
      case _ =>
    }
  }

  lemma GrowthAfterMark(l: Lot, j: nat, st: BidStatus, price: int)
    requires GrowthInv(l) && InFlightAt(l.rows, j) && (st == Error || price == l.price)
    ensures GrowthInv(l.(rows := Mark(l.rows, j, st), price := price))
  {
    var rows' := Mark(l.rows, j, st);
    BidsMark(l.rows, j, st);
    if NoFailure(rows') {
      assert rows'[j].status == st;
      forall i | 0 <= i < |l.rows| ensures l.rows[i].status != Error {
        assert rows'[i].status != Error;
      }
    }
  }
}
