/** Money in an auction: who may be overdrawn, what the balance column says, what a close pays out. */
module AuctionMoney {
  import opened Wrappers
  import opened BidLedger
  import opened Commission
  import opened AuctionMachine
  import opened AuctionPrice

  // ---------------------------------------------------------------- nobody is overdrawn

  ghost predicate InFlight(rows: seq<Bid>, b: Address) {
    exists j :: 0 <= j < |rows| && rows[j].bidder == b && rows[j].status == Minting && rows[j].amount < 0
  }

  /** Even if every bid in flight fails and every withdrawal in flight lands, no sum is negative. */
  ghost predicate Covered(rows: seq<Bid>) {
    forall b :: Total(rows, b, Exposed) >= 0
  }

  ghost predicate Solvent(rows: seq<Bid>) {
    forall b :: Total(rows, b, Actual) >= 0 && Total(rows, b, Pending) >= 0
  }

  /** The outcome in which all bids in flight fail and all withdrawals in flight land. */
  function Worst(rows: seq<Bid>): (w: seq<Bid>)
    ensures |w| == |rows|
  {
    seq(|rows|, i requires 0 <= i < |rows| =>
      if rows[i].status != Minting then rows[i]
      else rows[i].(status := if rows[i].amount < 0 then Finished else Error))
  }

  lemma {:induction false} ExposedIsWorst(rows: seq<Bid>, b: Address)
    ensures Total(rows, b, Exposed) == Total(Worst(rows), b, Actual)
  {
    if rows != [] {
      var n := |rows| - 1;
      assert Worst(rows)[..n] == Worst(rows[..n]);
      ExposedIsWorst(rows[..n], b);
    }
  }

  lemma {:induction false} ExposedGap(rows: seq<Bid>, b: Address)
    ensures Total(rows, b, Exposed) <= Total(rows, b, Actual)
    ensures Total(rows, b, Exposed) <= Total(rows, b, Pending)
    ensures Total(rows, b, Exposed) == Total(rows, b, Actual) <==> !InFlight(rows, b)
  {
    if rows != [] {
      var n := |rows| - 1;
      var init := rows[..n];
      ExposedGap(init, b);
      assert forall j :: 0 <= j < n ==> init[j] == rows[j];
      assert InFlight(rows, b) <==>
        InFlight(init, b) || (rows[n].bidder == b && rows[n].status == Minting && rows[n].amount < 0);
    }
  }

  lemma CoveredIsSolvent(rows: seq<Bid>)
    requires Covered(rows)
    ensures Solvent(rows)
  {
    forall b ensures Total(rows, b, Actual) >= 0 && Total(rows, b, Pending) >= 0 {
      ExposedGap(rows, b);
    }
  }

  /** A withdrawal keeps everyone covered exactly when the bidder has no other one in flight. */
  lemma TakeBackCoversIff(l: Lot, m: Move)
    requires Covered(l.rows) && m.TakeBack? && Enabled(l, m)
    ensures Covered(Apply(l, m).rows) <==> !InFlight(l.rows, m.bidder)
  {
    var l' := Apply(l, m);
    forall b ensures Total(l'.rows, b, Exposed)
                  == Total(l.rows, b, Exposed) - (if b == m.bidder then Total(l.rows, b, Actual) else 0) {
      TotalSnoc(l.rows, l'.rows[|l.rows|], b, Exposed);
    }
    ExposedGap(l.rows, m.bidder);
  }

  lemma CoveredAfterMark(rows: seq<Bid>, j: nat, st: BidStatus)
    requires Covered(rows) && InFlightAt(rows, j) && st != Minting
    ensures Covered(Mark(rows, j, st))
  {
    forall b ensures Total(Mark(rows, j, st), b, Exposed) >= 0 {
      TotalMark(rows, j, st, b, Exposed);
    }
  }

  lemma CoveredAfterRefund(l: Lot)
    requires Shape(l) && Covered(l.rows) && Enabled(l, RefundNext)
    ensures Covered(Apply(l, RefundNext).rows)
  {
    var loser := l.closing.value.losers[0];
    if loser.total > 0 {
      var rows' := Apply(l, RefundNext).rows;
      assert Current(l.rows, loser);
      TotalsCoincide(l.rows, loser.bidder, Exposed, Actual);
      forall b ensures Total(rows', b, Exposed) >= 0 {
        TotalSnoc(l.rows, rows'[|l.rows|], b, Exposed);
      }
    }
  }

  /** Every other move keeps everyone covered. */
  lemma CoveredKept(l: Lot, m: Move)
    requires Shape(l) && Covered(l.rows)
    requires m.TakeBack? && Enabled(l, m) ==> !InFlight(l.rows, m.bidder)
    ensures Covered(Next(l, m).rows)
  {
    if Enabled(l, m) {
      match m
      case Place(b, amount) =>
        forall c ensures Total(Apply(l, m).rows, c, Exposed) >= 0 {
          TotalSnoc(l.rows, Apply(l, m).rows[|l.rows|], c, Exposed);
        }
      case TakeBack(_, _, _) => TakeBackCoversIff(l, m);
      case BidLanded(j) => CoveredAfterMark(l.rows, j, Finished);
      case BidFailed(j, _) => CoveredAfterMark(l.rows, j, Error);
      case TransferLanded(j) => CoveredAfterMark(l.rows, j, Finished);
      case TransferFailed(j) => CoveredAfterMark(l.rows, j, Error);
      case RefundNext => CoveredAfterRefund(l);
      case _ =>
    }
  }

  // ---------------------------------------------------------------- the balance column

  /** The balance column of row i is the bidder's running sum. */
  predicate BalanceAt(rows: seq<Bid>, i: nat)
    requires i < |rows|
  {
    rows[i].balance == Total(rows[..i + 1], rows[i].bidder, Every)
  }

  ghost predicate BalanceInv(l: Lot) {
    NoFailure(l.rows) ==> forall i :: 0 <= i < |l.rows| ==> BalanceAt(l.rows, i)
  }

  lemma BalanceSnoc(l: Lot, r: Bid)
    requires BalanceInv(l)
    requires NoFailure(l.rows) ==> r.balance == Total(l.rows, r.bidder, Every) + r.amount
    ensures BalanceInv(l.(rows := l.rows + [r]))
  {
    var rows' := l.rows + [r];
    if NoFailure(rows') {
      forall i | 0 <= i < |l.rows| ensures l.rows[i].status != Error { assert rows'[i] == l.rows[i]; }
      forall i | 0 <= i < |rows'| ensures BalanceAt(rows', i) {
        if i < |l.rows| {
          assert BalanceAt(l.rows, i);
          assert rows'[..i + 1] == l.rows[..i + 1];
        } else {
          assert rows'[..i + 1] == rows';
          TotalSnoc(l.rows, r, r.bidder, Every);
        }
      }
    }
  }

  lemma BalanceMark(l: Lot, j: nat, st: BidStatus)
    requires BalanceInv(l) && InFlightAt(l.rows, j)
    ensures BalanceInv(l.(rows := Mark(l.rows, j, st)))
  {
    var rows' := Mark(l.rows, j, st);
    if NoFailure(rows') {
      forall i | 0 <= i < |l.rows| ensures l.rows[i].status != Error { assert i != j ==> rows'[i] == l.rows[i]; }
      forall i | 0 <= i < |rows'| ensures BalanceAt(rows', i) {
        assert BalanceAt(l.rows, i);
        if j <= i {
          assert rows'[..i + 1] == Mark(l.rows[..i + 1], j, st);
          TotalMark(l.rows[..i + 1], j, st, rows'[i].bidder, Every);
        } else {
          assert rows'[..i + 1] == l.rows[..i + 1];
        }
      }
    }
  }

  lemma PendingIsEvery(rows: seq<Bid>, b: Address)
    requires NoFailure(rows)
    ensures Total(rows, b, Pending) == Total(rows, b, Every)
  {
    TotalsCoincide(rows, b, Pending, Every);
  }

  lemma BalanceKept(l: Lot, m: Move)
    requires Shape(l) && BalanceInv(l)
    ensures BalanceInv(Next(l, m))
  {
    if Enabled(l, m) {
      match m
      case Place(b, amount) =>
        if NoFailure(l.rows) { PendingIsEvery(l.rows, b); }
        BalanceSnoc(l, Apply(l, m).rows[|l.rows|]);
      case TakeBack(b, _, _) =>
        if NoFailure(l.rows) { PendingIsEvery(l.rows, b); }
        BalanceSnoc(l, Apply(l, m).rows[|l.rows|]);
      case RefundNext =>
        var loser := l.closing.value.losers[0];
        if loser.total > 0 {
          assert Current(l.rows, loser);
          if NoFailure(l.rows) { TotalsCoincide(l.rows, loser.bidder, Actual, Every); }
          BalanceSnoc(l, Apply(l, m).rows[|l.rows|]);
        }
      case BidLanded(j) => BalanceMark(l, j, Finished);
      case BidFailed(j, _) => BalanceMark(l, j, Error);
      case TransferLanded(j) => BalanceMark(l, j, Finished);
      case TransferFailed(j) => BalanceMark(l, j, Error);
      case _ =>
    }
  }

  // ---------------------------------------------------------------- paid at most once

  predicate SamePurpose(p: Payment, q: Payment) {
    match (p, q)
    case (Refund(_, b, _), Refund(_, c, _)) => b == c
    case (Payout(_, _, _), Payout(_, _, _)) => true
    case _ => false
  }

  /** No loser is refunded twice, the seller is not paid twice. */
  predicate AtMostOnce(payments: seq<Payment>) {
    forall i, j :: 0 <= i < j < |payments| ==> !SamePurpose(payments[i], payments[j])
  }

  predicate PaymentInv(l: Lot) {
    && (Unsettled(l.status) ==> l.payments == [])
    && AtMostOnce(l.payments)
    && (l.closing.Some? ==>
          forall i :: 0 <= i < |l.payments| ==>
            && l.payments[i].Refund?
            && forall k :: 0 <= k < |l.closing.value.losers| ==> l.closing.value.losers[k].bidder != l.payments[i].bidder)
  }

  lemma PaymentsKept(l: Lot, m: Move)
    requires Shape(l) && PaymentInv(l)
    ensures PaymentInv(Next(l, m))
  {
    if Enabled(l, m) && m.RefundNext? {
      var c := l.closing.value;
      var rest := c.losers[1..];
      assert forall k :: 0 <= k < |rest| ==> rest[k] == c.losers[k + 1];
    }
  }

  // ---------------------------------------------------------------- conservation at close

  /** Handles the next loser; landed says whether its transfer succeeds. */
  ghost function RefundOne(l: Lot, landed: bool): (l': Lot)
    requires Enabled(l, RefundNext)
    ensures l'.closing == Some(l.closing.value.(losers := l.closing.value.losers[1..]))
  {
    var l1 := Apply(l, RefundNext);
    if l.closing.value.losers[0].total > 0
    then Apply(l1, if landed then TransferLanded(|l.rows|) else TransferFailed(|l.rows|))
    else l1
  }

  /** The loop over the losers. */
  ghost function RefundAll(l: Lot, landed: seq<bool>): (l': Lot)
    requires l.closing.Some? && |landed| == |l.closing.value.losers|
    ensures l'.closing.Some? && l'.closing.value.losers == []
    decreases |landed|
  {
    if landed == [] then l else RefundAll(RefundOne(l, landed[0]), landed[1..])
  }

  function Paid(payments: seq<Payment>): int {
    if payments == [] then 0 else Paid(payments[..|payments| - 1]) + payments[|payments| - 1].amount
  }

  /** The positive totals: a loser with a total of zero or less gets no transfer. */
  function PositiveTotals(list: seq<Aggregate>): int {
    if list == [] then 0 else (if list[0].total > 0 then list[0].total else 0) + PositiveTotals(list[1..])
  }

  predicate NoneNegative(list: seq<Aggregate>) {
    forall k :: 0 <= k < |list| ==> list[k].total >= 0
  }

  lemma {:induction false} SumTotalsFront(list: seq<Aggregate>)
    requires list != []
    ensures SumTotals(list) == list[0].total + SumTotals(list[1..])
  {
    if |list| > 1 {
      var n := |list| - 1;
      SumTotalsFront(list[..n]);
      assert list[..n][1..] == list[1..][..n - 1];
    }
  }

  lemma {:induction false} PositiveTotalsIff(list: seq<Aggregate>)
    ensures PositiveTotals(list) >= SumTotals(list)
    ensures PositiveTotals(list) == SumTotals(list) <==> NoneNegative(list)
  {
    if list != [] {
      var rest := list[1..];
      SumTotalsFront(list);
      PositiveTotalsIff(rest);
      assert forall k :: 0 <= k < |rest| ==> rest[k] == list[k + 1];
      assert NoneNegative(list) <==> list[0].total >= 0 && NoneNegative(rest) by {
        if list[0].total >= 0 && NoneNegative(rest) {
          forall k | 0 <= k < |list| ensures list[k].total >= 0 { assert k > 0 ==> list[k] == rest[k - 1]; }
        }
      }
    }
  }

  predicate AllLand(landed: seq<bool>) {
    forall i :: 0 <= i < |landed| ==> landed[i]
  }

  lemma ShapeAfterRefundOne(l: Lot, landed: bool)
    requires Shape(l) && Enabled(l, RefundNext)
    ensures Shape(RefundOne(l, landed))
  {
    var l1 := Apply(l, RefundNext);
    ShapeKept(l, RefundNext);
    if l.closing.value.losers[0].total > 0 {
      var m := if landed then TransferLanded(|l.rows|) else TransferFailed(|l.rows|);
      assert Enabled(l1, m);
      ShapeKept(l1, m);
    }
  }

  /** One loser handled with a landing transfer: its money leaves, nobody else's does. */
  lemma RefundOneLands(l: Lot, c: Address)
    requires Shape(l) && Enabled(l, RefundNext)
    ensures var l' := RefundOne(l, true);
            var loser := l.closing.value.losers[0];
            var amount := if loser.total > 0 then loser.total else 0;
            && Total(l'.rows, c, Actual) == Total(l.rows, c, Actual) - (if c == loser.bidder then amount else 0)
            && Paid(l'.payments) == Paid(l.payments) + amount
            && l'.status == l.status && l'.id == l.id && l'.price == l.price
  {
    var l1 := Apply(l, RefundNext);
    if l.closing.value.losers[0].total > 0 {
      TotalSnoc(l.rows, l1.rows[|l.rows|], c, Actual);
      TotalMark(l1.rows, |l.rows|, Finished, c, Actual);
      assert l1.payments[..|l.payments|] == l.payments;
    }
  }

  lemma ListedFront(list: seq<Aggregate>, c: Address)
    requires list != []
    ensures Listed(list, c) <==> c == list[0].bidder || Listed(list[1..], c)
    ensures Distinct(list) && c == list[0].bidder ==> !Listed(list[1..], c)
  {
    var rest := list[1..];
    assert forall k :: 0 <= k < |rest| ==> rest[k] == list[k + 1];
    if Listed(list, c) {
      var k :| 0 <= k < |list| && list[k].bidder == c;
      assert k > 0 ==> rest[k - 1].bidder == c;
    }
    assert list[0].bidder == c ==> Listed(list, c);
  }

  lemma {:induction false} RefundAllTotals(l: Lot, landed: seq<bool>, c: Address)
    requires Shape(l) && l.closing.Some? && |landed| == |l.closing.value.losers| && AllLand(landed)
    ensures var l' := RefundAll(l, landed);
            && Shape(l') && l'.closing == Some(l.closing.value.(losers := []))
            && l'.status == l.status && l'.id == l.id && l'.price == l.price
            && Paid(l'.payments) == Paid(l.payments) + PositiveTotals(l.closing.value.losers)
            && (!Listed(l.closing.value.losers, c) ==> Total(l'.rows, c, Actual) == Total(l.rows, c, Actual))
            && (Listed(l.closing.value.losers, c) && Total(l.rows, c, Actual) >= 0 ==> Total(l'.rows, c, Actual) == 0)
    decreases |landed|
  {
    var losers := l.closing.value.losers;
    if landed == [] {
      assert losers == [];
    } else {
      assert landed[0];
      assert Current(l.rows, losers[0]);
      ListedFront(losers, c);
      ShapeAfterRefundOne(l, true);
      RefundOneLands(l, c);
      RefundAllTotals(RefundOne(l, true), landed[1..], c);
    }
  }

  /** A complete close; landed and paid say which transfers succeed. Without bidders it ends at the pick-up. */
  ghost function CloseOut(l: Lot, list: seq<Aggregate>, landed: seq<bool>, seller: Address, commission: nat, paid: bool): Lot
    requires list != [] ==> |landed| == |list| - 1
  {
    if list == [] then Apply(l, PickUp(list))
    else Apply(RefundAll(Apply(l, PickUp(list)), landed), Finish(seller, commission, paid))
  }

  /** Refunds, the seller's share and the market fee add up to all the money in the auction
      exactly when no losing bidder is overdrawn. */
  lemma CloseConserves(l: Lot, list: seq<Aggregate>, landed: seq<bool>, seller: Address, commission: nat)
    requires Shape(l) && Enabled(l, PickUp(list)) && list != []
    requires |landed| == |list| - 1 && AllLand(landed)
    ensures var end := CloseOut(l, list, landed, seller, commission, true);
            Paid(end.payments) - Paid(l.payments) + MarketFee(list[0].total, commission) == GrandTotal(l.rows, Actual)
            <==> NoneNegative(list[1..])
  {
    var l0 := Apply(l, PickUp(list));
    ShapeKept(l, PickUp(list));
    RefundAllTotals(l0, landed, list[0].bidder);
    var l1 := RefundAll(l0, landed);
    var end := Apply(l1, Finish(seller, commission, true));
    assert end.payments[..|l1.payments|] == l1.payments;
    SumTotalsFront(list);
    PositiveTotalsIff(list[1..]);
    GroupsPartitionRows(list, l.rows, Actual);
  }

  /** After such a close every loser's sum is zero and the winner's is the final price. */
  lemma CloseSettlesEveryone(l: Lot, list: seq<Aggregate>, landed: seq<bool>, seller: Address, commission: nat, b: Address)
    requires Shape(l) && Solvent(l.rows) && Enabled(l, PickUp(list)) && list != []
    requires |landed| == |list| - 1 && AllLand(landed)
    ensures Total(CloseOut(l, list, landed, seller, commission, true).rows, b, Actual)
         == if b == list[0].bidder then list[0].total else 0
  {
    var l0 := Apply(l, PickUp(list));
    ShapeKept(l, PickUp(list));
    RefundAllTotals(l0, landed, b);
    ListedFront(list, b);
    ListingTotal(list, l.rows, b);
    assert Total(l0.rows, b, Actual) >= 0;
  }

  lemma ListingTotal(list: seq<Aggregate>, rows: seq<Bid>, b: Address)
    requires IsListing(list, rows, Actual) && list != []
    ensures b == list[0].bidder ==> Total(rows, b, Actual) == list[0].total
    ensures !Listed(list, b) ==> Total(rows, b, Actual) == 0
  {
    if !Listed(list, b) {
      AbsentIsZero(rows, b, Actual);
    }
  }
}
