/** What the auction services ask of a request and what they leave in the tables, in terms of rows and fields. */
module AuctionLaws {
  import opened Wrappers
  import opened Tables
  import opened BidLedger
  import opened AuctionMachine
  import opened AuctionWorld
  import opened AuctionRefinement

  // ---------------------------------------------------------------- sums

  /** A row in flight counts for the bidder's pending sum at once, and for the finished sum when its transfer lands; if
      the transfer fails it counts no more. Nobody else's sums move. */
  lemma RowLifeCycle(rows: seq<Bid>, r: Bid, b: Address)
    requires r.status == Minting
    ensures var n, amount := |rows|, if r.bidder == b then r.amount else 0;
            var sent := rows + [r];
            && Total(sent, b, Pending) == Total(rows, b, Pending) + amount
            && Total(sent, b, Actual) == Total(rows, b, Actual)
            && Total(Mark(sent, n, Finished), b, Pending) == Total(rows, b, Pending) + amount
            && Total(Mark(sent, n, Finished), b, Actual) == Total(rows, b, Actual) + amount
            && Total(Mark(sent, n, Error), b, Pending) == Total(rows, b, Pending)
            && Total(Mark(sent, n, Error), b, Actual) == Total(rows, b, Actual)
  {
    var sent := rows + [r];
    TotalSnoc(rows, r, b, Pending);
    TotalSnoc(rows, r, b, Actual);
    TotalMark(sent, |rows|, Finished, b, Pending);
    TotalMark(sent, |rows|, Finished, b, Actual);
    TotalMark(sent, |rows|, Error, b, Pending);
    TotalMark(sent, |rows|, Error, b, Actual);
  }

  /** The same for a row that settles after others were written. */
  lemma SettlingMoves(rows: seq<Bid>, j: nat, b: Address)
    requires j < |rows| && rows[j].status == Minting
    ensures var amount := if rows[j].bidder == b then rows[j].amount else 0;
            && Total(Mark(rows, j, Finished), b, Pending) == Total(rows, b, Pending)
            && Total(Mark(rows, j, Finished), b, Actual) == Total(rows, b, Actual) + amount
            && Total(Mark(rows, j, Error), b, Pending) == Total(rows, b, Pending) - amount
            && Total(Mark(rows, j, Error), b, Actual) == Total(rows, b, Actual)
  {
    TotalMark(rows, j, Finished, b, Pending);
    TotalMark(rows, j, Finished, b, Actual);
    TotalMark(rows, j, Error, b, Pending);
    TotalMark(rows, j, Error, b, Actual);
  }

  // ---------------------------------------------------------------- bids

  /** Nobody has bid yet, or every bid has failed. */
  predicate Untouched(l: Lot) {
    l.price == l.startPrice && forall i :: 0 <= i < |l.rows| ==> l.rows[i].status == Error
  }

  /** The sum that a bidder's next bid has to reach: a step above the price, or the price itself for the first bid and for
      a bidder who is there already. */
  function Goal(l: Lot, b: Address): int {
    if Untouched(l) || Total(l.rows, b, Pending) >= l.price then l.price else l.price + l.priceStep
  }

  /** The amount is no less than the step, as soon as the price is, and takes the bidder's pending sum to the goal. */
  predicate ReachesGoal(l: Lot, b: Address, amount: int) {
    (l.price >= l.priceStep ==> amount >= l.priceStep) && Total(l.rows, b, Pending) + amount >= Goal(l, b)
  }

  /** Exactly such a bid is acceptable. */
  lemma AcceptedIffGoal(l: Lot, b: Address, amount: int)
    ensures Accepts(l, b, amount) <==> ReachesGoal(l, b, amount)
  {
    AnyUnfailedIff(l.rows);
  }

  lemma AnyUnfailedIff(rows: seq<Bid>)
    ensures HasAny(rows, Pending) <==> exists i :: 0 <= i < |rows| && rows[i].status != Error
  {
    if i :| 0 <= i < |rows| && rows[i].status != Error {
      assert Counts(Pending, rows[i]);
    }
  }

  /** The quoted minimum is the least amount that takes the bidder to the goal. */
  lemma QuoteIsLeast(l: Lot, b: Address)
    ensures var pend := Total(l.rows, b, Pending);
            pend + MinimumBid(l.price, l.startPrice, l.priceStep, pend, HasAny(l.rows, Pending)) == Goal(l, b)
  {
    AnyUnfailedIff(l.rows);
  }

  // ---------------------------------------------------------------- finding the auction of a token

  /** The token is on auction: it has an active offer, to which the auction belongs. */
  predicate OnAuction(w: World, collection: nat, token: nat, a: nat) {
    && a < |w.auctions| && w.auctions[a].ask < |w.asks|
    && w.asks[w.auctions[a].ask].collection == collection && w.asks[w.auctions[a].ask].token == token
    && w.asks[w.auctions[a].ask].status == AskActive
  }

  /** The lookup finds it if its status is one of those asked for, and says otherwise what is missing. */
  lemma LocateIff(w: World, collection: nat, token: nat, allowed: set<AuctionStatus>, a: nat)
    requires WellFormed(w) && OneLivePerToken(w.asks)
    ensures Locate(w, collection, token, allowed) == Success(a) <==> OnAuction(w, collection, token, a) && w.auctions[a].status in allowed
    ensures OnAuction(w, collection, token, a) && w.auctions[a].status !in allowed ==>
              Locate(w, collection, token, allowed) == Failure(WrongStatus(w.auctions[a].status))
    ensures (forall x: nat :: !OnAuction(w, collection, token, x)) ==>
              Locate(w, collection, token, allowed)
              == Failure(if exists i :: 0 <= i < |w.asks| && w.asks[i].collection == collection && w.asks[i].token == token
                                        && w.asks[i].status == AskActive then NoAuction else NoOffer)
  {
    var found := FindAsk(w.asks, collection, token);
    if found.Some? {
      assert IsLive(w.asks[found.value], collection, token);
      if OnAuction(w, collection, token, a) {
        OneLiveIndex(w.asks, found.value, w.auctions[a].ask);
      }
      var auction := AuctionOf(w.auctions, found.value);
      if auction.Some? {
        assert OnAuction(w, collection, token, auction.value);
      }
    }
  }

  lemma OneLiveIndex(asks: seq<Ask>, i: nat, j: nat)
    requires OneLivePerToken(asks) && i < |asks| && j < |asks|
    requires Live(asks[i].status) && Live(asks[j].status)
    requires asks[i].collection == asks[j].collection && asks[i].token == asks[j].token
    ensures i == j
  {
    assert IsLive(asks[i], asks[i].collection, asks[i].token) && IsLive(asks[j], asks[j].collection, asks[j].token);
  }

  // ---------------------------------------------------------------- creating

  /** A new auction takes the token's place among the live offers: it is active, at its start price, of its creator, its
      token with the auction account; it is refused when the token has an active or removed offer. */
  lemma CreationOpensAuction(w: World, collection: nat, token: nat, seller: Address, startPrice: int, priceStep: int, stopAt: int)
    requires WellFormed(w) && startPrice >= 1 && priceStep >= 1
    ensures var w' := Step(w, Create(collection, token, seller, startPrice, priceStep, stopAt));
            if exists i :: 0 <= i < |w.asks| && w.asks[i].collection == collection && w.asks[i].token == token
                           && w.asks[i].status in {AskActive, AskRemoved}
            then w' == w
            else
              && w'.asks == w.asks + [Ask(AskActive, collection, token, startPrice, seller, w.account, None)]
              && w'.auctions == w.auctions + [AuctionRow(|w.asks|, Active, startPrice, priceStep, stopAt)]
              && w' == w.(asks := w'.asks, auctions := w'.auctions)
  {
    if i :| 0 <= i < |w.asks| && w.asks[i].collection == collection && w.asks[i].token == token
            && w.asks[i].status in {AskActive, AskRemoved} {
      assert IsLive(w.asks[i], collection, token);
    }
  }

  // ---------------------------------------------------------------- placing a bid

  /** A bid on a token that is on an active auction is taken exactly when it is acceptable; it adds a row in flight and
      makes the bidder's new pending sum the price. */
  lemma BidRaisesPriceIff(w: World, collection: nat, token: nat, bidder: Address, amount: nat, a: nat)
    requires WellFormed(w) && OneLivePerToken(w.asks) && OnAuction(w, collection, token, a)
    ensures var w', l := Step(w, PlaceBid(collection, token, bidder, amount)), LotOf(w, a);
            var sum := Total(l.rows, bidder, Pending) + amount;
            if w.auctions[a].status == Active && ReachesGoal(l, bidder, amount)
            then
              && w'.bids == w.bids + [Bid(a, bidder, amount, sum, Minting)]
              && |w'.asks| == |w.asks|
              && w'.asks == w.asks[w.auctions[a].ask := w.asks[w.auctions[a].ask].(price := sum)]
              && w' == w.(bids := w'.bids, asks := w'.asks)
            else w' == w
  {
    LocateIff(w, collection, token, {Active}, a);
    AcceptedIffGoal(LotOf(w, a), bidder, amount);
  }

  /** A bid that is not taken is refused with the first reason that applies. */
  lemma BidRefusedIff(w: World, collection: nat, token: nat, bidder: Address, amount: nat, a: nat)
    requires WellFormed(w) && OneLivePerToken(w.asks) && OnAuction(w, collection, token, a)
    ensures var l := LotOf(w, a);
            PlaceOutcome(w, collection, token, bidder, amount)
            == if l.status != Active then Failure(WrongStatus(l.status))
               else if l.price >= l.priceStep && amount < l.priceStep then Failure(BelowPriceStep)
               else if Total(l.rows, bidder, Pending) + amount < Goal(l, bidder) then Failure(NotEnough)
               else Success(a)
  {
    LocateIff(w, collection, token, {Active}, a);
    AcceptedIffGoal(LotOf(w, a), bidder, amount);
  }

  // ---------------------------------------------------------------- taking money back

  /** Somebody else comes first in the ranking. */
  ghost predicate LedByOther(rows: seq<Bid>, s: Scope, b: Address) {
    exists c :: c != b && Present(rows, c, s) && Total(rows, c, s) >= Total(rows, b, s)
  }

  /** A withdrawal is allowed only to who has finished money in an active auction and somebody else at or above them in
      both rankings; who is strictly below somebody else in both is always allowed. */
  lemma WithdrawalNeedsLeaders(l: Lot, b: Address, pendingTop: Option<Address>, actualTop: Option<Address>)
    requires IsFirst(l.rows, Pending, pendingTop) && IsFirst(l.rows, Actual, actualTop)
    ensures Enabled(l, TakeBack(b, pendingTop, actualTop)) ==>
              l.status == Active && Total(l.rows, b, Actual) > 0 && LedByOther(l.rows, Pending, b) && LedByOther(l.rows, Actual, b)
    ensures l.status == Active && Total(l.rows, b, Actual) > 0
            && (exists c :: Present(l.rows, c, Pending) && Total(l.rows, c, Pending) > Total(l.rows, b, Pending))
            && (exists c :: Present(l.rows, c, Actual) && Total(l.rows, c, Actual) > Total(l.rows, b, Actual))
            ==> Enabled(l, TakeBack(b, pendingTop, actualTop))
  {
    if Enabled(l, TakeBack(b, pendingTop, actualTop)) {
      PositiveTotalIsPresent(l.rows, b, Actual);
      ActualIsPending(l.rows, b);
      PresentIsUnfailed(l.rows, b, Actual);
      PresentIsUnfailed(l.rows, b, Pending);
      assert Present(l.rows, actualTop.value, Actual) && Present(l.rows, pendingTop.value, Pending);
    }
  }

  lemma ActualIsPending(rows: seq<Bid>, b: Address)
    ensures Present(rows, b, Actual) ==> Present(rows, b, Pending)
  {
    if Present(rows, b, Actual) {
      var i :| 0 <= i < |rows| && rows[i].bidder == b && Counts(Actual, rows[i]);
      assert Counts(Pending, rows[i]);
    }
  }

  lemma PresentIsUnfailed(rows: seq<Bid>, b: Address, s: Scope)
    ensures Present(rows, b, s) ==> HasAny(rows, s)
  {
    if Present(rows, b, s) {
      var i :| 0 <= i < |rows| && rows[i].bidder == b && Counts(s, rows[i]);
    }
  }

  /** It takes back all the bidder's finished money: when it has landed, the bidder's finished sum is 0 and nobody else's
      has changed. */
  lemma WithdrawalTakesAll(l: Lot, b: Address, pendingTop: Option<Address>, actualTop: Option<Address>, c: Address)
    requires Enabled(l, TakeBack(b, pendingTop, actualTop))
    ensures var sent := Apply(l, TakeBack(b, pendingTop, actualTop));
            && sent.rows == l.rows + [Bid(l.id, b, -Total(l.rows, b, Actual), Total(l.rows, b, Pending) - Total(l.rows, b, Actual), Minting)]
            && sent == l.(rows := sent.rows)
            && Total(Mark(sent.rows, |l.rows|, Finished), c, Actual) == if c == b then 0 else Total(l.rows, c, Actual)
  {
    RowLifeCycle(l.rows, WithdrawalRow(l.id, l.rows, b), c);
  }

  /** So who leads the finished sums goes on leading them, with the same sum. */
  lemma WithdrawalSparesLeader(l: Lot, b: Address, pendingTop: Option<Address>, actualTop: Option<Address>)
    requires Enabled(l, TakeBack(b, pendingTop, actualTop))
    ensures actualTop.Some? && actualTop.value != b
    ensures var settled := Mark(Apply(l, TakeBack(b, pendingTop, actualTop)).rows, |l.rows|, Finished);
            IsTop(settled, Actual, actualTop.value) && Total(settled, actualTop.value, Actual) == Total(l.rows, actualTop.value, Actual)
  {
    var row := WithdrawalRow(l.id, l.rows, b);
    PositiveTotalIsPresent(l.rows, b, Actual);
    PresentIsUnfailed(l.rows, b, Actual);
    var w := actualTop.value;
    PresentMark(l.rows + [row], |l.rows|, Finished, w);
    PresentSnoc(l.rows, row, w, Actual);
    forall x ensures Total(Mark(l.rows + [row], |l.rows|, Finished), x, Actual) == if x == b then 0 else Total(l.rows, x, Actual) {
      WithdrawalTakesAll(l, b, pendingTop, actualTop, x);
    }
    forall x | x != b && Present(Mark(l.rows + [row], |l.rows|, Finished), x, Actual) ensures Present(l.rows, x, Actual) {
      OthersStayPresent(l.rows, row, x);
    }
  }

  lemma OthersStayPresent(rows: seq<Bid>, row: Bid, x: Address)
    requires row.bidder != x && Present(Mark(rows + [row], |rows|, Finished), x, Actual)
    ensures Present(rows, x, Actual)
  {
    var settled := Mark(rows + [row], |rows|, Finished);
    var i :| 0 <= i < |settled| && settled[i].bidder == x && Counts(Actual, settled[i]);
    assert i < |rows| && settled[i] == rows[i];
  }

  /** In the tables: a request on an active auction adds the row when the bidder has finished money and comes first in
      neither ranking; otherwise it is refused with the reason. */
  lemma WithdrawalRefusedIff(w: World, collection: nat, token: nat, bidder: Address,
                             pendingTop: Option<Address>, actualTop: Option<Address>, a: nat)
    requires WellFormed(w) && OneLivePerToken(w.asks) && OnAuction(w, collection, token, a)
    ensures WithdrawOutcome(w, collection, token, bidder, pendingTop, actualTop)
         == if w.auctions[a].status != Active then Failure(WrongStatus(w.auctions[a].status))
            else if Total(OfAuction(w.bids, a), bidder, Actual) <= 0 then Failure(NothingToWithdraw)
            else if pendingTop == Some(bidder) then Failure(PendingLeader)
            else if actualTop == Some(bidder) then Failure(CurrentLeader)
            else Success(a)
  {
    LocateIff(w, collection, token, {Active}, a);
  }

  lemma WithdrawalAddsRow(w: World, collection: nat, token: nat, bidder: Address,
                          pendingTop: Option<Address>, actualTop: Option<Address>, a: nat)
    requires WellFormed(w) && OneLivePerToken(w.asks) && OnAuction(w, collection, token, a)
    requires var rows := OfAuction(w.bids, a); IsFirst(rows, Pending, pendingTop) && IsFirst(rows, Actual, actualTop)
    ensures var rows := OfAuction(w.bids, a);
            var mine := Total(rows, bidder, Actual);
            Step(w, Withdraw(collection, token, bidder, pendingTop, actualTop))
            == if w.auctions[a].status == Active && mine > 0 && pendingTop != Some(bidder) && actualTop != Some(bidder)
               then w.(bids := w.bids + [Bid(a, bidder, -mine, Total(rows, bidder, Pending) - mine, Minting)]) else w
  {
    WithdrawalRefusedIff(w, collection, token, bidder, pendingTop, actualTop, a);
    WithdrawStepIff(w, collection, token, bidder, pendingTop, actualTop, a);
  }

  lemma WithdrawStepIff(w: World, collection: nat, token: nat, bidder: Address,
                        pendingTop: Option<Address>, actualTop: Option<Address>, a: nat)
    requires WellFormed(w) && a < |w.auctions|
    requires var rows := OfAuction(w.bids, a); IsFirst(rows, Pending, pendingTop) && IsFirst(rows, Actual, actualTop)
    requires var r := WithdrawOutcome(w, collection, token, bidder, pendingTop, actualTop); r.Failure? || r.value == a
    ensures Step(w, Withdraw(collection, token, bidder, pendingTop, actualTop))
         == if WithdrawOutcome(w, collection, token, bidder, pendingTop, actualTop).Success?
            then w.(bids := w.bids + [WithdrawalRow(a, OfAuction(w.bids, a), bidder)]) else w
  {
  }

  // ---------------------------------------------------------------- settling

  /** The price that a failed bid leaves is the largest pending sum that is left, or the start price without any. */
  lemma FailedBidLowersPrice(w: World, i: nat, winner: Option<Address>)
    requires WellFormed(w) && i < |w.bids| && w.bids[i].status == Minting && w.bids[i].amount >= 0
    requires IsFirst(OfAuction(w.bids[i := w.bids[i].(status := Error)], w.bids[i].auction), Pending, winner)
    ensures var w', a := Step(w, BidSettled(i, false, winner)), w.bids[i].auction;
            var rows, ask := OfAuction(w'.bids, a), w.auctions[a].ask;
            && w'.bids == w.bids[i := w.bids[i].(status := Error)]
            && |w'.asks| == |w.asks|
            && (forall b :: Present(rows, b, Pending) ==> Total(rows, b, Pending) <= w'.asks[ask].price)
            && (if HasAny(rows, Pending) then exists b :: Present(rows, b, Pending) && Total(rows, b, Pending) == w'.asks[ask].price
                else w'.asks[ask].price == w.auctions[a].startPrice)
            && w' == w.(bids := w'.bids, asks := w.asks[ask := w.asks[ask].(price := w'.asks[ask].price)])
  {
    var a := w.bids[i].auction;
    var rows := OfAuction(Mark(w.bids, i, Error), a);
    if winner.Some? {
      PresentIsUnfailed(rows, winner.value, Pending);
    } else {
      forall b ensures !Present(rows, b, Pending) {
        PresentIsUnfailed(rows, b, Pending);
      }
    }
  }

  /** Any other outcome of a transfer settles its row and touches nothing else. */
  lemma SettlingMarksRow(w: World, i: nat, landed: bool)
    requires WellFormed(w) && i < |w.bids| && w.bids[i].status == Minting
    ensures w.bids[i].amount >= 0 ==>
              Step(w, BidSettled(i, true, None)) == w.(bids := w.bids[i := w.bids[i].(status := Finished)])
    ensures w.bids[i].amount < 0 ==>
              Step(w, WithdrawalSettled(i, landed)) == w.(bids := w.bids[i := w.bids[i].(status := if landed then Finished else Error)])
  {
  }

  // ---------------------------------------------------------------- cancelling

  /** An auction is cancelled exactly for its owner and while every bid on it has failed. */
  lemma CancelledForOwnerIff(w: World, collection: nat, token: nat, owner: Address, now: int, a: nat)
    requires WellFormed(w) && OneLivePerToken(w.asks) && OnAuction(w, collection, token, a)
    ensures var w', ask := Step(w, CancelAuction(collection, token, owner, now)), w.auctions[a].ask;
            if w.auctions[a].status == Active && w.asks[ask].seller == owner
               && forall i :: 0 <= i < |w.bids| && w.bids[i].auction == a ==> w.bids[i].status == Error
            then
              && w'.asks == w.asks[ask := w.asks[ask].(status := AskCancelled)]
              && w'.auctions == w.auctions[a := w.auctions[a].(status := Ended, stopAt := now)]
              && w' == w.(asks := w'.asks, auctions := w'.auctions)
            else w' == w
  {
    LocateIff(w, collection, token, {Active}, a);
    SelectionHasAnyIff(w.bids, a);
  }

  lemma CancellationRefusedIff(w: World, collection: nat, token: nat, owner: Address, a: nat)
    requires WellFormed(w) && OneLivePerToken(w.asks) && OnAuction(w, collection, token, a)
    ensures CancelOutcome(w, collection, token, owner)
         == if w.auctions[a].status != Active then Failure(WrongStatus(w.auctions[a].status))
            else if w.asks[w.auctions[a].ask].seller != owner then Failure(NotOwner)
            else if exists i :: 0 <= i < |w.bids| && w.bids[i].auction == a && w.bids[i].status != Error then Failure(HasBids)
            else Success(a)
  {
    LocateIff(w, collection, token, {Active}, a);
    SelectionHasAnyIff(w.bids, a);
  }

  lemma {:induction false} SelectionHasAnyIff(bids: seq<Bid>, a: nat)
    ensures HasAny(OfAuction(bids, a), Pending) <==> exists i :: 0 <= i < |bids| && bids[i].auction == a && bids[i].status != Error
  {
    if bids != [] {
      var n := |bids| - 1;
      var before := bids[..n];
      SelectionHasAnyIff(before, a);
      assert bids == before + [bids[n]];
      OfAuctionSnoc(before, bids[n], a);
      PresentSnoc(OfAuction(before, a), bids[n], bids[n].bidder, Pending);
      if HasAny(OfAuction(before, a), Pending) {
        var i :| 0 <= i < n && before[i].auction == a && before[i].status != Error;
        assert bids[i] == before[i];
      }
      if i :| 0 <= i < |bids| && bids[i].auction == a && bids[i].status != Error && i < n {
        assert before[i] == bids[i];
      }
    }
  }

  lemma {:induction false} SelectionNoMintingIff(bids: seq<Bid>, a: nat)
    ensures NoMinting(OfAuction(bids, a)) <==> forall i :: 0 <= i < |bids| && bids[i].auction == a ==> bids[i].status != Minting
  {
    if bids != [] {
      var n := |bids| - 1;
      var before, rows := bids[..n], OfAuction(bids, a);
      SelectionNoMintingIff(before, a);
      assert bids == before + [bids[n]];
      OfAuctionSnoc(before, bids[n], a);
      if NoMinting(rows) {
        assert bids[n].auction == a ==> rows[|rows| - 1] == bids[n];
        forall k | 0 <= k < |OfAuction(before, a)| ensures OfAuction(before, a)[k].status != Minting {
          assert rows[k] == OfAuction(before, a)[k];
        }
      }
    }
  }

  // ---------------------------------------------------------------- stopping

  /** Exactly the active auctions whose time is up stop, at the moment of the call; no other row changes. */
  lemma DueAuctionsStop(w: World, now: int, a: nat)
    requires WellFormed(w) && a < |w.auctions|
    ensures var w', row := Step(w, StopDue(now)), w.auctions[a];
            && |w'.auctions| == |w.auctions| && w' == w.(auctions := w'.auctions)
            && w'.auctions[a] == if row.status == Active && row.stopAt <= now then row.(status := Stopped, stopAt := now) else row
  {
  }

  /** So no auction stops before its time, none that is due stays active, and a second look changes nothing. */
  lemma NobodyStopsEarly(w: World, now: int, a: nat)
    requires WellFormed(w) && a < |w.auctions|
    ensures var w' := Step(w, StopDue(now));
            && |w'.auctions| == |w.auctions|
            && (w.auctions[a].stopAt > now ==> w'.auctions[a] == w.auctions[a])
            && (w'.auctions[a].status == Active ==> w'.auctions[a].stopAt > now)
            && WellFormed(w') && Step(w', StopDue(now)) == w'
  {
    DueAuctionsStop(w, now, a);
    StatusIsWellFormed(w, StopDue(now));
    var w' := Step(w, StopDue(now));
    assert Step(w', StopDue(now)).auctions == w'.auctions;
  }

  /** A forced stop works on created and active auctions only. */
  lemma ForcedStopIff(w: World, collection: nat, token: nat, now: int, a: nat)
    requires WellFormed(w) && OneLivePerToken(w.asks) && OnAuction(w, collection, token, a)
    ensures Step(w, ForceClose(collection, token, now))
         == if w.auctions[a].status == Created || w.auctions[a].status == Active
            then w.(auctions := w.auctions[a := w.auctions[a].(status := Stopped, stopAt := now)]) else w
  {
    LocateIff(w, collection, token, {Created, Active}, a);
  }

  /** The mass cancellation lets the time of every active auction of another seller run out now, so that the next look
      stops it. */
  lemma MassCancelEndsTime(w: World, admin: Address, now: int, a: nat)
    requires WellFormed(w) && a < |w.auctions|
    ensures var w', row, seller := Step(w, MassCancel(admin, now)), w.auctions[a], w.asks[w.auctions[a].ask].seller;
            && |w'.auctions| == |w.auctions| && w' == w.(auctions := w'.auctions)
            && w'.auctions[a] == (if row.status == Active && seller != admin then row.(stopAt := now) else row)
            && WellFormed(w')
            && (row.status == Active && seller != admin ==> Step(w', StopDue(now)).auctions[a] == row.(status := Stopped, stopAt := now))
  {
    StatusIsWellFormed(w, MassCancel(admin, now));
    DueAuctionsStop(Step(w, MassCancel(admin, now)), now, a);
  }

  /** The active auctions of other sellers among the first n. */
  function Affected(w: World, admin: Address, n: nat): set<nat>
    requires WellFormed(w) && n <= |w.auctions|
  {
    set a: nat | a < n && w.auctions[a].status == Active && w.asks[w.auctions[a].ask].seller != admin
  }

  lemma OneMoreAffected(w: World, admin: Address, n: nat)
    requires WellFormed(w) && n < |w.auctions|
    ensures |Affected(w, admin, n + 1)| == |Affected(w, admin, n)| + (if Foreign(w, n, admin) then 1 else 0)
  {
    var before, after := Affected(w, admin, n), Affected(w, admin, n + 1);
    if Foreign(w, n, admin) {
      assert after == before + {n};
    } else {
      assert after == before;
    }
  }

  /** And its answer is how many these are. */
  lemma {:induction false} ForeignCountIsSize(w: World, admin: Address, n: nat)
    requires WellFormed(w) && n <= |w.auctions|
    ensures ForeignCount(w, admin, n) == |Affected(w, admin, n)|
  {
    if n > 0 {
      ForeignCountIsSize(w, admin, n - 1);
      OneMoreAffected(w, admin, n - 1);
    } else {
      assert Affected(w, admin, 0) == {};
    }
  }
}
