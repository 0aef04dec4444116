/** What the daemons write for a call, for a sale and for a row of money_transfer, in terms of rows, accounts and
    balances (src/escrow/unique.ts, src/escrow/kusama.ts, src/escrow/service.ts). */
module EscrowLaws {
  import opened Wrappers
  import opened Tables
  import opened Commission
  import opened Sums
  import opened Contract
  import opened EscrowIndex
  import opened EscrowBooks
  import opened EscrowTurns

  // ---------------------------------------------------------------- offers and trades

  /** The row is an offer of the token that is active or was removed by the administrator. */
  predicate Offers(ask: Ask, nft: Nft) {
    ask.collection == IdOf(nft.collection) && ask.token == nft.id && (ask.status == AskActive || ask.status == AskRemoved)
  }

  /** The offers of the token are cancelled, and no other row changes. */
  predicate OffersCancelled(asks: seq<Ask>, asks': seq<Ask>, nft: Nft) {
    |asks| <= |asks'|
    && forall i :: 0 <= i < |asks| ==> asks'[i] == if Offers(asks[i], nft) then asks[i].(status := AskCancelled) else asks[i]
  }

  /** A scanned listing cancels the token's offers and, if it was made on the market contract, adds the new one; other
      collections than the managed ones are passed over. */
  lemma ListingReplacesOffer(ix: Index, cfg: Config, e: Entry)
    requires e.call.AddAsk?
    ensures var ix', nft := IndexCall(ix, cfg, e), e.call.nft;
            if IdOf(nft.collection) !in cfg.managed then ix' == ix
            else
              && ix'.trades == ix.trades && OffersCancelled(ix.asks, ix'.asks, nft)
              && ix'.asks[|ix.asks|..]
                 == if e.target == cfg.market
                    then [Ask(AskActive, IdOf(nft.collection), nft.id, e.call.price, e.signer, e.target, None)] else []
  {
  }

  /** A scanned cancellation only cancels them. */
  lemma CancellationClosesOffer(ix: Index, cfg: Config, e: Entry)
    requires e.call.CancelAsk?
    ensures var ix' := IndexCall(ix, cfg, e);
            if IdOf(e.call.nft.collection) !in cfg.managed then ix' == ix
            else ix'.trades == ix.trades && |ix'.asks| == |ix.asks| && OffersCancelled(ix.asks, ix'.asks, e.call.nft)
  {
  }

  /** A scanned sale of a token with an offer records one trade, from the seller of the offer to the buyer, its price
      without the commission and the commission adding up to the price of the offer, and closes the active offers. */
  lemma SaleRecordsTrade(ix: Index, cfg: Config, e: Entry, i: nat)
    requires e.call.BuyKSM? && FindLive(ix.asks, IdOf(e.call.nft.collection), e.call.nft.id) == Some(i)
    ensures i < |ix.asks| && Offers(ix.asks[i], e.call.nft)
    ensures var ix', ask := IndexCall(ix, cfg, e), ix.asks[i];
            && |ix'.trades| == |ix.trades| + 1
            && (var trade := ix'.trades[|ix.trades|];
                && ix'.trades == ix.trades + [trade]
                && trade == Trade(ask.collection, ask.token, trade.price, ask.seller, e.call.buyer,
                                  ask.price, ask.price - trade.price, FixedPrice)
                && FitsPrice(ask.price, cfg.commission, trade.price))
            && |ix'.asks| == |ix.asks|
            && forall j :: 0 <= j < |ix.asks| ==>
                 ix'.asks[j] == if Offers(ix.asks[j], e.call.nft) && ix.asks[j].status == AskActive
                                then ix.asks[j].(status := AskBought, blockBuy := Some(e.block)) else ix.asks[j]
  {
    RecordedFits(ix.asks[i].price, cfg.commission);
  }

  /** A sale without an offer, and every other call, leaves offers and trades as they are. */
  lemma OtherCallsPass(ix: Index, cfg: Config, e: Entry)
    requires e.call.BuyKSM? ==> forall i :: 0 <= i < |ix.asks| ==> !Offers(ix.asks[i], e.call.nft)
    requires !e.call.AddAsk? && !e.call.CancelAsk?
    ensures IndexCall(ix, cfg, e) == ix
  {
    if e.call.BuyKSM? {
      var found := FindLive(ix.asks, IdOf(e.call.nft.collection), e.call.nft.id);
      if found.Some? {
        assert Offers(ix.asks[found.value], e.call.nft);
        assert false;
      }
    }
  }

  /** The offers that a mass removal takes away: the active ones of other sellers. */
  function TakenAway(asks: seq<Ask>, admin: Address): set<nat> {
    set i: nat | i < |asks| && asks[i].status == AskActive && asks[i].seller != admin
  }

  /** Exactly these become removed, no other row changes, and the answer is their number. */
  lemma {:induction false} RemovalTakesOthersOffers(asks: seq<Ask>, admin: Address)
    ensures var asks' := RemoveByAdmin(asks, admin);
            |asks'| == |asks|
            && forall i :: 0 <= i < |asks| ==> asks'[i] == if i in TakenAway(asks, admin) then asks[i].(status := AskRemoved) else asks[i]
    ensures RemovedCount(asks, admin) == |TakenAway(asks, admin)|
  {
    if asks != [] {
      var n := |asks| - 1;
      RemovalTakesOthersOffers(asks[..n], admin);
      var before := TakenAway(asks[..n], admin);
      assert TakenAway(asks, admin) == if asks[n].status == AskActive && asks[n].seller != admin then before + {n} else before;
    }
  }

  // ---------------------------------------------------------------- one row of money_transfer

  ghost predicate OnlyBalance(m: Market, m': Market, account: Address, change: int) {
    && Get(m'.balances, account) == Get(m.balances, account) + change
    && (forall x :: x != account ==> Get(m'.balances, x) == Get(m.balances, x))
    && m' == m.(balances := m'.balances)
  }

  /** The contract takes the change of a row: its sender is an escrow account, and the balance stays in range. */
  predicate TakesChange(m: Market, operator: Address, t: Transfer) {
    && operator in m.escrows
    && (if t.amount < 0 then -t.amount <= Get(m.balances, t.account) else Get(m.balances, t.account) + t.amount < WORD_LIMIT)
  }

  /** Processing a deposit row moves the balance of its account by its signed amount, if the transaction lands and the
      contract takes it, and records which; no other row and no other balance changes. */
  lemma ProcessingMovesBalance(b: Books, row: nat, landed: bool)
    requires row < |b.transfers|
    ensures var b', t := RowProcessed(b, row, landed), b.transfers[row];
            && |b'.transfers| == |b.transfers|
            && (if landed && TakesChange(b.market, b.operator, t)
                then b'.transfers == b.transfers[row := t.(status := Completed)] && OnlyBalance(b.market, b'.market, t.account, t.amount)
                     && b'.sends == b.sends + [row]
                else b'.transfers == b.transfers[row := t.(status := Failed)] && b'.market == b.market && b'.sends == b.sends)
            && b' == b.(transfers := b'.transfers, market := b'.market, sends := b'.sends)
  {
  }

  /** Paying a withdraw row takes its amount from the market's KSM, if the transfer lands. */
  lemma PayingMovesVault(b: Books, row: nat, landed: bool)
    requires row < |b.transfers|
    ensures var b', t := PaidOut(b, row, landed), b.transfers[row];
            && |b'.transfers| == |b.transfers|
            && b'.transfers == b.transfers[row := t.(status := if landed then Completed else Failed)]
            && b'.vault == (if landed then b.vault - t.amount else b.vault)
            && b'.sends == (if landed then b.sends + [row] else b.sends)
            && b' == b.(transfers := b'.transfers, vault := b'.vault, sends := b'.sends)
  {
  }

  // ---------------------------------------------------------------- a sale to its end

  /** A scanned sale debits the seller of the offer by its price at once and records a payout of the price without the
      commission to the same seller; the buyer's balance is not touched. */
  lemma SalePaysSeller(b: Books, landed: bool, i: nat)
    requires b.unique == Free && b.scanned < |b.calls| && b.calls[b.scanned].entry.call.BuyKSM?
    requires var nft := b.calls[b.scanned].entry.call.nft; FindLive(b.index.asks, IdOf(nft.collection), nft.id) == Some(i)
    ensures i < |b.index.asks|
    ensures var b', n, ask := CallHandled(b, landed), |b.transfers|, b.index.asks[i];
            var debit := Transfer(Deposit, -ask.price, TransferPending, ask.seller);
            && b'.unique == Free && b'.scanned == b.scanned + 1 && b'.vault == b.vault
            && |b'.transfers| == n + 2 && b'.transfers[..n] == b.transfers
            && (if landed && TakesChange(b.market, b.operator, debit)
                then b'.transfers[n] == debit.(status := Completed) && OnlyBalance(b.market, b'.market, ask.seller, -ask.price)
                     && b'.sends == b.sends + [n]
                else b'.transfers[n] == debit.(status := Failed) && b'.market == b.market && b'.sends == b.sends)
            && (var payout := b'.transfers[n + 1];
                && payout == Transfer(Withdraw, payout.amount, TransferPending, ask.seller)
                && FitsPrice(ask.price, b.cfg.commission, payout.amount))
  {
    var sold, n := AfterScan(b), |b.transfers|;
    var queued := WithSaleRow(sold);
    RecordedFits(b.index.asks[i].price, b.cfg.commission);
    ProcessingMovesBalance(queued, n, landed);
    assert queued.transfers == b.transfers + [Transfer(Deposit, -b.index.asks[i].price, TransferPending, b.index.asks[i].seller)];
  }

  /** A withdrawal from the contract is found with the balance it emptied, and recorded as a payout to the account that
      held it. */
  lemma WithdrawalIsPaidOut(b: Books, sender: Address, now: nat, account: Address, landed: bool)
    requires b.unique == Free && b.scanned == |b.calls|
    requires Succeeds(b.market, Called(sender, now, WithdrawAllKSM(account)))
    ensures var found := Step(b, OnChain(Called(sender, now, WithdrawAllKSM(account))));
            && |found.calls| == |b.calls| + 1
            && CallHandled(found, landed).transfers
               == b.transfers + [Transfer(Withdraw, Get(b.market.balances, account), TransferPending, account)]
            && CallHandled(found, landed).market == found.market && CallHandled(found, landed).scanned == |found.calls|
  {
  }

  /** A KSM transfer that arrived is recorded as a deposit of its sender. */
  lemma ArrivalIsCredited(b: Books, amount: nat, account: Address)
    requires b.kusama == Resting && b.taken == |b.arrivals|
    ensures var b' := Step(Step(b, Arrives(amount, account)), ScanDeposit);
            && b'.transfers == b.transfers + [Transfer(Deposit, amount, TransferPending, account)]
            && b'.vault == b.vault + amount && b'.taken == |b'.arrivals| && b'.market == b.market
  {
  }

  // ---------------------------------------------------------------- nothing is paid without a cause

  predicate SoldFor(trades: seq<Trade>, seller: Address, originPrice: int) {
    exists k :: 0 <= k < |trades| && trades[k].seller == seller && trades[k].originPrice == originPrice
  }

  predicate EarnedBy(trades: seq<Trade>, seller: Address, price: int) {
    exists k :: 0 <= k < |trades| && trades[k].seller == seller && trades[k].price == price
  }

  predicate ArrivedOf(arrivals: seq<Payout>, account: Address, amount: int) {
    exists k :: 0 <= k < |arrivals| && arrivals[k] == Payout(amount, account)
  }

  /** A call on the market contract emptied the balance of the account, which held the amount. */
  predicate WithdrawnBy(calls: seq<Scan>, market: Address, account: Address, amount: int) {
    exists k :: 0 <= k < |calls| && calls[k].entry.target == market && calls[k].entry.call == WithdrawAllKSM(account)
                && calls[k].emitted == amount
  }

  /** What a row moves came in from its account, was the price of a sale of its account's, was what a sale earned it, or
      was its balance on the contract. */
  predicate HasCause(b: Books, t: Transfer) {
    match t.kind
    case Deposit => ArrivedOf(b.arrivals, t.account, t.amount) || SoldFor(b.index.trades, t.account, -t.amount)
    case Withdraw => EarnedBy(b.index.trades, t.account, t.amount) || WithdrawnBy(b.calls, b.cfg.market, t.account, t.amount)
  }

  predicate DeskHasCause(b: Books) {
    match b.unique
    case Free => true
    case Sold(price, next) => SoldFor(b.index.trades, next.account, price) && EarnedBy(b.index.trades, next.account, next.amount)
    case Queued(_, next) => EarnedBy(b.index.trades, next.account, next.amount)
    case Sending(_, after) => after.Some? ==> EarnedBy(b.index.trades, after.value.account, after.value.amount)
    case Recording(_, _, after) => after.Some? ==> EarnedBy(b.index.trades, after.value.account, after.value.amount)
    case Owing(next) => EarnedBy(b.index.trades, next.account, next.amount)
  }

  predicate AllCaused(b: Books) {
    DeskHasCause(b) && forall i :: 0 <= i < |b.transfers| ==> HasCause(b, b.transfers[i])
  }

  /** What has happened stays. */
  predicate Remembers(b: Books, b': Books) {
    b.index.trades <= b'.index.trades && b.calls <= b'.calls && b.arrivals <= b'.arrivals && b'.cfg == b.cfg
  }

  lemma CausesStay(b: Books, b': Books, t: Transfer)
    requires Remembers(b, b') && HasCause(b, t)
    ensures HasCause(b', t)
  {
    SalesStay(b.index.trades, b'.index.trades, t.account, -t.amount);
    SalesStay(b.index.trades, b'.index.trades, t.account, t.amount);
    if k :| 0 <= k < |b.calls| && b.calls[k].entry.target == b.cfg.market && b.calls[k].entry.call == WithdrawAllKSM(t.account)
            && b.calls[k].emitted == t.amount {
      assert b'.calls[k] == b.calls[k];
    }
    if k :| 0 <= k < |b.arrivals| && b.arrivals[k] == Payout(t.amount, t.account) {
      assert b'.arrivals[k] == b.arrivals[k];
    }
  }

  lemma SalesStay(trades: seq<Trade>, trades': seq<Trade>, seller: Address, amount: int)
    requires trades <= trades'
    ensures SoldFor(trades, seller, amount) ==> SoldFor(trades', seller, amount)
    ensures EarnedBy(trades, seller, amount) ==> EarnedBy(trades', seller, amount)
  {
    if k :| 0 <= k < |trades| && trades[k].seller == seller && trades[k].originPrice == amount {
      assert trades'[k] == trades[k];
    }
    if k :| 0 <= k < |trades| && trades[k].seller == seller && trades[k].price == amount {
      assert trades'[k] == trades[k];
    }
  }

  /** Rows change their status only, and new ones have a cause. */
  lemma RowsStayCaused(b: Books, b': Books)
    requires AllCaused(b) && Remembers(b, b') && DeskHasCause(b')
    requires |b.transfers| <= |b'.transfers|
    requires forall i :: 0 <= i < |b.transfers| ==> b'.transfers[i].(status := b.transfers[i].status) == b.transfers[i]
    requires forall i :: |b.transfers| <= i < |b'.transfers| ==> HasCause(b', b'.transfers[i])
    ensures AllCaused(b')
  {
    forall i | 0 <= i < |b.transfers| ensures HasCause(b', b'.transfers[i]) {
      CausesStay(b, b', b.transfers[i]);
    }
  }

  lemma ScanKeepsCauses(b: Books)
    requires AllCaused(b) && b.unique == Free && b.scanned < |b.calls|
    ensures AllCaused(AfterScan(b))
  {
    var b', call := AfterScan(b), b.calls[b.scanned].entry.call;
    if call.BuyKSM? {
      var found := FindLive(b.index.asks, IdOf(call.nft.collection), call.nft.id);
      if found.Some? {
        SaleRecordsTrade(b.index, b.cfg, b.calls[b.scanned].entry, found.value);
        assert b'.index.trades[|b.index.trades|] == FixedPriceTrade(b.index.asks[found.value], call.buyer, b.cfg.commission);
      }
    }
    RowsStayCaused(b, b');
  }

  lemma SoldKeepsCauses(b: Books, choice: nat, landed: bool)
    requires AllCaused(b) && (b.unique.Sold? || b.unique.Owing?)
    ensures AllCaused(AfterUniqueWork(b, choice, landed))
  {
    var b' := AfterUniqueWork(b, choice, landed);
    assert |b'.transfers| == |b.transfers| + 1 && b'.transfers[..|b.transfers|] == b.transfers;
    RowsStayCaused(b, b');
  }

  lemma UniqueWorkKeepsCauses(b: Books, choice: nat, landed: bool)
    requires AllCaused(b)
    ensures AllCaused(AfterUniqueWork(b, choice, landed))
  {
    if b.unique.Sold? || b.unique.Owing? {
      SoldKeepsCauses(b, choice, landed);
    } else {
      RowsStayCaused(b, AfterUniqueWork(b, choice, landed));
    }
  }

  lemma KusamaWorkKeepsCauses(b: Books, choice: nat, landed: bool)
    requires AllCaused(b)
    ensures AllCaused(AfterKusamaWork(b, choice, landed))
  {
    RowsStayCaused(b, AfterKusamaWork(b, choice, landed));
  }

  lemma StepKeepsCauses(b: Books, e: Event)
    requires AllCaused(b)
    ensures AllCaused(Step(b, e))
  {
    match e
    case ScanCall => if b.unique == Free && b.scanned < |b.calls| { ScanKeepsCauses(b); }
    case UniqueWork(choice, landed) => UniqueWorkKeepsCauses(b, choice, landed);
    case KusamaWork(choice, landed) => KusamaWorkKeepsCauses(b, choice, landed);
    case _ => RowsStayCaused(b, Step(b, e));
  }

  /** In every run, whatever interleaves and crashes, no row moves anything without such a cause. */
  lemma {:induction false} EveryRowHasCause(b: Books, events: seq<Event>)
    requires Opened(b)
    ensures AllCaused(RunBooks(b, events))
  {
    if events != [] {
      EveryRowHasCause(b, events[..|events| - 1]);
      StepKeepsCauses(RunBooks(b, events[..|events| - 1]), events[|events| - 1]);
    }
  }
}
