/** What the books of the fixed-price market keep: no row moves money twice, and the KSM held is the balances on the
    contract, the commissions and everything under way, with the debits of sales counted as negative. */
module EscrowAccounting {
  import opened Wrappers
  import opened Tables
  import opened Contract
  import opened ContractInvariants
  import opened EscrowIndex
  import opened Sums
  import opened EscrowBooks

  // ---------------------------------------------------------------- sums

  /** The amounts of the rows of a kind whose transaction has not taken effect. */
  function Outstanding(transfers: seq<Transfer>, sends: seq<nat>, kind: Kind): int {
    if transfers == [] then 0
    else
      var n := |transfers| - 1;
      Outstanding(transfers[..n], sends, kind) + (if transfers[n].kind == kind && n !in sends then transfers[n].amount else 0)
  }

  /** The same as the table tells it: the rows that are not COMPLETED. */
  function Uncompleted(transfers: seq<Transfer>, kind: Kind): int {
    if transfers == [] then 0
    else
      var n := |transfers| - 1;
      Uncompleted(transfers[..n], kind)
      + (if transfers[n].kind == kind && transfers[n].status != Completed then transfers[n].amount else 0)
  }

  function Commissions(trades: seq<Trade>): int {
    if trades == [] then 0
    else Commissions(trades[..|trades| - 1]) + trades[|trades| - 1].commission
  }

  /** What the calls from position k on have withdrawn from the contract. */
  function EmittedFrom(calls: seq<Scan>, k: nat): int
    decreases |calls| - k
  {
    if k >= |calls| then 0 else calls[k].emitted + EmittedFrom(calls, k + 1)
  }

  /** What arrived from position k on. */
  function ArrivedFrom(arrivals: seq<Payout>, k: nat): int
    decreases |arrivals| - k
  {
    if k >= |arrivals| then 0 else arrivals[k].amount + ArrivedFrom(arrivals, k + 1)
  }

  lemma AddRowOutstanding(transfers: seq<Transfer>, sends: seq<nat>, row: Transfer, kind: Kind)
    requires |transfers| !in sends
    ensures Outstanding(transfers + [row], sends, kind)
         == Outstanding(transfers, sends, kind) + (if row.kind == kind then row.amount else 0)
  {
    assert (transfers + [row])[..|transfers|] == transfers;
  }

  lemma {:induction false} MarkOutstanding(transfers: seq<Transfer>, sends: seq<nat>, row: nat, status: TransferStatus, kind: Kind)
    ensures Outstanding(Mark(transfers, row, status), sends, kind) == Outstanding(transfers, sends, kind)
  {
    if transfers != [] {
      var n := |transfers| - 1;
      MarkOutstanding(transfers[..n], sends, row, status, kind);
      assert Mark(transfers, row, status)[..n] == Mark(transfers[..n], row, status);
    }
  }

  lemma {:induction false} SendOutstanding(transfers: seq<Transfer>, sends: seq<nat>, row: nat, kind: Kind)
    requires row !in sends
    ensures Outstanding(transfers, sends + [row], kind) == Outstanding(transfers, sends, kind)
         - (if row < |transfers| && transfers[row].kind == kind then transfers[row].amount else 0)
  {
    if transfers != [] {
      var n := |transfers| - 1;
      SendOutstanding(transfers[..n], sends, row, kind);
      assert n in sends + [row] <==> n in sends || n == row;
    }
  }

  lemma {:induction false} OutstandingIsUncompleted(transfers: seq<Transfer>, sends: seq<nat>, kind: Kind)
    requires forall i :: 0 <= i < |transfers| ==> (i in sends <==> transfers[i].status == Completed)
    ensures Outstanding(transfers, sends, kind) == Uncompleted(transfers, kind)
  {
    if transfers != [] {
      OutstandingIsUncompleted(transfers[..|transfers| - 1], sends, kind);
    }
  }

  lemma TradeCommission(trades: seq<Trade>, trade: Trade)
    ensures Commissions(trades + [trade]) == Commissions(trades) + trade.commission
  {
    assert (trades + [trade])[..|trades|] == trades;
  }

  lemma {:induction false} CallEmitted(calls: seq<Scan>, s: Scan, k: nat)
    requires k <= |calls|
    ensures EmittedFrom(calls + [s], k) == EmittedFrom(calls, k) + s.emitted
    decreases |calls| - k
  {
    if k < |calls| {
      CallEmitted(calls, s, k + 1);
    } else {
      assert EmittedFrom(calls + [s], k + 1) == 0;
    }
  }

  lemma {:induction false} OneMoreArrived(arrivals: seq<Payout>, p: Payout, k: nat)
    requires k <= |arrivals|
    ensures ArrivedFrom(arrivals + [p], k) == ArrivedFrom(arrivals, k) + p.amount
    decreases |arrivals| - k
  {
    if k < |arrivals| {
      OneMoreArrived(arrivals, p, k + 1);
    } else {
      assert ArrivedFrom(arrivals + [p], k + 1) == 0;
    }
  }

  // ---------------------------------------------------------------- at most one transaction for a row

  predicate NoRepeats(s: seq<nat>) {
    forall i, j :: 0 <= i < j < |s| ==> s[i] != s[j]
  }

  predicate AtUniqueDesk(b: Books) {
    match b.unique
    case Queued(row, _) => PendingRow(b, Deposit, row)
    case Sending(row, _) => UnderWay(b, Deposit, row) && row !in b.sends
    case Recording(row, ok, _) => UnderWay(b, Deposit, row) && (ok <==> row in b.sends)
    case _ => true
  }

  predicate AtKusamaDesk(b: Books) {
    match b.kusama
    case Resting => true
    case Transferring(row) => UnderWay(b, Withdraw, row) && row !in b.sends
    case Settling(row, ok) => UnderWay(b, Withdraw, row) && (ok <==> row in b.sends)
  }

  predicate UnderWay(b: Books, kind: Kind, row: nat) {
    row < |b.transfers| && b.transfers[row].kind == kind && b.transfers[row].status == InProgress
  }

  /** Money has moved for every COMPLETED row, and for no PENDING or FAILED one. */
  predicate StatusesTell(b: Books) {
    && (forall i :: 0 <= i < |b.transfers| && b.transfers[i].status == Completed ==> i in b.sends)
    && (forall i :: i in b.sends ==> i < |b.transfers| && b.transfers[i].status in {InProgress, Completed})
  }

  /** Holds in every run, whatever crashes. */
  predicate Filed(b: Books) {
    b.scanned <= |b.calls| && b.taken <= |b.arrivals| && NoRepeats(b.sends) && StatusesTell(b) && AtUniqueDesk(b) && AtKusamaDesk(b)
  }

  lemma AddRowKeepsFiled(b: Books, row: Transfer)
    requires Filed(b) && row.status == TransferPending
    ensures Filed(AddRow(b, row))
  {
  }

  lemma StartKeepsFiled(b: Books, row: nat, after: Option<Payout>)
    requires Filed(b) && PendingRow(b, Deposit, row)
    ensures Filed(b.(transfers := Mark(b.transfers, row, InProgress), unique := Sending(row, after)))
  {
  }

  lemma SubmitKeepsFiled(b: Books, row: nat, after: Option<Payout>, landed: bool)
    requires Filed(b) && b.unique == Sending(row, after)
    ensures Filed(AfterSubmit(b, row, after, landed))
  {
  }

  lemma RecordKeepsFiled(b: Books, row: nat, ok: bool, after: Option<Payout>)
    requires Filed(b) && b.unique == Recording(row, ok, after)
    ensures Filed(AfterRecord(b, row, ok, after))
  {
  }

  lemma UniqueWorkKeepsFiled(b: Books, choice: nat, landed: bool)
    requires Filed(b)
    ensures Filed(AfterUniqueWork(b, choice, landed))
  {
    match b.unique
    case Free => if PendingRow(b, Deposit, choice) { StartKeepsFiled(b, choice, None); }
    case Sold(price, next) => AddRowKeepsFiled(b, Transfer(Deposit, -price, TransferPending, next.account));
    case Queued(row, next) => StartKeepsFiled(b, row, Some(next));
    case Sending(row, after) => SubmitKeepsFiled(b, row, after, landed);
    case Recording(row, ok, after) => RecordKeepsFiled(b, row, ok, after);
    case Owing(next) => AddRowKeepsFiled(b, Transfer(Withdraw, next.amount, TransferPending, next.account));
  }

  lemma KusamaWorkKeepsFiled(b: Books, choice: nat, landed: bool)
    requires Filed(b)
    ensures Filed(AfterKusamaWork(b, choice, landed))
  {
  }

  lemma ScanKeepsFiled(b: Books)
    requires Filed(b) && b.unique == Free && b.scanned < |b.calls|
    ensures Filed(AfterScan(b))
  {
  }

  lemma StepKeepsFiled(b: Books, e: Event)
    requires Filed(b)
    ensures Filed(Step(b, e))
  {
    match e
    case UniqueWork(choice, landed) => UniqueWorkKeepsFiled(b, choice, landed);
    case KusamaWork(choice, landed) => KusamaWorkKeepsFiled(b, choice, landed);
    case ScanCall => if b.unique == Free && b.scanned < |b.calls| { ScanKeepsFiled(b); }
    case _ =>
  }

  lemma {:induction false} RunIsFiled(b: Books, events: seq<Event>)
    requires Opened(b)
    ensures Filed(RunBooks(b, events))
  {
    if events != [] {
      RunIsFiled(b, events[..|events| - 1]);
      StepKeepsFiled(RunBooks(b, events[..|events| - 1]), events[|events| - 1]);
    }
  }

  /** Over every run, with crashes and restarts at any point, no row's transaction takes effect twice; it has taken
      effect when the row is COMPLETED and it has not while the row is PENDING or FAILED. */
  lemma EachRowMovesMoneyOnce(b: Books, events: seq<Event>, i: nat)
    requires Opened(b) && i < |RunBooks(b, events).transfers|
    ensures var b' := RunBooks(b, events);
            && multiset(b'.sends)[i] <= 1
            && (b'.transfers[i].status == Completed ==> multiset(b'.sends)[i] == 1)
            && (b'.transfers[i].status in {TransferPending, Failed} ==> multiset(b'.sends)[i] == 0)
  {
    var b' := RunBooks(b, events);
    RunIsFiled(b, events);
    CountOne(b'.sends, i);
  }

  lemma {:induction false} CountOne(s: seq<nat>, x: nat)
    requires NoRepeats(s)
    ensures multiset(s)[x] == if x in s then 1 else 0
  {
    if s != [] {
      var n := |s| - 1;
      assert s == s[..n] + [s[n]];
      CountOne(s[..n], x);
    }
  }

  /** Money moves only in the step that sends a row, by the amount of that row, and that step is logged. */
  lemma WorkMovesItsRow(b: Books, choice: nat, landed: bool)
    requires Filed(b)
    ensures var b' := AfterUniqueWork(b, choice, landed);
            && b'.vault == b.vault
            && (b'.market != b.market ==>
                  && b'.sends == b.sends + [b.unique.row]
                  && Sum(b'.market.balances) == Sum(b.market.balances) + b.transfers[b.unique.row].amount)
    ensures var b' := AfterKusamaWork(b, choice, landed);
            && b'.market == b.market
            && (b'.vault != b.vault ==>
                  && b'.sends == b.sends + [b.kusama.row]
                  && b'.vault == b.vault - b.transfers[b.kusama.row].amount)
  {
    if b.unique.Sending? && BalanceChange(b.market, b.operator, b.transfers[b.unique.row]).Some? {
      BalanceChangeMoves(b.market, b.operator, b.transfers[b.unique.row]);
    }
  }

  lemma BalanceChangeMoves(m: Market, operator: Address, t: Transfer)
    requires BalanceChange(m, operator, t).Some?
    ensures Sum(BalanceChange(m, operator, t).value.balances) == Sum(m.balances) + t.amount
  {
    if t.amount < 0 {
      WithdrawKSMMoves(m, operator, -t.amount, t.account);
    } else {
      DepositKSMMoves(m, operator, t.amount, t.account);
    }
  }

  // ---------------------------------------------------------------- the account

  /** What the sale at the Unique desk has recorded so far and still has to record. */
  function Owed(desk: UniqueDesk): int {
    match desk
    case Free => 0
    case Sold(price, next) => next.amount - price
    case Queued(_, next) => next.amount
    case Sending(_, after) => if after.Some? then after.value.amount else 0
    case Recording(_, _, after) => if after.Some? then after.value.amount else 0
    case Owing(next) => next.amount
  }

  function Debts(b: Books): int {
    Outstanding(b.transfers, b.sends, Deposit) + Outstanding(b.transfers, b.sends, Withdraw)
  }

  function Emissions(b: Books): int {
    EmittedFrom(b.calls, b.scanned)
  }

  function Unrecorded(b: Books): int {
    ArrivedFrom(b.arrivals, b.taken)
  }

  /** The KSM that arrived and was not paid out is the balances on the contract, the rows whose transaction has not
      taken effect, the commissions earned, the withdrawals not scanned yet, the open part of a sale and the
      arrivals not recorded yet. */
  ghost predicate Balanced(b: Books) {
    b.vault == Sum(b.market.balances) + Debts(b) + Commissions(b.index.trades) + Emissions(b) + Owed(b.unique) + Unrecorded(b)
  }

  lemma AddRowDebts(b: Books, row: Transfer)
    requires Filed(b)
    ensures Debts(AddRow(b, row)) == Debts(b) + row.amount
  {
    AddRowOutstanding(b.transfers, b.sends, row, Deposit);
    AddRowOutstanding(b.transfers, b.sends, row, Withdraw);
  }

  lemma MarkDebts(b: Books, b': Books, row: nat, status: TransferStatus)
    requires b'.transfers == Mark(b.transfers, row, status) && b'.sends == b.sends
    ensures Debts(b') == Debts(b)
  {
    MarkOutstanding(b.transfers, b.sends, row, status, Deposit);
    MarkOutstanding(b.transfers, b.sends, row, status, Withdraw);
  }

  lemma SendDebts(b: Books, b': Books, row: nat)
    requires row < |b.transfers| && row !in b.sends && b'.transfers == b.transfers && b'.sends == b.sends + [row]
    ensures Debts(b') == Debts(b) - b.transfers[row].amount
  {
    SendOutstanding(b.transfers, b.sends, row, Deposit);
    SendOutstanding(b.transfers, b.sends, row, Withdraw);
  }

  lemma SubmitKeepsBalance(b: Books, row: nat, after: Option<Payout>, landed: bool)
    requires Filed(b) && Balanced(b) && b.unique == Sending(row, after)
    ensures Balanced(AfterSubmit(b, row, after, landed))
  {
    if BalanceChange(b.market, b.operator, b.transfers[row]).Some? && landed {
      BalanceChangeMoves(b.market, b.operator, b.transfers[row]);
      SendDebts(b, AfterSubmit(b, row, after, landed), row);
    }
  }

  lemma UniqueWorkKeepsBalance(b: Books, choice: nat, landed: bool)
    requires Filed(b) && Balanced(b)
    ensures Balanced(AfterUniqueWork(b, choice, landed))
  {
    var b' := AfterUniqueWork(b, choice, landed);
    match b.unique
    case Free => if PendingRow(b, Deposit, choice) { MarkDebts(b, b', choice, InProgress); }
    case Sold(price, next) => AddRowDebts(b, Transfer(Deposit, -price, TransferPending, next.account));
    case Queued(row, next) => MarkDebts(b, b', row, InProgress);
    case Sending(row, after) => SubmitKeepsBalance(b, row, after, landed);
    case Recording(row, ok, after) => MarkDebts(b, b', row, if ok then Completed else Failed);
    case Owing(next) => AddRowDebts(b, Transfer(Withdraw, next.amount, TransferPending, next.account));
  }

  lemma KusamaWorkKeepsBalance(b: Books, choice: nat, landed: bool)
    requires Filed(b) && Balanced(b)
    ensures Balanced(AfterKusamaWork(b, choice, landed))
  {
    var b' := AfterKusamaWork(b, choice, landed);
    match b.kusama
    case Resting => if PendingRow(b, Withdraw, choice) { MarkDebts(b, b', choice, InProgress); }
    case Transferring(row) => if landed { SendDebts(b, b', row); }
    case Settling(row, ok) => MarkDebts(b, b', row, if ok then Completed else Failed);
  }

  /** What is emitted is emitted by a withdrawAllKSM of the market itself, so the daemon takes it up. */
  predicate OwnEmissions(b: Books) {
    forall i :: 0 <= i < |b.calls| && b.calls[i].emitted != 0 ==>
      b.calls[i].entry.target == b.cfg.market && b.calls[i].entry.call.WithdrawAllKSM?
  }

  lemma NextEmission(b: Books)
    requires b.scanned < |b.calls|
    ensures EmittedFrom(b.calls, b.scanned) == b.calls[b.scanned].emitted + EmittedFrom(b.calls, b.scanned + 1)
  {
  }

  /** A scanned sale adds the trade and leaves the rest of the sale to be recorded. */
  lemma ScanSaleTrades(b: Books, i: nat)
    requires b.scanned < |b.calls| && b.calls[b.scanned].entry.call.BuyKSM?
    requires var nft := b.calls[b.scanned].entry.call.nft;
             FindLive(b.index.asks, IdOf(nft.collection), nft.id) == Some(i)
    ensures var ask := b.index.asks[i];
            && AfterScan(b).unique == Sold(ask.price, SalePayout(ask, b.cfg.commission))
            && Commissions(AfterScan(b).index.trades)
               == Commissions(b.index.trades) + FixedPriceTrade(ask, b.calls[b.scanned].entry.call.buyer, b.cfg.commission).commission
  {
    TradeCommission(b.index.trades, FixedPriceTrade(b.index.asks[i], b.calls[b.scanned].entry.call.buyer, b.cfg.commission));
  }

  lemma TradeSplitsPrice(ask: Ask, buyer: Address, commission: nat)
    ensures FixedPriceTrade(ask, buyer, commission).commission == ask.price - SalePayout(ask, commission).amount
  {
  }

  lemma SaleIsOwed(b: Books, b': Books, price: int, next: Payout)
    requires OwnEmissions(b) && Balanced(b) && b.unique == Free && b.scanned < |b.calls|
    requires !b.calls[b.scanned].entry.call.WithdrawAllKSM?
    requires b'.vault == b.vault && b'.market == b.market && b'.transfers == b.transfers && b'.sends == b.sends
    requires b'.arrivals == b.arrivals && b'.taken == b.taken
    requires b'.calls == b.calls && b'.scanned == b.scanned + 1 && b'.unique == Sold(price, next)
    requires Commissions(b'.index.trades) == Commissions(b.index.trades) + price - next.amount
    ensures Balanced(b')
  {
    NextEmission(b);
    assert Debts(b') == Debts(b);
  }

  lemma ScanSaleKeepsBalance(b: Books)
    requires OwnEmissions(b) && Balanced(b) && b.unique == Free && b.scanned < |b.calls|
    requires b.calls[b.scanned].entry.call.BuyKSM?
    ensures Balanced(AfterScan(b))
  {
    var call := b.calls[b.scanned].entry.call;
    match FindLive(b.index.asks, IdOf(call.nft.collection), call.nft.id)
    case None =>
      NextEmission(b);
      assert Debts(AfterScan(b)) == Debts(b);
    case Some(i) =>
      var ask := b.index.asks[i];
      ScanSaleTrades(b, i);
      TradeSplitsPrice(ask, call.buyer, b.cfg.commission);
      SaleIsOwed(b, AfterScan(b), ask.price, SalePayout(ask, b.cfg.commission));
  }

  lemma ScanWithdrawalKeepsBalance(b: Books)
    requires Filed(b) && OwnEmissions(b) && Balanced(b) && b.unique == Free && b.scanned < |b.calls|
    requires b.calls[b.scanned].entry.call.WithdrawAllKSM?
    ensures Balanced(AfterScan(b))
  {
    var s := b.calls[b.scanned];
    NextEmission(b);
    AddRowDebts(b, Transfer(Withdraw, s.emitted, TransferPending, s.entry.call.account));
    assert Debts(b.(scanned := b.scanned + 1)) == Debts(b);
  }

  lemma ScanKeepsBalance(b: Books)
    requires Filed(b) && OwnEmissions(b) && Balanced(b) && b.unique == Free && b.scanned < |b.calls|
    ensures Balanced(AfterScan(b))
  {
    var call := b.calls[b.scanned].entry.call;
    if call.BuyKSM? {
      ScanSaleKeepsBalance(b);
    } else if call.WithdrawAllKSM? {
      ScanWithdrawalKeepsBalance(b);
    } else {
      NextEmission(b);
      assert Debts(AfterScan(b)) == Debts(b);
    }
  }

  /** Escrow rights are used outside the daemon to change what balances add up to. */
  predicate MovesByHand(m: Market, h: Happening) {
    Succeeds(m, h) && ((h.call.DepositKSM? && h.call.amount != 0) || (h.call.WithdrawKSM? && h.call.amount != 0))
  }

  lemma MovesByHandIff(m: Market, h: Happening)
    ensures MovesByHand(m, h) <==> Succeeds(m, h) && Inflow(m, h) + Emitted(m, h.call) != 0
  {
  }

  /** What happens around the contract keeps the account exactly when it is not a deposit or withdrawal by hand. */
  lemma OnChainKeepsBalanceIff(b: Books, h: Happening)
    requires b.scanned <= |b.calls| && Balanced(b)
    ensures Balanced(AfterOnChain(b, h)) <==> !MovesByHand(b.market, h)
  {
    InflowIsSumChange(b.market, h);
    MovesByHandIff(b.market, h);
    if Succeeds(b.market, h) {
      CallEmitted(b.calls, Scan(Entry(h.sender, b.cfg.market, h.now, h.call), Emitted(b.market, h.call)), b.scanned);
    }
    assert Debts(AfterOnChain(b, h)) == Debts(b);
  }

  lemma ForeignKeepsBalance(b: Books, entry: Entry)
    requires b.scanned <= |b.calls| && Balanced(b)
    ensures Balanced(AfterForeign(b, entry))
  {
    CallEmitted(b.calls, Scan(entry, 0), b.scanned);
    assert Debts(AfterForeign(b, entry)) == Debts(b);
  }

  lemma ArrivalKeepsBalance(b: Books, amount: nat, account: Address)
    requires Filed(b) && Balanced(b)
    ensures Balanced(Step(b, Arrives(amount, account)))
  {
    OneMoreArrived(b.arrivals, Payout(amount, account), b.taken);
    assert Debts(Step(b, Arrives(amount, account))) == Debts(b);
  }

  /** Recording an arrival turns it into a row. */
  lemma DepositKeepsBalance(b: Books)
    requires Filed(b) && Balanced(b) && b.taken < |b.arrivals|
    ensures Balanced(AfterDeposit(b, b.arrivals[b.taken].amount, b.arrivals[b.taken].account))
  {
    var p := b.arrivals[b.taken];
    AddRowDebts(b, Transfer(Deposit, p.amount, TransferPending, p.account));
    assert Debts(AfterDeposit(b, p.amount, p.account)) == Debts(AddRow(b, Transfer(Deposit, p.amount, TransferPending, p.account)));
    assert ArrivedFrom(b.arrivals, b.taken) == p.amount + ArrivedFrom(b.arrivals, b.taken + 1);
  }

  /** A call that the daemon passes over keeps the account exactly when it withdrew nothing: a sale that is never
      recorded leaves the seller the balance on the contract. */
  lemma SkipKeepsAccountIff(b: Books)
    requires Balanced(b) && b.unique == Free && b.scanned < |b.calls|
    ensures Balanced(Step(b, SkipCall)) <==> b.calls[b.scanned].emitted == 0
  {
    NextEmission(b);
    assert Debts(Step(b, SkipCall)) == Debts(b);
  }

  lemma StepKeepsOwnEmissions(b: Books, e: Event)
    requires OwnEmissions(b)
    ensures OwnEmissions(Step(b, e)) && Step(b, e).cfg == b.cfg
  {
  }

  function ReadAgainFrom(b: Books, rewind: nat): nat {
    if rewind < b.scanned then rewind else b.scanned
  }

  /** A crash of the Unique daemon shifts the account by the withdrawals it will read again, less the part of a
      sale it had not recorded; so it keeps the account exactly when the two are equal. */
  lemma CrashKeepsAccountIff(b: Books, rewind: nat)
    requires b.scanned <= |b.calls| && Balanced(b)
    ensures Balanced(Step(b, UniqueCrash(rewind)))
            <==> EmittedFrom(b.calls, ReadAgainFrom(b, rewind)) - EmittedFrom(b.calls, b.scanned) == Owed(b.unique)
  {
    assert Debts(Step(b, UniqueCrash(rewind))) == Debts(b);
  }

  function TakenAgainFrom(b: Books, rewind: nat): nat {
    if rewind < b.taken then rewind else b.taken
  }

  /** A crash of the Kusama daemon shifts it by the arrivals it will record again. */
  lemma KusamaCrashKeepsAccountIff(b: Books, rewind: nat)
    requires Balanced(b)
    ensures Balanced(Step(b, KusamaCrash(rewind)))
            <==> ArrivedFrom(b.arrivals, TakenAgainFrom(b, rewind)) == ArrivedFrom(b.arrivals, b.taken)
  {
    assert Debts(Step(b, KusamaCrash(rewind))) == Debts(b);
  }

  /** The condition under which an event keeps the account: four kinds of events can break it. */
  predicate KeepsAccount(b: Books, e: Event) {
    match e
    case OnChain(h) => !MovesByHand(b.market, h)
    case SkipCall => b.unique == Free && b.scanned < |b.calls| ==> b.calls[b.scanned].emitted == 0
    case UniqueCrash(rewind) =>
      EmittedFrom(b.calls, ReadAgainFrom(b, rewind)) - EmittedFrom(b.calls, b.scanned) == Owed(b.unique)
    case KusamaCrash(rewind) => ArrivedFrom(b.arrivals, TakenAgainFrom(b, rewind)) == ArrivedFrom(b.arrivals, b.taken)
    case _ => true
  }

  lemma StepKeepsBalanceIff(b: Books, e: Event)
    requires Filed(b) && OwnEmissions(b) && Balanced(b)
    ensures Balanced(Step(b, e)) <==> KeepsAccount(b, e)
  {
    match e
    case OnChain(h) => OnChainKeepsBalanceIff(b, h);
    case Foreign(entry) => ForeignKeepsBalance(b, entry);
    case AdminRemoval(_) =>
    case ScanCall => if b.unique == Free && b.scanned < |b.calls| { ScanKeepsBalance(b); }
    case SkipCall => if b.unique == Free && b.scanned < |b.calls| { SkipKeepsAccountIff(b); }
    case UniqueWork(choice, landed) => UniqueWorkKeepsBalance(b, choice, landed);
    case Arrives(amount, account) => ArrivalKeepsBalance(b, amount, account);
    case ScanDeposit => if b.kusama == Resting && b.taken < |b.arrivals| { DepositKeepsBalance(b); }
    case KusamaWork(choice, landed) => KusamaWorkKeepsBalance(b, choice, landed);
    case UniqueCrash(rewind) => CrashKeepsAccountIff(b, rewind);
    case KusamaCrash(rewind) => KusamaCrashKeepsAccountIff(b, rewind);
  }

  ghost predicate KeptThroughout(b: Books, events: seq<Event>) {
    forall n :: 0 <= n < |events| ==> KeepsAccount(RunBooks(b, events[..n]), events[n])
  }

  lemma BooksStep(b: Books, events: seq<Event>, n: nat)
    requires n < |events|
    ensures RunBooks(b, events[..n + 1]) == Step(RunBooks(b, events[..n]), events[n])
  {
    assert events[..n + 1][..n] == events[..n];
  }

  lemma {:induction false} RunHasOwnEmissions(b: Books, events: seq<Event>)
    requires Opened(b)
    ensures OwnEmissions(RunBooks(b, events))
  {
    if events != [] {
      RunHasOwnEmissions(b, events[..|events| - 1]);
      StepKeepsOwnEmissions(RunBooks(b, events[..|events| - 1]), events[|events| - 1]);
    }
  }

  lemma {:induction false} BalancedUpTo(b: Books, events: seq<Event>, n: nat)
    requires Opened(b) && KeptThroughout(b, events) && n <= |events|
    ensures Balanced(RunBooks(b, events[..n]))
  {
    if n > 0 {
      BalancedUpTo(b, events, n - 1);
      RunIsFiled(b, events[..n - 1]);
      RunHasOwnEmissions(b, events[..n - 1]);
      BooksStep(b, events, n - 1);
      StepKeepsBalanceIff(RunBooks(b, events[..n - 1]), events[n - 1]);
    }
  }

  /** The account balances after every step of a run, whatever interleaves and crashes, exactly when nobody moves
      balances by hand, no withdrawal is passed over, every restart of the Unique daemon reads again what the
      interrupted sale still owed, and every restart of the Kusama daemon reads nothing of worth again. */
  lemma AccountBalancesIff(b: Books, events: seq<Event>)
    requires Opened(b)
    ensures (forall n :: 0 <= n <= |events| ==> Balanced(RunBooks(b, events[..n]))) <==> KeptThroughout(b, events)
  {
    if KeptThroughout(b, events) {
      forall n | 0 <= n <= |events| ensures Balanced(RunBooks(b, events[..n])) {
        BalancedUpTo(b, events, n);
      }
    }
    if forall n :: 0 <= n <= |events| ==> Balanced(RunBooks(b, events[..n])) {
      forall n | 0 <= n < |events| ensures KeepsAccount(RunBooks(b, events[..n]), events[n]) {
        assert Balanced(RunBooks(b, events[..n])) && Balanced(RunBooks(b, events[..n + 1]));
        RunIsFiled(b, events[..n]);
        RunHasOwnEmissions(b, events[..n]);
        BooksStep(b, events, n);
        StepKeepsBalanceIff(RunBooks(b, events[..n]), events[n]);
      }
    }
  }

  predicate NoCrash(e: Event) {
    !e.UniqueCrash? && !e.KusamaCrash?
  }

  /** A run in which nothing crashes, no withdrawal is passed over and nobody moves balances by hand. */
  ghost predicate Orderly(b: Books, events: seq<Event>) {
    KeptThroughout(b, events) && forall n :: 0 <= n < |events| ==> NoCrash(events[n])
  }

  /** After every step of every orderly interleaving, the account balances. */
  lemma AccountBalances(b: Books, events: seq<Event>)
    requires Opened(b) && Orderly(b, events)
    ensures Balanced(RunBooks(b, events))
  {
    BalancedUpTo(b, events, |events|);
    assert events[..|events|] == events;
  }

  // ---------------------------------------------------------------- the account as the tables tell it

  /** Without crashes, a row whose transaction took effect is COMPLETED or about to be. */
  predicate Told(b: Books) {
    forall i :: i in b.sends ==>
      || (i < |b.transfers| && b.transfers[i].status == Completed)
      || (b.unique.Recording? && b.unique.row == i)
      || (b.kusama.Settling? && b.kusama.row == i)
  }

  lemma StepKeepsTold(b: Books, e: Event)
    requires Filed(b) && Told(b) && NoCrash(e)
    ensures Told(Step(b, e))
  {
    match e
    case UniqueWork(choice, landed) => UniqueWorkKeepsTold(b, choice, landed);
    case KusamaWork(choice, landed) => KusamaWorkKeepsTold(b, choice, landed);
    case ScanCall => if b.unique == Free && b.scanned < |b.calls| { ScanKeepsTold(b); }
    case _ =>
  }

  lemma ScanKeepsTold(b: Books)
    requires Filed(b) && Told(b) && b.unique == Free && b.scanned < |b.calls|
    ensures Told(AfterScan(b))
  {
  }

  lemma UniqueWorkKeepsTold(b: Books, choice: nat, landed: bool)
    requires Filed(b) && Told(b)
    ensures Told(AfterUniqueWork(b, choice, landed))
  {
  }

  lemma KusamaWorkKeepsTold(b: Books, choice: nat, landed: bool)
    requires Filed(b) && Told(b)
    ensures Told(AfterKusamaWork(b, choice, landed))
  {
  }

  lemma {:induction false} RunIsTold(b: Books, events: seq<Event>)
    requires Opened(b) && forall n :: 0 <= n < |events| ==> NoCrash(events[n])
    ensures Told(RunBooks(b, events))
  {
    if events != [] {
      var n := |events| - 1;
      RunIsTold(b, events[..n]);
      RunIsFiled(b, events[..n]);
      StepKeepsTold(RunBooks(b, events[..n]), events[n]);
    }
  }

  predicate AtRest(b: Books) {
    b.unique == Free && b.kusama == Resting
  }

  /** Whenever both daemons are between two rows, the KSM that arrived and was not paid out is the balances on the
      contract, the signed deposit rows and the withdraw rows that are not COMPLETED (failed ones included), the
      commissions, what withdrawAllKSM has emitted and is not scanned yet, and the arrivals not recorded yet. */
  lemma TablesTellTheAccount(b: Books, events: seq<Event>)
    requires Opened(b) && Orderly(b, events) && AtRest(RunBooks(b, events))
    ensures var b' := RunBooks(b, events);
            b'.vault == Sum(b'.market.balances) + Uncompleted(b'.transfers, Deposit) + Uncompleted(b'.transfers, Withdraw)
                      + Commissions(b'.index.trades) + EmittedFrom(b'.calls, b'.scanned) + ArrivedFrom(b'.arrivals, b'.taken)
  {
    var b' := RunBooks(b, events);
    AccountBalances(b, events);
    RunIsFiled(b, events);
    RunIsTold(b, events);
    OutstandingIsUncompleted(b'.transfers, b'.sends, Deposit);
    OutstandingIsUncompleted(b'.transfers, b'.sends, Withdraw);
  }

  /** When everything is scanned and every row is COMPLETED, the market holds the users' balances and its earnings. */
  lemma SettledMarketHoldsItsEarnings(b: Books, events: seq<Event>)
    requires Opened(b) && Orderly(b, events) && AtRest(RunBooks(b, events))
    requires var b' := RunBooks(b, events);
             b'.scanned == |b'.calls| && b'.taken == |b'.arrivals| && forall i :: 0 <= i < |b'.transfers| ==> b'.transfers[i].status == Completed
    ensures var b' := RunBooks(b, events);
            b'.vault == Sum(b'.market.balances) + Commissions(b'.index.trades)
  {
    var b' := RunBooks(b, events);
    TablesTellTheAccount(b, events);
    NothingUncompleted(b'.transfers, Deposit);
    NothingUncompleted(b'.transfers, Withdraw);
  }

  lemma {:induction false} NothingUncompleted(transfers: seq<Transfer>, kind: Kind)
    requires forall i :: 0 <= i < |transfers| ==> transfers[i].status == Completed
    ensures Uncompleted(transfers, kind) == 0
  {
    if transfers != [] {
      NothingUncompleted(transfers[..|transfers| - 1], kind);
    }
  }

  // ---------------------------------------------------------------- crashes

  /** A crash in the middle of a sale that reads the sale again: the account is kept exactly when nothing was owed
      any more, because a sale emits nothing. */
  lemma CrashInSaleKeepsAccountIff(b: Books, rewind: nat)
    requires b.scanned <= |b.calls| && OwnEmissions(b) && Balanced(b) && rewind + 1 == b.scanned
    requires b.calls[rewind].entry.call.BuyKSM?
    ensures Balanced(Step(b, UniqueCrash(rewind))) <==> Owed(b.unique) == 0
  {
    CrashKeepsAccountIff(b, rewind);
    assert EmittedFrom(b.calls, rewind) == b.calls[rewind].emitted + EmittedFrom(b.calls, rewind + 1);
  }
}
