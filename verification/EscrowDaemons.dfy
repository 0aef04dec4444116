/** The two daemons over the tables they share, statement by statement. Each method is tied to what EscrowTurns
    and EscrowIndex say of it: around stands for the part of the books that the method does not touch, and landed
    or lands is the outcome of a chain transaction that would otherwise be accepted. */
module EscrowDaemons {
  import opened Wrappers
  import opened Tables
  import opened Commission
  import opened EscrowIndex
  import opened EscrowBooks
  import opened EscrowTurns
  import opened MarketPlace
  import opened DepositScanning

  /** processBuyKSM on the books. */
  function AfterBuyScan(b: Books, e: Entry, landed: bool): Books
    requires e.call.BuyKSM?
  {
    match FindLive(b.index.asks, IdOf(e.call.nft.collection), e.call.nft.id)
    case None => b
    case Some(i) =>
      var ask := b.index.asks[i];
      Settled(b.(index := IndexCall(b.index, b.cfg, e), unique := Sold(ask.price, SalePayout(ask, b.cfg.commission))), landed)
  }

  /** Scanning a sale to its end moves on by one call and does nothing else besides. */
  lemma HandledSale(b: Books, landed: bool)
    requires b.unique == Free && b.scanned < |b.calls| && b.calls[b.scanned].entry.call.BuyKSM?
    ensures CallHandled(b, landed) == AfterBuyScan(b, b.calls[b.scanned].entry, landed).(scanned := b.scanned + 1)
  {
  }

  /** EscrowService: the tables. sends and vault record what the transactions did on the chains. */
  class EscrowService {
    var asks: seq<Ask>
    var trades: seq<Trade>
    var transfers: seq<Transfer>
    ghost var sends: seq<nat>
    ghost var vault: int

    function Shown(): Index
      reads this
    {
      Index(asks, trades)
    }

    ghost function Tables(around: Books): Books
      reads this
    {
      around.(index := Shown(), transfers := transfers, sends := sends, vault := vault)
    }

    constructor ()
      ensures Shown() == Index([], []) && transfers == [] && sends == [] && vault == 0
    {
      asks, trades, transfers, sends, vault := [], [], [], [], 0;
    }

    method GetActiveAsk(collection: nat, token: nat) returns (r: Option<nat>)
      ensures r == FindLive(asks, collection, token)
      ensures r.Some? ==> r.value < |asks| && IsLive(asks[r.value], collection, token)
      ensures r.None? ==> forall i :: 0 <= i < |asks| ==> !IsLive(asks[i], collection, token)
    {
      r := FindLive(asks, collection, token);
    }

    /** The insert respects the unique index: the token must have no live row. */
    method RegisterAsk(ask: Ask)
      requires OneLivePerToken(asks) && !HasLive(asks, ask.collection, ask.token)
      modifies this`asks
      ensures asks == old(asks) + [ask] && OneLivePerToken(asks)
    {
      OneLiveGrows(asks, ask);
      asks := asks + [ask];
    }

    method CancelAsk(collection: nat, token: nat)
      modifies this`asks
      ensures asks == CancelLive(old(asks), collection, token)
    {
      for k := 0 to |asks|
        invariant |asks| == |old(asks)|
        invariant forall i :: 0 <= i < |asks| ==>
          asks[i] == if i < k then CancelLive(old(asks), collection, token)[i] else old(asks)[i]
      {
        if IsLive(asks[k], collection, token) {
          asks := asks[k := asks[k].(status := AskCancelled)];
        }
      }
    }

    method BuyKSM(collection: nat, token: nat, block: nat)
      modifies this`asks
      ensures asks == MarkBought(old(asks), collection, token, block)
    {
      for k := 0 to |asks|
        invariant |asks| == |old(asks)|
        invariant forall i :: 0 <= i < |asks| ==>
          asks[i] == if i < k then MarkBought(old(asks), collection, token, block)[i] else old(asks)[i]
      {
        if IsActive(asks[k], collection, token) {
          asks := asks[k := asks[k].(status := AskBought, blockBuy := Some(block))];
        }
      }
    }

    /** massFixPriceCancel of the administration */
    method MassFixPriceCancel(admin: Address) returns (affected: nat)
      modifies this`asks
      ensures asks == RemoveByAdmin(old(asks), admin)
      ensures affected == RemovedCount(old(asks), admin)
    {
      affected := 0;
      for k := 0 to |asks|
        invariant |asks| == |old(asks)|
        invariant affected == RemovedCount(old(asks)[..k], admin)
        invariant forall i :: 0 <= i < |asks| ==>
          asks[i] == if i < k then RemoveByAdmin(old(asks), admin)[i] else old(asks)[i]
      {
        assert old(asks)[..k + 1][..k] == old(asks)[..k];
        if asks[k].status == AskActive && asks[k].seller != admin {
          asks := asks[k := asks[k].(status := AskRemoved)];
          affected := affected + 1;
        }
      }
      assert old(asks)[..|asks|] == old(asks);
    }

    method RegisterTrade(buyer: Address, price: int, ask: Ask, block: nat, originPrice: int)
      modifies this`trades, this`asks
      ensures trades == old(trades)
           + [Trade(ask.collection, ask.token, price, ask.seller, buyer, originPrice, originPrice - price, FixedPrice)]
      ensures asks == MarkBought(old(asks), ask.collection, ask.token, block)
    {
      trades := trades + [Trade(ask.collection, ask.token, price, ask.seller, buyer, originPrice, originPrice - price, FixedPrice)];
      BuyKSM(ask.collection, ask.token, block);
    }

    method ModifyContractBalance(amount: int, account: Address) returns (row: nat)
      modifies this`transfers
      ensures row == |old(transfers)| && transfers == old(transfers) + [Transfer(Deposit, amount, TransferPending, account)]
    {
      row := |transfers|;
      transfers := transfers + [Transfer(Deposit, amount, TransferPending, account)];
    }

    method RegisterKusamaWithdraw(amount: int, account: Address)
      modifies this`transfers
      ensures transfers == old(transfers) + [Transfer(Withdraw, amount, TransferPending, account)]
    {
      transfers := transfers + [Transfer(Withdraw, amount, TransferPending, account)];
    }

    method GetPendingContractBalance() returns (r: Option<nat>)
      ensures r == FirstPending(transfers, Deposit)
    {
      r := FirstPending(transfers, Deposit);
    }

    method GetPendingKusamaWithdraw() returns (r: Option<nat>)
      ensures r == FirstPending(transfers, Withdraw)
    {
      r := FirstPending(transfers, Withdraw);
    }

    method UpdateMoneyTransferStatus(row: nat, status: TransferStatus)
      modifies this`transfers
      ensures transfers == Mark(old(transfers), row, status)
    {
      if row < |transfers| {
        transfers := transfers[row := transfers[row].(status := status)];
      }
    }
  }

  class UniqueEscrow {
    const service: EscrowService
    const contract: Storage
    const cfg: Config
    const operator: Address     // the contract owner's account

    constructor (service: EscrowService, contract: Storage, cfg: Config, operator: Address)
      ensures this.service == service && this.contract == contract && this.cfg == cfg && this.operator == operator
    {
      this.service, this.contract, this.cfg, this.operator := service, contract, cfg, operator;
    }

    ghost function State(around: Books): Books
      reads service, contract, contract.nfts
    {
      service.Tables(around).(market := contract.State(), cfg := cfg, operator := operator)
    }

    method ProcessAddAsk(e: Entry)
      requires e.call.AddAsk? && OneLivePerToken(service.asks)
      modifies service`asks
      ensures service.Shown() == IndexCall(old(service.Shown()), cfg, e) && OneLivePerToken(service.asks)
    {
      OneLiveKept(service.Shown(), cfg, Processed(e));
      var collection, token := IdOf(e.call.nft.collection), e.call.nft.id;
      if collection !in cfg.managed {
        return;
      }
      var activeAsk := service.GetActiveAsk(collection, token);
      if activeAsk.Some? {
        OneLiveShrinks(service.asks, CancelLive(service.asks, collection, token));
        service.CancelAsk(collection, token);
      }
      if e.target != cfg.market {
        return;
      }
      service.RegisterAsk(Ask(AskActive, collection, token, e.call.price, e.signer, e.target, None));
    }

    method ProcessCancelAsk(e: Entry)
      requires e.call.CancelAsk?
      modifies service`asks
      ensures service.Shown() == IndexCall(old(service.Shown()), cfg, e)
    {
      var collection, token := IdOf(e.call.nft.collection), e.call.nft.id;
      if collection !in cfg.managed {
        return;
      }
      var activeAsk := service.GetActiveAsk(collection, token);
      if activeAsk.Some? {
        service.CancelAsk(collection, token);
      }
    }

    method ModifyBalanceOnContract(row: nat, landed: bool, ghost around: Books)
      requires contract.Valid() && row < |service.transfers|
      modifies service`transfers, service`sends, contract`balanceKSM
      ensures contract.Valid() && State(around) == RowProcessed(old(State(around)), row, landed)
    {
      service.UpdateMoneyTransferStatus(row, InProgress);
      var amount, account := service.transfers[row].amount, service.transfers[row].account;
      var ok := false;
      if landed {
        if amount < 0 {
          ok := contract.WithdrawKSM(operator, -amount, account);
        } else {
          ok := contract.DepositKSM(operator, amount, account);
        }
      }
      if ok {
        service.sends := service.sends + [row];
        service.UpdateMoneyTransferStatus(row, Completed);
      } else {
        service.UpdateMoneyTransferStatus(row, Failed);
      }
    }

    /** A sale of a token with a live row: the trade, the change of the seller's balance (sent at once), the payout.
        The row's collection need not be managed. */
    method ProcessBuyKSM(e: Entry, landed: bool, ghost around: Books)
      requires contract.Valid() && e.call.BuyKSM? && around.unique == Free
      modifies service`asks, service`trades, service`transfers, service`sends, contract`balanceKSM
      ensures contract.Valid()
      ensures State(around) == AfterBuyScan(old(State(around)), e, landed)
    {
      var collection, token := IdOf(e.call.nft.collection), e.call.nft.id;
      var activeAsk := service.GetActiveAsk(collection, token);
      if activeAsk.None? {
        return;
      }
      var ask := service.asks[activeAsk.value];
      var origPrice := PriceWithoutCommission(ask.price, cfg.commission);
      service.RegisterTrade(e.call.buyer, origPrice, ask, e.block, ask.price);
      assert service.Shown() == IndexCall(old(service.Shown()), cfg, e);
      SettleSale(ask.price, Payout(origPrice, ask.seller), landed, around);
    }

    method SettleSale(realPrice: int, payout: Payout, landed: bool, ghost around: Books)
      requires contract.Valid() && around.unique == Free
      modifies service`transfers, service`sends, contract`balanceKSM
      ensures contract.Valid()
      ensures State(around) == Settled(old(State(around)).(unique := Sold(realPrice, payout)), landed)
    {
      var row := service.ModifyContractBalance(-realPrice, payout.account);
      ModifyBalanceOnContract(row, landed, around.(unique := Queued(row, payout)));
      service.RegisterKusamaWithdraw(payout.amount, payout.account);
    }

    method ProcessWithdrawAllKSM(s: Scan)
      requires s.entry.call.WithdrawAllKSM?
      modifies service`transfers
      ensures service.transfers == old(service.transfers)
           + if s.entry.target != cfg.market then []
             else [Transfer(Withdraw, s.emitted, TransferPending, s.entry.call.account)]
    {
      if s.entry.target != cfg.market {
        return;
      }
      service.RegisterKusamaWithdraw(s.emitted, s.entry.call.account);
    }

    /** The next call of a block; a failed one leaves no trace. */
    method ProcessCall(s: Scan, isFailed: bool, landed: bool, ghost around: Books)
      requires contract.Valid() && OneLivePerToken(service.asks) && around.unique == Free
      requires around.scanned < |around.calls| && around.calls[around.scanned] == s
      modifies service`asks, service`trades, service`transfers, service`sends, contract`balanceKSM
      ensures contract.Valid() && OneLivePerToken(service.asks)
      ensures if isFailed then State(around) == old(State(around))
              else State(around.(scanned := around.scanned + 1)) == CallHandled(old(State(around)), landed)
    {
      if isFailed {
        return;
      }
      OneLiveKept(service.Shown(), cfg, Processed(s.entry));
      if s.entry.call.AddAsk? {
        ProcessAddAsk(s.entry);
      } else if s.entry.call.BuyKSM? {
        HandledSale(State(around), landed);
        ProcessBuyKSM(s.entry, landed, around);
      } else if s.entry.call.CancelAsk? {
        ProcessCancelAsk(s.entry);
      } else if s.entry.call.WithdrawAllKSM? {
        ProcessWithdrawAllKSM(s);
      }
    }

    /** The loop ends because each turn takes one row out of PENDING. */
    method ProcessContractBalance(lands: nat -> bool, ghost around: Books)
      requires contract.Valid()
      modifies service`transfers, service`sends, contract`balanceKSM
      ensures contract.Valid() && State(around) == Drained(old(State(around)), lands)
      ensures FirstPending(service.transfers, Deposit).None?
    {
      var deposit := service.GetPendingContractBalance();
      while deposit.Some?
        invariant contract.Valid() && deposit == FirstPending(service.transfers, Deposit)
        invariant Drained(State(around), lands) == Drained(old(State(around)), lands)
        decreases PendingCount(service.transfers, Deposit)
      {
        ProcessedIsFewer(State(around), deposit.value, lands(deposit.value));
        ModifyBalanceOnContract(deposit.value, lands(deposit.value), around);
        deposit := service.GetPendingContractBalance();
      }
    }
  }

  class KusamaEscrow {
    const service: EscrowService
    const adminAddress: Address

    constructor (service: EscrowService, adminAddress: Address)
      ensures this.service == service && this.adminAddress == adminAddress
    {
      this.service, this.adminAddress := service, adminAddress;
    }

    method ExtractBlockData(x: KusamaExtrinsic, isSuccess: bool, ghost around: Books)
      modifies service`transfers
      ensures if isSuccess && x.BalancesCall? && x.isTransfer && x.to == adminAddress
              then service.transfers == old(service.transfers) + [Transfer(Deposit, x.amount, TransferPending, x.from)]
              else service.transfers == old(service.transfers)
      ensures service.transfers == old(service.transfers) + DepositRow(adminAddress, x, isSuccess)
      ensures service.Tables(around)
           == if DepositRow(adminAddress, x, isSuccess) == [] then old(service.Tables(around))
              else AfterDeposit(old(service.Tables(around)), x.amount, x.from).(taken := around.taken)
    {
      if x.OtherSection? {
        return;
      }
      if !x.isTransfer || x.to != adminAddress {
        return;
      }
      if !isSuccess {
        return;
      }
      var row := service.ModifyContractBalance(x.amount, x.from);
    }

    /** One turn of processWithdraw: the row is marked, paid and its outcome recorded. */
    method PayRow(row: nat, landed: bool, ghost around: Books)
      requires row < |service.transfers|
      modifies service`transfers, service`sends, service`vault
      ensures service.Tables(around) == PaidOut(old(service.Tables(around)), row, landed)
    {
      var amount := service.transfers[row].amount;
      service.UpdateMoneyTransferStatus(row, InProgress);
      if landed {
        service.vault, service.sends := service.vault - amount, service.sends + [row];
        service.UpdateMoneyTransferStatus(row, Completed);
      } else {
        service.UpdateMoneyTransferStatus(row, Failed);
      }
    }

    method ProcessWithdraw(lands: nat -> bool, ghost around: Books)
      modifies service`transfers, service`sends, service`vault
      ensures service.Tables(around) == Disbursed(old(service.Tables(around)), lands)
      ensures FirstPending(service.transfers, Withdraw).None?
    {
      var withdraw := service.GetPendingKusamaWithdraw();
      while withdraw.Some?
        invariant withdraw == FirstPending(service.transfers, Withdraw)
        invariant Disbursed(service.Tables(around), lands) == Disbursed(old(service.Tables(around)), lands)
        decreases PendingCount(service.transfers, Withdraw)
      {
        PaidOutIsFewer(service.Tables(around), withdraw.value, lands(withdraw.value));
        PayRow(withdraw.value, lands(withdraw.value), around);
        withdraw := service.GetPendingKusamaWithdraw();
      }
    }
  }
}
