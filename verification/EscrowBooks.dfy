/** The money of the fixed-price market as one state machine: the contract on the Unique chain, the daemon that
    indexes it (src/escrow/unique.ts), the daemon that watches Kusama (src/escrow/kusama.ts) and the table
    money_transfer that joins them (src/escrow/service.ts). Each table statement and each chain transaction is a
    step of its own, so that the daemons interleave and can stop between any two of them. */
module EscrowBooks {
  import opened Wrappers
  import opened Tables
  import opened Commission
  import opened Contract
  import opened EscrowIndex
  import opened Sums

  datatype Kind = Deposit | Withdraw

  datatype TransferStatus = TransferPending | InProgress | Completed | Failed

  /** money_transfer. A deposit changes a balance on the contract, by a negative amount after a sale; a withdraw
      pays KSM out on Kusama. */
  datatype Transfer = Transfer(kind: Kind, amount: int, status: TransferStatus, account: Address)

  /** An amount of KSM and the account it comes from or goes to. */
  datatype Payout = Payout(amount: int, account: Address)

  /** Where the Unique daemon stands between two blocks or inside processBuyKSM and modifyBalanceOnContract. */
  datatype UniqueDesk =
    | Free
    | Sold(price: int, next: Payout)                         // the trade is recorded
    | Queued(row: nat, next: Payout)                         // and so is the change of the seller's balance
    | Sending(row: nat, after: Option<Payout>)               // a row was marked IN_PROGRESS
    | Recording(row: nat, ok: bool, after: Option<Payout>)   // its contract call came back
    | Owing(next: Payout)                                    // the payout of the sale is not recorded yet

  /** Where the Kusama daemon stands inside processWithdraw. */
  datatype KusamaDesk = Resting | Transferring(row: nat) | Settling(row: nat, ok: bool)

  /** A call that went through on the Unique chain, as the daemon will find it; emitted is the amount in the event
      of a withdrawAllKSM of the market contract. */
  datatype Scan = Scan(entry: Entry, emitted: nat)

  datatype Books = Books(
    cfg: Config,
    operator: Address,        // the account the Unique daemon calls the contract from
    market: Market,
    calls: seq<Scan>,
    scanned: nat,             // how many of them the daemon has processed
    index: Index,
    transfers: seq<Transfer>,
    sends: seq<nat>,          // the rows whose chain transaction took effect, in order
    arrivals: seq<Payout>,    // the KSM transfers to the escrow account, in the order of their blocks
    taken: nat,               // how many of them the Kusama daemon has recorded
    vault: int,               // the KSM that arrived, less the KSM paid out
    unique: UniqueDesk,
    kusama: KusamaDesk)

  datatype Event =
    | OnChain(h: Happening)                          // anything around the contract that the daemons do not do
    | Foreign(entry: Entry)                          // a decodable call to some other address
    | AdminRemoval(admin: Address)                   // massFixPriceCancel
    | ScanCall
    | SkipCall                                       // the Unique daemon passes over a call: others recorded its block
    | UniqueWork(choice: nat, landed: bool)
    | Arrives(amount: nat, account: Address)         // a KSM transfer to the escrow account
    | ScanDeposit                                    // the Kusama daemon records the next of them
    | KusamaWork(choice: nat, landed: bool)
    | UniqueCrash(rewind: nat)                       // restart, scanning again from an earlier call
    | KusamaCrash(rewind: nat)                       // restart, scanning again from an earlier transfer

  // ---------------------------------------------------------------- the Unique daemon

  function AddRow(b: Books, row: Transfer): Books {
    b.(transfers := b.transfers + [row])
  }

  /** updateMoneyTransferStatus */
  function Mark(transfers: seq<Transfer>, row: nat, status: TransferStatus): (r: seq<Transfer>)
    ensures |r| == |transfers|
  {
    if row < |transfers| then transfers[row := transfers[row].(status := status)] else transfers
  }

  /** The daemon's transaction for a row: withdrawKSM when the amount is negative, depositKSM otherwise. */
  function BalanceChange(m: Market, operator: Address, t: Transfer): Option<Market> {
    if t.amount < 0 then AfterWithdrawKSM(m, operator, -t.amount, t.account)
    else AfterDepositKSM(m, operator, t.amount, t.account)
  }

  function SalePayout(ask: Ask, commission: nat): Payout {
    Payout(PriceWithoutCommission(ask.price, commission), ask.seller)
  }

  /** processCall for the next call on the chain; a sale goes on from where its trade is recorded. */
  function AfterScan(b: Books): Books
    requires b.scanned < |b.calls|
  {
    var s := b.calls[b.scanned];
    var after := b.(scanned := b.scanned + 1, index := IndexCall(b.index, b.cfg, s.entry));
    match s.entry.call
    case BuyKSM(nft, _, _) =>
      (match FindLive(b.index.asks, IdOf(nft.collection), nft.id)
       case None => after
       case Some(i) => after.(unique := Sold(b.index.asks[i].price, SalePayout(b.index.asks[i], b.cfg.commission))))
    case WithdrawAllKSM(account) =>
      if s.entry.target != b.cfg.market then after
      else AddRow(after, Transfer(Withdraw, s.emitted, TransferPending, account))
    case _ => after
  }

  predicate PendingRow(b: Books, kind: Kind, row: nat) {
    row < |b.transfers| && b.transfers[row].kind == kind && b.transfers[row].status == TransferPending
  }

  /** The transaction of a row comes back; landed is false when it never reached the chain. */
  function AfterSubmit(b: Books, row: nat, after: Option<Payout>, landed: bool): Books
    requires row < |b.transfers|
  {
    match BalanceChange(b.market, b.operator, b.transfers[row])
    case Some(market) =>
      if landed then b.(market := market, sends := b.sends + [row], unique := Recording(row, true, after))
      else b.(unique := Recording(row, false, after))
    case None => b.(unique := Recording(row, false, after))
  }

  function AfterRecord(b: Books, row: nat, ok: bool, after: Option<Payout>): Books {
    b.(transfers := Mark(b.transfers, row, if ok then Completed else Failed),
       unique := if after.Some? then Owing(after.value) else Free)
  }

  /** The next statement of the Unique daemon; between two blocks it starts on the pending row it chooses. */
  function AfterUniqueWork(b: Books, choice: nat, landed: bool): Books {
    match b.unique
    case Free =>
      if PendingRow(b, Deposit, choice)
      then b.(transfers := Mark(b.transfers, choice, InProgress), unique := Sending(choice, None)) else b
    case Sold(price, next) =>
      AddRow(b, Transfer(Deposit, -price, TransferPending, next.account)).(unique := Queued(|b.transfers|, next))
    case Queued(row, next) => b.(transfers := Mark(b.transfers, row, InProgress), unique := Sending(row, Some(next)))
    case Sending(row, after) => if row < |b.transfers| then AfterSubmit(b, row, after, landed) else b
    case Recording(row, ok, after) => AfterRecord(b, row, ok, after)
    case Owing(next) => AddRow(b, Transfer(Withdraw, next.amount, TransferPending, next.account)).(unique := Free)
  }

  // ---------------------------------------------------------------- the Kusama daemon

  /** extractBlockData: a transfer to the escrow account becomes a deposit row. */
  function AfterDeposit(b: Books, amount: int, account: Address): Books {
    AddRow(b, Transfer(Deposit, amount, TransferPending, account)).(taken := b.taken + 1)
  }

  /** The next statement of processWithdraw. */
  function AfterKusamaWork(b: Books, choice: nat, landed: bool): Books {
    match b.kusama
    case Resting =>
      if PendingRow(b, Withdraw, choice)
      then b.(transfers := Mark(b.transfers, choice, InProgress), kusama := Transferring(choice)) else b
    case Transferring(row) =>
      if !landed || row >= |b.transfers| then b.(kusama := Settling(row, false))
      else b.(vault := b.vault - b.transfers[row].amount, sends := b.sends + [row], kusama := Settling(row, true))
    case Settling(row, ok) =>
      b.(transfers := Mark(b.transfers, row, if ok then Completed else Failed), kusama := Resting)
  }

  // ---------------------------------------------------------------- runs

  function Emitted(m: Market, call: Call): nat {
    if call.WithdrawAllKSM? then Get(m.balances, call.account) else 0
  }

  /** Something happens around the contract; a call that goes through will be found by the Unique daemon. */
  function AfterOnChain(b: Books, h: Happening): Books {
    var after := b.(market := Next(b.market, h));
    if !Succeeds(b.market, h) then after
    else after.(calls := b.calls + [Scan(Entry(h.sender, b.cfg.market, h.now, h.call), Emitted(b.market, h.call))])
  }

  /** The daemon also finds calls to other addresses; they emit nothing it would read. */
  function AfterForeign(b: Books, entry: Entry): Books {
    if entry.target == b.cfg.market then b else b.(calls := b.calls + [Scan(entry, 0)])
  }

  function Step(b: Books, e: Event): Books {
    match e
    case OnChain(h) => AfterOnChain(b, h)
    case Foreign(entry) => AfterForeign(b, entry)
    case AdminRemoval(admin) => b.(index := b.index.(asks := RemoveByAdmin(b.index.asks, admin)))
    case ScanCall => if b.unique == Free && b.scanned < |b.calls| then AfterScan(b) else b
    case SkipCall => if b.unique == Free && b.scanned < |b.calls| then b.(scanned := b.scanned + 1) else b
    case UniqueWork(choice, landed) => AfterUniqueWork(b, choice, landed)
    case Arrives(amount, account) => b.(arrivals := b.arrivals + [Payout(amount, account)], vault := b.vault + amount)
    case ScanDeposit =>
      if b.kusama == Resting && b.taken < |b.arrivals|
      then AfterDeposit(b, b.arrivals[b.taken].amount, b.arrivals[b.taken].account) else b
    case KusamaWork(choice, landed) => AfterKusamaWork(b, choice, landed)
    case UniqueCrash(rewind) => b.(unique := Free, scanned := if rewind < b.scanned then rewind else b.scanned)
    case KusamaCrash(rewind) => b.(kusama := Resting, taken := if rewind < b.taken then rewind else b.taken)
  }

  function RunBooks(b: Books, events: seq<Event>): Books {
    if events == [] then b
    else Step(RunBooks(b, events[..|events| - 1]), events[|events| - 1])
  }

  predicate Opened(b: Books) {
    && Deployed(b.market) && b.calls == [] && b.scanned == 0 && b.index == Index([], [])
    && b.transfers == [] && b.sends == [] && b.arrivals == [] && b.taken == 0 && b.vault == 0 && b.unique == Free && b.kusama == Resting
  }
}
