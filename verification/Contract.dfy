/** The market contract (blockchain/MarketPlace.sol) as a transition function: a call either reverts or leaves a
    new state. The NFT collections follow ERC-721 ("Specification" in EIP-721): a transfer succeeds only when it is
    taken from the owner and not sent to the zero address, and collections do not call back into the contract. */
module Contract {
  import opened Wrappers
  import opened Sums

  /** Amounts are 256-bit words; additions of balances revert on overflow. */
  const WORD_LIMIT: nat := 0x1_0000_0000_0000_0000_0000_0000_0000_0000_0000_0000_0000_0000_0000_0000_0000_0000

  datatype Nft = Nft(collection: Address, id: nat)

  datatype Order = Order(nft: Nft, currency: Address, price: nat, time: nat, owner: Address, active: nat)

  const NO_ORDER := Order(Nft(0, 0), 0, 0, 0, 0, 0)

  datatype Market = Market(
    self: Address,                    // the contract's own address
    orders: seq<Order>,               // orders[0] is a placeholder
    balances: map<Address, nat>,      // balanceKSM
    asks: map<Nft, nat>,              // the newest order id of an NFT
    bySeller: map<Address, seq<nat>>, // asksbySeller
    escrows: set<Address>,            // isEscrow
    owners: map<Nft, Address>)        // who holds which NFT, in all collections

  datatype Call =
    | AddAsk(price: nat, currency: Address, nft: Nft, approved: bool)
    | EditAsk(price: nat, currency: Address, nft: Nft, active: nat)
    | CancelAsk(nft: Nft)
    | DepositKSM(amount: nat, account: Address)
    | BuyKSM(nft: Nft, buyer: Address, receiver: Address)
    | Buy(nft: Nft, value: nat)
    | WithdrawAllKSM(account: Address)
    | WithdrawKSM(amount: nat, account: Address)

  function OrderId(m: Market, nft: Nft): nat {
    Get(m.asks, nft)
  }

  /** The order that asks points to; the index is in range in every reachable state. */
  function OrderOf(m: Market, nft: Nft): Order {
    if OrderId(m, nft) < |m.orders| then m.orders[OrderId(m, nft)] else NO_ORDER
  }

  /** Writes one balance. */
  function SetBalance(balances: map<Address, nat>, account: Address, amount: nat): map<Address, nat> {
    balances[account := amount]
  }

  /** A sale takes the price from the buyer first and then adds it to the seller. */
  function Pay(balances: map<Address, nat>, buyer: Address, seller: Address, price: nat): map<Address, nat>
    requires price <= Get(balances, buyer)
  {
    var paid := SetBalance(balances, buyer, Get(balances, buyer) - price);
    SetBalance(paid, seller, Get(paid, seller) + price)
  }

  function SellerList(m: Market, seller: Address): seq<nat> {
    if seller in m.bySeller then m.bySeller[seller] else []
  }

  /** transferFrom of a collection */
  function TransferFrom(owners: map<Nft, Address>, from: Address, to: Address, nft: Nft): Option<map<Nft, Address>> {
    if nft in owners && owners[nft] == from && to != 0 then Some(owners[nft := to]) else None
  }

  function SetOrder(m: Market, nft: Nft, order: Order): Market {
    if OrderId(m, nft) < |m.orders| then m.(orders := m.orders[OrderId(m, nft) := order]) else m
  }

  /** A new order, entered in both indexes. */
  function Listed(m: Market, order: Order): Market {
    m.(orders := m.orders + [order],
       asks := m.asks[order.nft := |m.orders|],
       bySeller := m.bySeller[order.owner := SellerList(m, order.owner) + [|m.orders|]])
  }

  // ---------------------------------------------------------------- the calls; None is a revert

  /** approved: the sender has approved the contract for this NFT. */
  function AfterAddAsk(m: Market, sender: Address, now: nat, price: nat, currency: Address, nft: Nft, approved: bool): Option<Market> {
    if nft !in m.owners || m.owners[nft] != sender || !approved then None
    else
      match TransferFrom(m.owners, sender, m.self, nft)
      case None => None
      case Some(owners) => Some(Listed(m, Order(nft, currency, price, now, sender, 1)).(owners := owners))
  }

  function AfterEditAsk(m: Market, sender: Address, now: nat, price: nat, currency: Address, nft: Nft, active: nat): Option<Market> {
    var order := OrderOf(m, nft);
    if order.owner != sender || order.active == 0 then None
    else
      Some(SetOrder(m, nft, order.(
        price := if price > 0 then price else order.price,
        currency := if currency != 0 then currency else order.currency,
        time := now,
        active := active)))
  }

  function AfterCancelAsk(m: Market, sender: Address, now: nat, nft: Nft): Option<Market> {
    var order := OrderOf(m, nft);
    if order.owner != sender || order.active == 0 then None
    else
      match TransferFrom(m.owners, m.self, order.owner, nft)
      case None => None
      case Some(owners) => Some(SetOrder(m, nft, order.(time := now, active := 0)).(owners := owners))
  }

  function AfterDepositKSM(m: Market, sender: Address, amount: nat, account: Address): Option<Market> {
    if sender !in m.escrows || Get(m.balances, account) + amount >= WORD_LIMIT then None
    else Some(m.(balances := SetBalance(m.balances, account, Get(m.balances, account) + amount)))
  }

  /** The order need not be open: what stops a second sale is that the contract no longer holds the NFT. */
  function AfterBuyKSM(m: Market, sender: Address, nft: Nft, buyer: Address, receiver: Address): Option<Market> {
    var order := OrderOf(m, nft);
    if sender !in m.escrows && sender != buyer then None
    else if Get(m.balances, buyer) < order.price then None
    else
      var balances := Pay(m.balances, buyer, order.owner, order.price);
      if Get(balances, order.owner) >= WORD_LIMIT then None
      else
        match TransferFrom(m.owners, m.self, receiver, nft)
        case None => None
        case Some(owners) =>
          Some(SetOrder(m, nft, order.(active := 0)).(balances := balances, owners := owners))
  }

  /** The sale for native coins, which pass through the contract. */
  function AfterBuy(m: Market, sender: Address, nft: Nft, value: nat): Option<Market> {
    var order := OrderOf(m, nft);
    if value != order.price then None
    else
      match TransferFrom(m.owners, m.self, sender, nft)
      case None => None
      case Some(owners) => Some(SetOrder(m, nft, order.(active := 0)).(owners := owners))
  }

  function AfterWithdrawAllKSM(m: Market, sender: Address, account: Address): Option<Market> {
    if sender !in m.escrows && sender != account then None
    else Some(m.(balances := SetBalance(m.balances, account, 0)))
  }

  function AfterWithdrawKSM(m: Market, sender: Address, amount: nat, account: Address): Option<Market> {
    if sender !in m.escrows || Get(m.balances, account) < amount then None
    else Some(m.(balances := SetBalance(m.balances, account, Get(m.balances, account) - amount)))
  }

  /** One call by an outside account. */
  function Execute(m: Market, sender: Address, now: nat, call: Call): Option<Market> {
    match call
    case AddAsk(price, currency, nft, approved) => AfterAddAsk(m, sender, now, price, currency, nft, approved)
    case EditAsk(price, currency, nft, active) => AfterEditAsk(m, sender, now, price, currency, nft, active)
    case CancelAsk(nft) => AfterCancelAsk(m, sender, now, nft)
    case DepositKSM(amount, account) => AfterDepositKSM(m, sender, amount, account)
    case BuyKSM(nft, buyer, receiver) => AfterBuyKSM(m, sender, nft, buyer, receiver)
    case Buy(nft, value) => AfterBuy(m, sender, nft, value)
    case WithdrawAllKSM(account) => AfterWithdrawAllKSM(m, sender, account)
    case WithdrawKSM(amount, account) => AfterWithdrawKSM(m, sender, amount, account)
  }

  /** What happens around the contract besides calls: NFTs are minted and moved by their owners, the contract owner
      appoints escrows. */
  datatype Happening =
    | Called(sender: Address, now: nat, call: Call)
    | Minted(nft: Nft, to: Address)
    | Moved(nft: Nft, from: Address, to: Address)
    | EscrowSet(account: Address, state: bool)

  function Next(m: Market, h: Happening): Market {
    match h
    case Called(sender, now, call) =>
      if sender != m.self && sender != 0 && Execute(m, sender, now, call).Some? then Execute(m, sender, now, call).value else m
    case Minted(nft, to) => if nft !in m.owners && to != 0 then m.(owners := m.owners[nft := to]) else m
    case Moved(nft, from, to) =>
      if from != m.self && TransferFrom(m.owners, from, to, nft).Some?
      then m.(owners := TransferFrom(m.owners, from, to, nft).value) else m
    case EscrowSet(account, state) => m.(escrows := if state then m.escrows + {account} else m.escrows - {account})
  }

  function Run(m: Market, happenings: seq<Happening>): Market {
    if happenings == [] then m
    else Next(Run(m, happenings[..|happenings| - 1]), happenings[|happenings| - 1])
  }

  predicate Deployed(m: Market) {
    && m.self != 0 && m.orders == [NO_ORDER] && m.balances == map[] && m.asks == map[] && m.bySeller == map[]
    && forall nft :: nft in m.owners ==> m.owners[nft] != m.self && m.owners[nft] != 0
  }

  /** A call that is made by an outside account and does not revert. */
  predicate Succeeds(m: Market, h: Happening) {
    h.Called? && h.sender != m.self && h.sender != 0 && Execute(m, h.sender, h.now, h.call).Some?
  }
}
