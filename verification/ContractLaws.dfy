/** What each call on the market contract asks of its caller and what it does, in terms of the stored orders, balances,
    indexes and NFT owners (blockchain/MarketPlace.sol). */
module ContractLaws {
  import opened Wrappers
  import opened Sums
  import opened Contract
  import opened ContractInvariants

  /** The position of the NFT's newest order; 0, the placeholder, when it has none. */
  function Newest(m: Market, nft: Nft): nat {
    if nft in m.asks then m.asks[nft] else 0
  }

  predicate Holds(m: Market, account: Address, nft: Nft) {
    nft in m.owners && m.owners[nft] == account
  }

  /** An account outside the contract, as every caller is. */
  predicate Outsider(m: Market, account: Address) {
    account != m.self && account != 0
  }

  /** Every other balance is as it was. */
  ghost predicate SameBalancesBut(m: Market, m': Market, accounts: set<Address>) {
    forall x :: x !in accounts ==> Get(m'.balances, x) == Get(m.balances, x)
  }

  /** addAsk: the holder of an approved NFT gives it to the contract, for a new order that the indexes name. */
  lemma ListingTakesNft(m: Market, sender: Address, now: nat, price: nat, currency: Address, nft: Nft, approved: bool)
    requires Inv(m) && Outsider(m, sender)
    ensures var h := Called(sender, now, AddAsk(price, currency, nft, approved));
            var m' := Next(m, h);
            && (Succeeds(m, h) <==> approved && Holds(m, sender, nft))
            && (!Succeeds(m, h) ==> m' == m)
            && (Succeeds(m, h) ==>
                  && m'.orders == m.orders + [Order(nft, currency, price, now, sender, 1)]
                  && m'.asks == m.asks[nft := |m.orders|]
                  && m'.bySeller == m.bySeller[sender := (if sender in m.bySeller then m.bySeller[sender] else []) + [|m.orders|]]
                  && m'.owners == m.owners[nft := m.self]
                  && m'.balances == m.balances && m'.escrows == m.escrows && m'.self == m.self)
  {
  }

  /** editAsk: the seller of an open order rewrites its price, its currency and its flag; zero leaves price and currency
      as they are. */
  lemma EditRewritesOrder(m: Market, sender: Address, now: nat, price: nat, currency: Address, nft: Nft, active: nat)
    requires Inv(m) && Outsider(m, sender)
    ensures var h, k := Called(sender, now, EditAsk(price, currency, nft, active)), Newest(m, nft);
            var m' := Next(m, h);
            && k < |m.orders|
            && (Succeeds(m, h) <==> m.orders[k].owner == sender && m.orders[k].active != 0)
            && (!Succeeds(m, h) ==> m' == m)
            && (Succeeds(m, h) ==>
                  && |m'.orders| == |m.orders| && (forall i :: 0 <= i < |m.orders| && i != k ==> m'.orders[i] == m.orders[i])
                  && m'.orders[k].price == (if price == 0 then m.orders[k].price else price)
                  && m'.orders[k].currency == (if currency == 0 then m.orders[k].currency else currency)
                  && m'.orders[k].time == now && m'.orders[k].active == active
                  && m'.orders[k].nft == m.orders[k].nft && m'.orders[k].owner == sender
                  && m' == m.(orders := m'.orders))
  {
  }

  /** cancelAsk: the seller of an open order closes it and has the NFT back. */
  lemma CancelReturnsNft(m: Market, sender: Address, now: nat, nft: Nft)
    requires Inv(m) && Outsider(m, sender)
    ensures var h, k := Called(sender, now, CancelAsk(nft)), Newest(m, nft);
            var m' := Next(m, h);
            && k < |m.orders|
            && (Succeeds(m, h) <==> m.orders[k].owner == sender && m.orders[k].active != 0)
            && (!Succeeds(m, h) ==> m' == m)
            && (Succeeds(m, h) ==>
                  && Holds(m, m.self, nft) && m'.owners == m.owners[nft := sender]
                  && m' == m.(owners := m'.owners, orders := m.orders[k := m.orders[k].(time := now, active := 0)]))
  {
    if OrderOf(m, nft).active != 0 {
      assert m.orders[OrderId(m, nft)].active != 0;
    }
  }

  /** depositKSM: an escrow account adds to one balance, up to the width of a word. */
  lemma DepositCredits(m: Market, sender: Address, now: nat, amount: nat, account: Address)
    requires Outsider(m, sender)
    ensures var h := Called(sender, now, DepositKSM(amount, account));
            var m' := Next(m, h);
            && (Succeeds(m, h) <==> sender in m.escrows && Get(m.balances, account) + amount < WORD_LIMIT)
            && (!Succeeds(m, h) ==> m' == m)
            && (Succeeds(m, h) ==>
                  && Get(m'.balances, account) == Get(m.balances, account) + amount
                  && SameBalancesBut(m, m', {account}) && m' == m.(balances := m'.balances))
  {
  }

  /** withdrawKSM: an escrow account takes from one balance what it holds. */
  lemma WithdrawalDebits(m: Market, sender: Address, now: nat, amount: nat, account: Address)
    requires Outsider(m, sender)
    ensures var h := Called(sender, now, WithdrawKSM(amount, account));
            var m' := Next(m, h);
            && (Succeeds(m, h) <==> sender in m.escrows && amount <= Get(m.balances, account))
            && (!Succeeds(m, h) ==> m' == m)
            && (Succeeds(m, h) ==>
                  && Get(m'.balances, account) == Get(m.balances, account) - amount
                  && SameBalancesBut(m, m', {account}) && m' == m.(balances := m'.balances))
  {
  }

  /** withdrawAllKSM: an escrow account or the owner of a balance empties it. */
  lemma WithdrawalEmpties(m: Market, sender: Address, now: nat, account: Address)
    requires Outsider(m, sender)
    ensures var h := Called(sender, now, WithdrawAllKSM(account));
            var m' := Next(m, h);
            && (Succeeds(m, h) <==> sender in m.escrows || sender == account)
            && (!Succeeds(m, h) ==> m' == m)
            && (Succeeds(m, h) ==>
                  Get(m'.balances, account) == 0 && SameBalancesBut(m, m', {account}) && m' == m.(balances := m'.balances))
  {
  }

  /** A price can change hands: the buyer has it, and the seller's balance stays a word. */
  predicate CanPay(m: Market, buyer: Address, seller: Address, price: nat) {
    && price <= Get(m.balances, buyer)
    && (if buyer == seller then Get(m.balances, buyer) else Get(m.balances, seller) + price) < WORD_LIMIT
  }

  /** The buyer's balance falls by the price, the seller's rises by it, no other changes; one account on both sides ends
      as it began. */
  ghost predicate PriceMoved(m: Market, m': Market, buyer: Address, seller: Address, price: nat) {
    && SameBalancesBut(m, m', {buyer, seller})
    && (if buyer == seller then Get(m'.balances, buyer) == Get(m.balances, buyer)
        else && Get(m'.balances, buyer) == Get(m.balances, buyer) - price
             && Get(m'.balances, seller) == Get(m.balances, seller) + price)
  }

  lemma PayMovesPrice(balances: map<Address, nat>, buyer: Address, seller: Address, price: nat)
    requires price <= Get(balances, buyer)
    ensures forall x :: Get(Pay(balances, buyer, seller, price), x)
              == Get(balances, x) - (if x == buyer then price else 0) + (if x == seller then price else 0)
  {
  }

  /** buyKSM goes through when an escrow account or the buyer calls it, the price can change hands and the contract holds
      the NFT. Whether the order was open does not matter, nor what the receiver has to do with the buyer. */
  lemma SaleSucceedsIff(m: Market, sender: Address, now: nat, nft: Nft, buyer: Address, receiver: Address)
    requires Inv(m) && Outsider(m, sender)
    ensures var h, k := Called(sender, now, BuyKSM(nft, buyer, receiver)), Newest(m, nft);
            && k < |m.orders|
            && (Succeeds(m, h) <==>
                  && (sender in m.escrows || sender == buyer)
                  && CanPay(m, buyer, m.orders[k].owner, m.orders[k].price)
                  && Holds(m, m.self, nft) && receiver != 0)
            && (!Succeeds(m, h) ==> Next(m, h) == m)
  {
    var order := OrderOf(m, nft);
    if order.price <= Get(m.balances, buyer) {
      PayMovesPrice(m.balances, buyer, order.owner, order.price);
    }
  }

  lemma BuyKSMMovesPrice(m: Market, sender: Address, nft: Nft, buyer: Address, receiver: Address)
    requires AfterBuyKSM(m, sender, nft, buyer, receiver).Some?
    ensures PriceMoved(m, AfterBuyKSM(m, sender, nft, buyer, receiver).value, buyer, OrderOf(m, nft).owner, OrderOf(m, nft).price)
  {
    PayMovesPrice(m.balances, buyer, OrderOf(m, nft).owner, OrderOf(m, nft).price);
  }

  /** It then hands the NFT to the receiver, moves the order's price from the buyer's balance to the seller's, and closes
      the order. */
  lemma SaleMovesPriceAndNft(m: Market, sender: Address, now: nat, nft: Nft, buyer: Address, receiver: Address)
    requires Inv(m) && Succeeds(m, Called(sender, now, BuyKSM(nft, buyer, receiver)))
    ensures var k, m' := Newest(m, nft), Next(m, Called(sender, now, BuyKSM(nft, buyer, receiver)));
            && k < |m.orders|
            && m'.owners == m.owners[nft := receiver]
            && m'.orders == m.orders[k := m.orders[k].(active := 0)]
            && PriceMoved(m, m', buyer, m.orders[k].owner, m.orders[k].price)
            && m' == m.(owners := m'.owners, orders := m'.orders, balances := m'.balances)
  {
    BuyKSMMovesPrice(m, sender, nft, buyer, receiver);
  }

  /** buy: whoever sends exactly the order's price in native coins gets the NFT that the contract holds; no KSM moves. */
  lemma NativeSaleMovesNft(m: Market, sender: Address, now: nat, nft: Nft, value: nat)
    requires Inv(m) && Outsider(m, sender)
    ensures var h, k := Called(sender, now, Buy(nft, value)), Newest(m, nft);
            var m' := Next(m, h);
            && k < |m.orders|
            && (Succeeds(m, h) <==> value == m.orders[k].price && Holds(m, m.self, nft))
            && (!Succeeds(m, h) ==> m' == m)
            && (Succeeds(m, h) ==>
                  && m'.owners == m.owners[nft := sender]
                  && m' == m.(owners := m'.owners, orders := m.orders[k := m.orders[k].(active := 0)]))
  {
  }

  /** Around the contract: an NFT comes into being once, its holder gives it away, and the contract's owner appoints and
      dismisses escrow accounts; nothing else changes. */
  lemma OutsideMoves(m: Market, nft: Nft, from: Address, to: Address, account: Address)
    ensures var m' := Next(m, Minted(nft, to));
            m' == if nft in m.owners || to == 0 then m else m.(owners := m.owners[nft := to])
    ensures var m' := Next(m, Moved(nft, from, to));
            m' == if from != m.self && to != 0 && Holds(m, from, nft) then m.(owners := m.owners[nft := to]) else m
    ensures forall x ::
              (x in Next(m, EscrowSet(account, true)).escrows <==> x == account || x in m.escrows)
              && (x in Next(m, EscrowSet(account, false)).escrows <==> x != account && x in m.escrows)
  {
  }

  /** Nobody but escrow accounts and the owner of a balance lowers it. */
  lemma OnlyOwnersAndEscrowsLower(m: Market, h: Happening, account: Address)
    requires Inv(m) && Get(Next(m, h).balances, account) < Get(m.balances, account)
    ensures Succeeds(m, h) && (h.call.BuyKSM? || h.call.WithdrawKSM? || h.call.WithdrawAllKSM?)
    ensures h.sender in m.escrows || h.sender == account
  {
    if Succeeds(m, h) {
      match h.call
      case AddAsk(price, currency, nft, approved) => ListingTakesNft(m, h.sender, h.now, price, currency, nft, approved);
      case EditAsk(price, currency, nft, active) => EditRewritesOrder(m, h.sender, h.now, price, currency, nft, active);
      case CancelAsk(nft) => CancelReturnsNft(m, h.sender, h.now, nft);
      case DepositKSM(amount, to) => DepositCredits(m, h.sender, h.now, amount, to);
      case BuyKSM(nft, buyer, receiver) =>
        SaleSucceedsIff(m, h.sender, h.now, nft, buyer, receiver);
        SaleMovesPriceAndNft(m, h.sender, h.now, nft, buyer, receiver);
      case Buy(nft, value) => NativeSaleMovesNft(m, h.sender, h.now, nft, value);
      case WithdrawAllKSM(from) => WithdrawalEmpties(m, h.sender, h.now, from);
      case WithdrawKSM(amount, from) => WithdrawalDebits(m, h.sender, h.now, amount, from);
    }
  }

  /** An NFT that the contract holds leaves it only by a cancellation, to the seller of its open order, or by a sale: to
      the receiver for the order's price in KSM, or for native coins to who sent them. */
  lemma HeldNftLeavesBySale(m: Market, h: Happening, nft: Nft)
    requires Inv(m) && Holds(m, m.self, nft) && !Holds(Next(m, h), m.self, nft)
    ensures Succeeds(m, h) && (h.call.CancelAsk? || h.call.BuyKSM? || h.call.Buy?) && h.call.nft == nft
    ensures Newest(m, nft) < |m.orders|
    ensures var order, m' := m.orders[Newest(m, nft)], Next(m, h);
            && (h.call.CancelAsk? ==> order.active != 0 && h.sender == order.owner && Holds(m', order.owner, nft))
            && (h.call.BuyKSM? ==> Holds(m', h.call.receiver, nft) && PriceMoved(m, m', h.call.buyer, order.owner, order.price))
            && (h.call.Buy? ==> Holds(m', h.sender, nft) && h.call.value == order.price)
  {
    if Succeeds(m, h) {
      match h.call
      case AddAsk(price, currency, other, approved) => ListingTakesNft(m, h.sender, h.now, price, currency, other, approved);
      case EditAsk(price, currency, other, active) => EditRewritesOrder(m, h.sender, h.now, price, currency, other, active);
      case CancelAsk(other) => CancelReturnsNft(m, h.sender, h.now, other);
      case DepositKSM(amount, to) => DepositCredits(m, h.sender, h.now, amount, to);
      case BuyKSM(other, buyer, receiver) => SaleMovesPriceAndNft(m, h.sender, h.now, other, buyer, receiver);
      case Buy(other, value) => NativeSaleMovesNft(m, h.sender, h.now, other, value);
      case WithdrawAllKSM(from) => WithdrawalEmpties(m, h.sender, h.now, from);
      case WithdrawKSM(amount, from) => WithdrawalDebits(m, h.sender, h.now, amount, from);
    }
  }
}
