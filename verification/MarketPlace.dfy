/** The market contract with its storage updated in place. A call that reverts leaves everything as it was. */
module MarketPlace {
  import opened Wrappers
  import opened Sums
  import opened Contract
  import opened ContractInvariants
  import opened ContractLaws

  /** The NFT collections the contract talks to. */
  class Collections {
    var owners: map<Nft, Address>

    constructor ()
      ensures owners == map[]
    {
      owners := map[];
    }

    method Transfer(from: Address, to: Address, nft: Nft) returns (ok: bool)
      modifies this
      ensures ok == TransferFrom(old(owners), from, to, nft).Some?
      ensures owners == if ok then old(owners)[nft := to] else old(owners)
    {
      ok := nft in owners && owners[nft] == from && to != 0;
      if ok {
        owners := owners[nft := to];
      }
    }
  }

  /** The native coins of all accounts. */
  class Coins {
    var holdings: map<Address, nat>

    constructor (holdings: map<Address, nat>)
      ensures this.holdings == holdings
    {
      this.holdings := holdings;
    }

    method Move(from: Address, to: Address, amount: nat)
      requires amount <= Get(holdings, from)
      modifies this
      ensures holdings == Pay(old(holdings), from, to, amount)
    {
      holdings := SetBalance(holdings, from, Get(holdings, from) - amount);
      holdings := SetBalance(holdings, to, Get(holdings, to) + amount);
    }
  }

  /** A sale for native coins: they come to the contract with the call, and go on to the seller if the seller's
      account accepts them; otherwise the contract keeps them. */
  function PassThrough(holdings: map<Address, nat>, buyer: Address, market: Address, seller: Address, price: nat, accepted: bool): map<Address, nat>
    requires price <= Get(holdings, buyer)
  {
    var paid := Pay(holdings, buyer, market, price);
    if accepted then Pay(paid, market, seller, price) else paid
  }

  /** No coin is lost: the price leaves the buyer for the seller or, if the seller's account refuses it, for the contract;
      no other account is touched. */
  lemma PassThroughConserves(holdings: map<Address, nat>, buyer: Address, market: Address, seller: Address, price: nat, accepted: bool)
    requires price <= Get(holdings, buyer) && buyer != market && seller != market
    ensures var after := PassThrough(holdings, buyer, market, seller, price, accepted);
            && Sum(after) == Sum(holdings)
            && forall x :: Get(after, x) == Get(holdings, x) - (if x == buyer then price else 0)
                             + (if x == (if accepted then seller else market) then price else 0)
  {
    var paid := Pay(holdings, buyer, market, price);
    PayConserves(holdings, buyer, market, price);
    PayMovesPrice(holdings, buyer, market, price);
    if accepted {
      PayConserves(paid, market, seller, price);
      PayMovesPrice(paid, market, seller, price);
    }
  }

  /** A cancellation reverts only for the reasons the contract checks: custody never stands in the way. */
  lemma CancelSucceedsIff(m: Market, sender: Address, now: nat, nft: Nft)
    requires Inv(m)
    ensures AfterCancelAsk(m, sender, now, nft).Some? <==> OrderOf(m, nft).owner == sender && OrderOf(m, nft).active != 0
  {
    var order := OrderOf(m, nft);
    if order.owner == sender && order.active != 0 {
      assert m.orders[OrderId(m, nft)].active != 0;
      assert order.nft == nft;
    }
  }

  class Storage {
    const self: Address
    const nfts: Collections
    const coins: Coins
    var orders: seq<Order>
    var balanceKSM: map<Address, nat>
    var asks: map<Nft, nat>
    var asksBySeller: map<Address, seq<nat>>
    var isEscrow: set<Address>
    var entered: bool

    function State(): Market
      reads this, nfts
    {
      Market(self, orders, balanceKSM, asks, asksBySeller, isEscrow, nfts.owners)
    }

    predicate Valid()
      reads this, nfts
    {
      !entered && Inv(State())
    }

    /** A caller is an account outside the contract. */
    predicate Outside(sender: Address)
      reads this
    {
      sender != self && sender != 0
    }

    constructor (self: Address, nfts: Collections, coins: Coins, escrows: set<Address>)
      requires self != 0 && forall nft :: nft in nfts.owners ==> nfts.owners[nft] != self && nfts.owners[nft] != 0
      ensures Valid() && Deployed(State()) && this.self == self && this.nfts == nfts && this.coins == coins
    {
      this.self, this.nfts, this.coins := self, nfts, coins;
      orders := [NO_ORDER];
      balanceKSM, asks, asksBySeller, isEscrow := map[], map[], map[], escrows;
      entered := false;
    }

    method AddAsk(sender: Address, now: nat, price: nat, currency: Address, nft: Nft, approved: bool) returns (ok: bool)
      requires Valid() && Outside(sender)
      modifies this, nfts
      ensures Valid()
      ensures var r := old(AfterAddAsk(State(), sender, now, price, currency, nft, approved));
              ok == r.Some? && State() == if ok then r.value else old(State())
    {
      ghost var before := State();
      if nft !in nfts.owners || nfts.owners[nft] != sender || !approved {
        return false;
      }
      orders := orders + [Order(nft, currency, price, now, sender, 1)];
      var orderId := |orders| - 1;
      asks := asks[nft := orderId];
      asksBySeller := asksBySeller[sender := (if sender in asksBySeller then asksBySeller[sender] else []) + [orderId]];
      assert State() == Listed(before, Order(nft, currency, price, now, sender, 1));
      ok := nfts.Transfer(sender, self, nft);
      AddAskKeeps(before, sender, now, price, currency, nft);
    }

    method EditAsk(sender: Address, now: nat, price: nat, currency: Address, nft: Nft, active: nat) returns (ok: bool)
      requires Valid() && Outside(sender)
      modifies this
      ensures Valid()
      ensures var r := old(AfterEditAsk(State(), sender, now, price, currency, nft, active));
              ok == r.Some? && State() == if ok then r.value else old(State())
    {
      ghost var before := State();
      var orderId := Get(asks, nft);
      if orders[orderId].owner != sender || orders[orderId].active == 0 {
        return false;
      }
      EditAskKeeps(before, sender, now, price, currency, nft, active);
      var order := orders[orderId];
      if price > 0 {
        order := order.(price := price);
      }
      if currency != 0 {
        order := order.(currency := currency);
      }
      order := order.(time := now, active := active);
      orders := orders[orderId := order];
      ok := true;
    }

    /** The owner of an open order can always cancel it: the contract still holds the NFT. */
    method CancelAsk(sender: Address, now: nat, nft: Nft) returns (ok: bool)
      requires Valid() && Outside(sender)
      modifies this, nfts
      ensures Valid()
      ensures var r := old(AfterCancelAsk(State(), sender, now, nft));
              ok == r.Some? && State() == if ok then r.value else old(State())
      ensures ok <==> old(OrderOf(State(), nft).owner == sender && OrderOf(State(), nft).active != 0)
    {
      ghost var before := State();
      CancelSucceedsIff(before, sender, now, nft);
      var orderId := Get(asks, nft);
      if orders[orderId].owner != sender || orders[orderId].active == 0 {
        return false;
      }
      CancelAskKeeps(before, sender, now, nft);
      orders := orders[orderId := orders[orderId].(time := now)];
      orders := orders[orderId := orders[orderId].(active := 0)];
      assert State() == SetOrder(before, nft, OrderOf(before, nft).(time := now, active := 0));
      ok := nfts.Transfer(self, orders[orderId].owner, nft);
    }

    method DepositKSM(sender: Address, amount: nat, account: Address) returns (ok: bool)
      requires Valid()
      modifies this`balanceKSM
      ensures Valid()
      ensures var r := old(AfterDepositKSM(State(), sender, amount, account));
              ok == r.Some? && State() == if ok then r.value else old(State())
    {
      if sender !in isEscrow || Get(balanceKSM, account) + amount >= WORD_LIMIT {
        return false;
      }
      balanceKSM := balanceKSM[account := Get(balanceKSM, account) + amount];
      SameOrdersKeep(old(State()), State());
      ok := true;
    }

    method BuyKSM(sender: Address, nft: Nft, buyer: Address, receiver: Address) returns (ok: bool)
      requires Valid()
      modifies this, nfts
      ensures Valid()
      ensures var r := old(AfterBuyKSM(State(), sender, nft, buyer, receiver));
              ok == r.Some? && State() == if ok then r.value else old(State())
      ensures ok ==> old(sender in isEscrow) || sender == buyer
      ensures ok ==> nfts.owners == old(nfts.owners)[nft := receiver]
      ensures ok ==> PriceMoved(old(State()), State(), buyer, old(OrderOf(State(), nft).owner), old(OrderOf(State(), nft).price))
    {
      var order := orders[Get(asks, nft)];
      if sender !in isEscrow && sender != buyer {
        return false;
      }
      var savedOrders, savedBalances := orders, balanceKSM;
      ok := MovePrice(buyer, order.owner, order.price);
      if ok {
        orders := orders[Get(asks, nft) := order.(active := 0)];
        ok := nfts.Transfer(self, receiver, nft);
        if ok {
          BuyKSMKeeps(old(State()), sender, nft, buyer, receiver);
          BuyKSMMovesPrice(old(State()), sender, nft, buyer, receiver);
        } else {
          orders, balanceKSM := savedOrders, savedBalances;
        }
      }
    }

    /** The two balance updates of a sale, with checked arithmetic. */
    method MovePrice(buyer: Address, seller: Address, price: nat) returns (ok: bool)
      modifies this`balanceKSM
      ensures ok <==> price <= old(Get(balanceKSM, buyer))
                      && Get(Pay(old(balanceKSM), buyer, seller, price), seller) < WORD_LIMIT
      ensures balanceKSM == if ok then Pay(old(balanceKSM), buyer, seller, price) else old(balanceKSM)
    {
      if Get(balanceKSM, buyer) < price {
        return false;
      }
      var saved := balanceKSM;
      balanceKSM := SetBalance(balanceKSM, buyer, Get(balanceKSM, buyer) - price);
      if Get(balanceKSM, seller) + price >= WORD_LIMIT {
        balanceKSM := saved;
        return false;
      }
      balanceKSM := SetBalance(balanceKSM, seller, Get(balanceKSM, seller) + price);
      ok := true;
    }

    /** The sale for native coins; value is what the caller sends along, accepted whether the seller's account takes
        the price. A refusal does not revert the sale. */
    method Buy(sender: Address, nft: Nft, value: nat, accepted: bool) returns (ok: bool, result: bool)
      requires Valid() && value <= Get(coins.holdings, sender)
      modifies this, nfts, coins
      ensures Valid()
      ensures var r := old(AfterBuy(State(), sender, nft, value));
              ok == r.Some? && State() == if ok then r.value else old(State())
      ensures result == (ok && accepted)
      ensures coins.holdings
           == if ok then PassThrough(old(coins.holdings), sender, self, old(OrderOf(State(), nft).owner), value, accepted)
              else old(coins.holdings)
    {
      result := false;
      var saved := orders;
      var order := orders[Get(asks, nft)];
      if value != order.price {
        return false, false;
      }
      orders := orders[Get(asks, nft) := orders[Get(asks, nft)].(active := 0)];
      ok := nfts.Transfer(self, sender, nft);
      if ok {
        BuyKeeps(old(State()), sender, nft, value);
        coins.Move(sender, self, value);
        if accepted {
          coins.Move(self, order.owner, order.price);
          result := true;
        }
      } else {
        orders := saved;
      }
    }

    method WithdrawAllKSM(sender: Address, account: Address) returns (ok: bool, lastBalance: nat)
      requires Valid()
      modifies this
      ensures Valid()
      ensures var r := old(AfterWithdrawAllKSM(State(), sender, account));
              ok == r.Some? && State() == if ok then r.value else old(State())
      ensures lastBalance == if ok then old(Get(balanceKSM, account)) else 0
    {
      if entered || (sender !in isEscrow && sender != account) {
        return false, 0;
      }
      entered := true;
      lastBalance := Get(balanceKSM, account);
      balanceKSM := balanceKSM[account := 0];
      SameOrdersKeep(old(State()), State());
      entered := false;
      ok := true;
    }

    method WithdrawKSM(sender: Address, amount: nat, account: Address) returns (ok: bool)
      requires Valid()
      modifies this`balanceKSM
      ensures Valid()
      ensures var r := old(AfterWithdrawKSM(State(), sender, amount, account));
              ok == r.Some? && State() == if ok then r.value else old(State())
    {
      if sender !in isEscrow || Get(balanceKSM, account) < amount {
        return false;
      }
      balanceKSM := balanceKSM[account := Get(balanceKSM, account) - amount];
      SameOrdersKeep(old(State()), State());
      ok := true;
    }
  }
}
