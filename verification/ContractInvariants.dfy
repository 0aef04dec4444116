/** What every run of the market contract keeps. */
module ContractInvariants {
  import opened Wrappers
  import opened Sums
  import opened Contract

  // ---------------------------------------------------------------- indexes

  /** asks names the newest order of each NFT, or 0 when there is none. */
  predicate AsksIndex(m: Market) {
    && |m.orders| >= 1 && m.orders[0] == NO_ORDER
    && (forall nft :: nft in m.asks ==> m.asks[nft] < |m.orders|)
    && (forall nft :: nft in m.asks && m.asks[nft] != 0 ==> m.orders[m.asks[nft]].nft == nft)
    && (forall i :: 1 <= i < |m.orders| ==> i <= OrderId(m, m.orders[i].nft))
  }

  predicate Increasing(s: seq<nat>) {
    forall i, j :: 0 <= i < j < |s| ==> s[i] < s[j]
  }

  /** The lists by seller are increasing and hold every order id under its seller, and nothing else. */
  predicate SellerIndex(m: Market) {
    && |m.orders| >= 1
    && (forall s :: s in m.bySeller ==>
          Increasing(m.bySeller[s]) && forall k :: 0 <= k < |m.bySeller[s]| ==> 1 <= m.bySeller[s][k] < |m.orders|)
    && (forall s, i :: s in m.bySeller && i in m.bySeller[s] ==> m.orders[i].owner == s)
    && (forall i :: 1 <= i < |m.orders| ==> i in SellerList(m, m.orders[i].owner))
  }

  // ---------------------------------------------------------------- custody

  /** An order that is still open is the one asks names, and the contract holds its NFT. */
  predicate Custody(m: Market) {
    forall i :: 0 <= i < |m.orders| && m.orders[i].active != 0 ==>
      && i >= 1
      && OrderId(m, m.orders[i].nft) == i
      && m.orders[i].nft in m.owners && m.owners[m.orders[i].nft] == m.self
      && m.orders[i].owner != 0
  }

  predicate Inv(m: Market) {
    m.self != 0 && AsksIndex(m) && SellerIndex(m) && Custody(m)
  }

  /** Rewriting an order in place, without changing its NFT or owner or reopening it. */
  predicate Rewrites(m: Market, nft: Nft, order: Order) {
    && OrderId(m, nft) < |m.orders|
    && order.nft == OrderOf(m, nft).nft && order.owner == OrderOf(m, nft).owner
    && (OrderOf(m, nft).active == 0 ==> order.active == 0)
    && (OrderId(m, nft) == 0 ==> order == NO_ORDER)
  }

  lemma RewriteKeepsAsks(m: Market, nft: Nft, order: Order)
    requires AsksIndex(m) && Rewrites(m, nft, order)
    ensures AsksIndex(SetOrder(m, nft, order))
  {
    var m' := SetOrder(m, nft, order);
    forall i | 0 <= i < |m.orders| ensures m'.orders[i].nft == m.orders[i].nft {}
  }

  lemma RewriteKeepsSellers(m: Market, nft: Nft, order: Order)
    requires SellerIndex(m) && Rewrites(m, nft, order)
    ensures SellerIndex(SetOrder(m, nft, order))
  {
    var m' := SetOrder(m, nft, order);
    forall i | 0 <= i < |m.orders| ensures m'.orders[i].owner == m.orders[i].owner {}
    forall i | 1 <= i < |m'.orders| ensures i in SellerList(m', m'.orders[i].owner) {
      assert i in SellerList(m, m.orders[i].owner);
    }
  }

  lemma RewriteKeepsCustody(m: Market, nft: Nft, order: Order)
    requires Custody(m) && Rewrites(m, nft, order)
    ensures Custody(SetOrder(m, nft, order))
  {
    var m' := SetOrder(m, nft, order);
    forall i | 0 <= i < |m.orders| && m'.orders[i].active != 0
      ensures m.orders[i].active != 0 && m'.orders[i].nft == m.orders[i].nft && m'.orders[i].owner == m.orders[i].owner
    {}
  }

  /** Closing the order of an NFT and giving the NFT away. */
  lemma ReleaseKeepsCustody(m: Market, nft: Nft, order: Order, to: Address)
    requires AsksIndex(m) && Custody(m) && Rewrites(m, nft, order) && order.active == 0
    ensures Custody(SetOrder(m, nft, order).(owners := m.owners[nft := to]))
  {
    var m' := SetOrder(m, nft, order).(owners := m.owners[nft := to]);
    RewriteKeepsCustody(m, nft, order);
    forall i | 0 <= i < |m'.orders| && m'.orders[i].active != 0 ensures m'.orders[i].nft != nft {
      assert i != OrderId(m, nft);
      assert m.orders[i] == m'.orders[i];
    }
  }

  lemma AddAskKeepsAsks(m: Market, sender: Address, now: nat, price: nat, currency: Address, nft: Nft)
    requires AsksIndex(m) && AfterAddAsk(m, sender, now, price, currency, nft, true).Some?
    ensures AsksIndex(AfterAddAsk(m, sender, now, price, currency, nft, true).value)
  {
    var m' := AfterAddAsk(m, sender, now, price, currency, nft, true).value;
    assert forall i :: 0 <= i < |m.orders| ==> m'.orders[i] == m.orders[i];
  }

  lemma AddAskKeepsCustody(m: Market, sender: Address, now: nat, price: nat, currency: Address, nft: Nft)
    requires Custody(m) && sender != m.self && sender != 0 && AfterAddAsk(m, sender, now, price, currency, nft, true).Some?
    requires |m.orders| >= 1
    ensures Custody(AfterAddAsk(m, sender, now, price, currency, nft, true).value)
  {
    var m', id := AfterAddAsk(m, sender, now, price, currency, nft, true).value, |m.orders|;
    forall i | 0 <= i < id && m'.orders[i].active != 0 ensures m'.orders[i].nft != nft {
      assert m'.orders[i] == m.orders[i];
    }
  }

  lemma AddAskKeepsSellers(m: Market, sender: Address, now: nat, price: nat, currency: Address, nft: Nft)
    requires SellerIndex(m) && AfterAddAsk(m, sender, now, price, currency, nft, true).Some?
    ensures SellerIndex(AfterAddAsk(m, sender, now, price, currency, nft, true).value)
  {
    var m', id := AfterAddAsk(m, sender, now, price, currency, nft, true).value, |m.orders|;
    forall s | s in m'.bySeller
      ensures Increasing(m'.bySeller[s])
      ensures forall k :: 0 <= k < |m'.bySeller[s]| ==> 1 <= m'.bySeller[s][k] < |m'.orders|
    {
      if s != sender { assert m'.bySeller[s] == m.bySeller[s]; }
    }
    forall s, i | s in m'.bySeller && i in m'.bySeller[s] ensures m'.orders[i].owner == s {
      if s != sender { assert m'.bySeller[s] == m.bySeller[s]; }
    }
    forall i | 1 <= i < |m'.orders| ensures i in SellerList(m', m'.orders[i].owner) {
      if i < id {
        assert i in SellerList(m, m.orders[i].owner);
      } else {
        assert m'.bySeller[sender][|SellerList(m, sender)|] == id;
      }
    }
  }

  lemma RewriteKeeps(m: Market, nft: Nft, order: Order)
    requires Inv(m) && Rewrites(m, nft, order)
    ensures Inv(SetOrder(m, nft, order))
  {
    RewriteKeepsAsks(m, nft, order);
    RewriteKeepsSellers(m, nft, order);
    RewriteKeepsCustody(m, nft, order);
  }

  lemma ReleaseKeeps(m: Market, nft: Nft, order: Order, to: Address)
    requires Inv(m) && Rewrites(m, nft, order) && order.active == 0
    ensures Inv(SetOrder(m, nft, order).(owners := m.owners[nft := to]))
  {
    RewriteKeepsAsks(m, nft, order);
    RewriteKeepsSellers(m, nft, order);
    ReleaseKeepsCustody(m, nft, order, to);
    var m' := SetOrder(m, nft, order).(owners := m.owners[nft := to]);
    SameOrdersSameAsks(SetOrder(m, nft, order), m');
    SameOrdersSameSellers(SetOrder(m, nft, order), m');
  }

  predicate SameOrders(m: Market, m': Market) {
    m'.self == m.self && m'.orders == m.orders && m'.asks == m.asks && m'.bySeller == m.bySeller
  }

  lemma SameOrdersSameAsks(m: Market, m': Market)
    requires AsksIndex(m) && SameOrders(m, m')
    ensures AsksIndex(m')
  {
  }

  lemma SameOrdersSameSellers(m: Market, m': Market)
    requires SellerIndex(m) && SameOrders(m, m')
    ensures SellerIndex(m')
  {
    forall i | 1 <= i < |m'.orders| ensures i in SellerList(m', m'.orders[i].owner) {
      assert i in SellerList(m, m.orders[i].owner);
    }
  }

  lemma SameOrdersSameCustody(m: Market, m': Market)
    requires Custody(m) && SameOrders(m, m')
    requires forall nft :: nft in m.owners && m.owners[nft] == m.self ==> nft in m'.owners && m'.owners[nft] == m.self
    ensures Custody(m')
  {
  }

  /** Balances, escrows and NFTs the contract does not hold play no part in the invariant. */
  lemma SameOrdersKeep(m: Market, m': Market)
    requires Inv(m) && SameOrders(m, m')
    requires forall nft :: nft in m.owners && m.owners[nft] == m.self ==> nft in m'.owners && m'.owners[nft] == m.self
    ensures Inv(m')
  {
    SameOrdersSameAsks(m, m');
    SameOrdersSameSellers(m, m');
    SameOrdersSameCustody(m, m');
  }

  lemma AddAskKeeps(m: Market, sender: Address, now: nat, price: nat, currency: Address, nft: Nft)
    requires Inv(m) && sender != m.self && sender != 0 && AfterAddAsk(m, sender, now, price, currency, nft, true).Some?
    ensures Inv(AfterAddAsk(m, sender, now, price, currency, nft, true).value)
  {
    AddAskKeepsAsks(m, sender, now, price, currency, nft);
    AddAskKeepsSellers(m, sender, now, price, currency, nft);
    AddAskKeepsCustody(m, sender, now, price, currency, nft);
  }

  lemma EditAskKeeps(m: Market, sender: Address, now: nat, price: nat, currency: Address, nft: Nft, active: nat)
    requires Inv(m) && sender != 0 && AfterEditAsk(m, sender, now, price, currency, nft, active).Some?
    ensures Inv(AfterEditAsk(m, sender, now, price, currency, nft, active).value)
  {
    RewriteKeeps(m, nft, OrderOf(AfterEditAsk(m, sender, now, price, currency, nft, active).value, nft));
  }

  lemma CancelAskKeeps(m: Market, sender: Address, now: nat, nft: Nft)
    requires Inv(m) && sender != 0 && AfterCancelAsk(m, sender, now, nft).Some?
    ensures Inv(AfterCancelAsk(m, sender, now, nft).value)
  {
    ReleaseKeeps(m, nft, OrderOf(m, nft).(time := now, active := 0), OrderOf(m, nft).owner);
  }

  lemma BuyKSMKeeps(m: Market, sender: Address, nft: Nft, buyer: Address, receiver: Address)
    requires Inv(m) && AfterBuyKSM(m, sender, nft, buyer, receiver).Some?
    ensures Inv(AfterBuyKSM(m, sender, nft, buyer, receiver).value)
  {
    var order := OrderOf(m, nft).(active := 0);
    ReleaseKeeps(m, nft, order, receiver);
    SameOrdersKeep(SetOrder(m, nft, order).(owners := m.owners[nft := receiver]),
                   AfterBuyKSM(m, sender, nft, buyer, receiver).value);
  }

  lemma BuyKeeps(m: Market, sender: Address, nft: Nft, value: nat)
    requires Inv(m) && AfterBuy(m, sender, nft, value).Some?
    ensures Inv(AfterBuy(m, sender, nft, value).value)
  {
    ReleaseKeeps(m, nft, OrderOf(m, nft).(active := 0), sender);
  }

  lemma CallKeeps(m: Market, sender: Address, now: nat, call: Call)
    requires Inv(m) && sender != m.self && sender != 0 && Execute(m, sender, now, call).Some?
    ensures Inv(Execute(m, sender, now, call).value)
  {
    match call
    case AddAsk(price, currency, nft, approved) => AddAskKeeps(m, sender, now, price, currency, nft);
    case EditAsk(price, currency, nft, active) => EditAskKeeps(m, sender, now, price, currency, nft, active);
    case CancelAsk(nft) => CancelAskKeeps(m, sender, now, nft);
    case BuyKSM(nft, buyer, receiver) => BuyKSMKeeps(m, sender, nft, buyer, receiver);
    case Buy(nft, value) => BuyKeeps(m, sender, nft, value);
    case DepositKSM(_, _) => SameOrdersKeep(m, Execute(m, sender, now, call).value);
    case WithdrawAllKSM(_) => SameOrdersKeep(m, Execute(m, sender, now, call).value);
    case WithdrawKSM(_, _) => SameOrdersKeep(m, Execute(m, sender, now, call).value);
  }

  lemma NextKeeps(m: Market, h: Happening)
    requires Inv(m)
    ensures Inv(Next(m, h))
  {
    if Succeeds(m, h) {
      CallKeeps(m, h.sender, h.now, h.call);
    } else {
      OutsideKeeps(m, h);
    }
  }

  /** Nothing but a call moves an NFT that the contract holds. */
  lemma OutsideKeeps(m: Market, h: Happening)
    requires Inv(m) && !Succeeds(m, h)
    ensures Inv(Next(m, h))
  {
    if !h.Called? {
      SameOrdersKeep(m, Next(m, h));
    }
  }

  lemma {:induction false} RunKeeps(m: Market, happenings: seq<Happening>)
    requires Deployed(m)
    ensures Inv(Run(m, happenings))
  {
    if happenings != [] {
      RunKeeps(m, happenings[..|happenings| - 1]);
      NextKeeps(Run(m, happenings[..|happenings| - 1]), happenings[|happenings| - 1]);
    }
  }

  /** In every reachable state an open order is the newest of its NFT and the contract holds that NFT; so no NFT
      has two open orders. */
  lemma OpenOrdersAreHeld(m: Market, happenings: seq<Happening>, i: nat, j: nat)
    requires Deployed(m)
    requires var m' := Run(m, happenings);
             i < |m'.orders| && j < |m'.orders| && m'.orders[i].active != 0 && m'.orders[j].active != 0
    ensures var m' := Run(m, happenings);
            && m'.orders[i].nft in m'.owners && m'.owners[m'.orders[i].nft] == m'.self
            && OrderId(m', m'.orders[i].nft) == i
            && (m'.orders[i].nft == m'.orders[j].nft ==> i == j)
  {
    RunKeeps(m, happenings);
  }

  /** asks[nft] is the greatest order id with that NFT, and 0 exactly when no order has it. */
  lemma AsksNameNewestOrder(m: Market, happenings: seq<Happening>, nft: Nft)
    requires Deployed(m)
    ensures var m', id := Run(m, happenings), OrderId(Run(m, happenings), nft);
            && id < |m'.orders|
            && (id != 0 ==> m'.orders[id].nft == nft)
            && (forall i :: 1 <= i < |m'.orders| && m'.orders[i].nft == nft ==> i <= id)
            && (id == 0 <==> forall i :: 1 <= i < |m'.orders| ==> m'.orders[i].nft != nft)
  {
    RunKeeps(m, happenings);
  }

  /** The lists by seller partition the order ids. */
  lemma SellerListsPartitionOrders(m: Market, happenings: seq<Happening>, seller: Address, i: nat)
    requires Deployed(m)
    ensures var m' := Run(m, happenings);
            && Increasing(SellerList(m', seller))
            && (i in SellerList(m', seller) <==> 1 <= i < |m'.orders| && m'.orders[i].owner == seller)
  {
    RunKeeps(m, happenings);
    var m' := Run(m, happenings);
    if i in SellerList(m', seller) {
      var k :| 0 <= k < |SellerList(m', seller)| && SellerList(m', seller)[k] == i;
    }
  }

  // ---------------------------------------------------------------- KSM balances

  /** What a successful call adds to the money on the contract. */
  function Inflow(m: Market, h: Happening): int {
    var none: int := 0;
    if !Succeeds(m, h) then none
    else
      match h.call
      case DepositKSM(amount, _) => none + amount
      case WithdrawAllKSM(account) => none - Get(m.balances, account)
      case WithdrawKSM(amount, _) => none - amount
      case _ => none
  }

  /** Deposits minus withdrawals along a run. */
  function NetInflow(m: Market, happenings: seq<Happening>): int {
    if happenings == [] then 0
    else
      var n := |happenings| - 1;
      NetInflow(m, happenings[..n]) + Inflow(Run(m, happenings[..n]), happenings[n])
  }

  /** A sale moves money between two balances; seller and buyer may be the same. */
  lemma PayConserves(balances: map<Address, nat>, buyer: Address, seller: Address, price: nat)
    requires price <= Get(balances, buyer)
    ensures Sum(Pay(balances, buyer, seller, price)) == Sum(balances)
  {
    var paid := SetBalance(balances, buyer, Get(balances, buyer) - price);
    SumAfterSet(balances, buyer, Get(balances, buyer) - price);
    SumAfterSet(paid, seller, Get(paid, seller) + price);
  }

  lemma SumAfterSet(balances: map<Address, nat>, account: Address, amount: nat)
    ensures Sum(SetBalance(balances, account, amount)) == Sum(balances) - Get(balances, account) + amount
  {
    SumUpdate(balances, account, amount);
  }

  lemma InflowIsSumChange(m: Market, h: Happening)
    ensures Sum(Next(m, h).balances) == Sum(m.balances) + Inflow(m, h)
  {
    if Succeeds(m, h) {
      CallMovesInflow(m, h);
    }
  }

  lemma BuyKSMConserves(m: Market, sender: Address, nft: Nft, buyer: Address, receiver: Address)
    requires AfterBuyKSM(m, sender, nft, buyer, receiver).Some?
    ensures Sum(AfterBuyKSM(m, sender, nft, buyer, receiver).value.balances) == Sum(m.balances)
  {
    PayConserves(m.balances, buyer, OrderOf(m, nft).owner, OrderOf(m, nft).price);
  }

  lemma DepositKSMMoves(m: Market, sender: Address, amount: nat, account: Address)
    requires AfterDepositKSM(m, sender, amount, account).Some?
    ensures Sum(AfterDepositKSM(m, sender, amount, account).value.balances) == Sum(m.balances) + amount
  {
    SumAfterSet(m.balances, account, Get(m.balances, account) + amount);
  }

  lemma WithdrawAllKSMMoves(m: Market, sender: Address, account: Address)
    requires AfterWithdrawAllKSM(m, sender, account).Some?
    ensures Sum(AfterWithdrawAllKSM(m, sender, account).value.balances) == Sum(m.balances) - Get(m.balances, account)
  {
    SumAfterSet(m.balances, account, 0);
  }

  lemma WithdrawKSMMoves(m: Market, sender: Address, amount: nat, account: Address)
    requires AfterWithdrawKSM(m, sender, amount, account).Some?
    ensures Sum(AfterWithdrawKSM(m, sender, amount, account).value.balances) == Sum(m.balances) - amount
  {
    SumAfterSet(m.balances, account, Get(m.balances, account) - amount);
  }

  lemma CallMovesInflow(m: Market, h: Happening)
    requires Succeeds(m, h)
    ensures Sum(Execute(m, h.sender, h.now, h.call).value.balances) == Sum(m.balances) + Inflow(m, h)
  {
    match h.call
    case DepositKSM(amount, account) => DepositKSMMoves(m, h.sender, amount, account);
    case WithdrawAllKSM(account) => WithdrawAllKSMMoves(m, h.sender, account);
    case WithdrawKSM(amount, account) => WithdrawKSMMoves(m, h.sender, amount, account);
    case BuyKSM(nft, buyer, receiver) => BuyKSMConserves(m, h.sender, nft, buyer, receiver);
    case _ =>
  }

  /** The balances on the contract add up to exactly what came in and has not gone out again. */
  lemma {:induction false} BalancesAreInflow(m: Market, happenings: seq<Happening>)
    requires Deployed(m)
    ensures Sum(Run(m, happenings).balances) == NetInflow(m, happenings)
  {
    if happenings != [] {
      var n := |happenings| - 1;
      BalancesAreInflow(m, happenings[..n]);
      InflowIsSumChange(Run(m, happenings[..n]), happenings[n]);
    }
  }
}
