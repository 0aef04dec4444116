/** The tables that the auction services and the escrow daemons share. One network is modelled. */
module Tables {
  import opened Wrappers

  datatype AskStatus = AskActive | AskCancelled | AskBought | AskRemoved

  /** The offers that the partial unique index allows once per token. */
  predicate Live(st: AskStatus) {
    st == AskActive || st == AskRemoved
  }

  /** contract_ask */
  datatype Ask = Ask(
    status: AskStatus,
    collection: nat,
    token: nat,
    price: int,
    seller: Address,          // address_from
    addressTo: Address,
    blockBuy: Option<nat>)    // block_number_buy

  predicate IsLive(ask: Ask, collection: nat, token: nat) {
    ask.collection == collection && ask.token == token && Live(ask.status)
  }

  /** The unique index UNIQUE_active_contract_ask. */
  predicate OneLivePerToken(asks: seq<Ask>) {
    forall i, j :: 0 <= i < j < |asks| && IsLive(asks[i], asks[i].collection, asks[i].token)
      ==> !IsLive(asks[j], asks[i].collection, asks[i].token)
  }

  predicate HasLive(asks: seq<Ask>, collection: nat, token: nat) {
    exists i :: 0 <= i < |asks| && IsLive(asks[i], collection, token)
  }

  /** Rows that keep their token and do not come alive keep the index free of duplicates. */
  lemma OneLiveShrinks(asks: seq<Ask>, asks': seq<Ask>)
    requires OneLivePerToken(asks) && |asks'| == |asks|
    requires forall i :: 0 <= i < |asks| ==>
      asks'[i].collection == asks[i].collection && asks'[i].token == asks[i].token && (Live(asks'[i].status) ==> Live(asks[i].status))
    ensures OneLivePerToken(asks')
  {
    forall i, j | 0 <= i < j < |asks'| && IsLive(asks'[i], asks'[i].collection, asks'[i].token)
      ensures !IsLive(asks'[j], asks'[i].collection, asks'[i].token)
    {
      assert IsLive(asks[i], asks[i].collection, asks[i].token);
    }
  }

  lemma OneLiveGrows(asks: seq<Ask>, ask: Ask)
    requires OneLivePerToken(asks) && !HasLive(asks, ask.collection, ask.token)
    ensures OneLivePerToken(asks + [ask])
  {
    var asks' := asks + [ask];
    forall i, j | 0 <= i < j < |asks'| && IsLive(asks'[i], asks'[i].collection, asks'[i].token)
      ensures !IsLive(asks'[j], asks'[i].collection, asks'[i].token)
    {
      assert asks'[i] == asks[i];
      if j < |asks| { assert asks'[j] == asks[j]; }
    }
  }

  datatype SellingMethod = FixedPrice | AuctionSale

  /** market_trade */
  datatype Trade = Trade(
    collection: nat,
    token: nat,
    price: int,
    seller: Address,
    buyer: Address,
    originPrice: int,
    commission: int,
    method_: SellingMethod)
}
