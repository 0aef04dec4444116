/** The offers and trades that the Unique daemon derives from the calls it scans
    (processAddAsk, processBuyKSM, processCancelAsk in src/escrow/unique.ts and the table operations of
    src/escrow/service.ts). The rows here are the fixed-price offers. */
module EscrowIndex {
  import opened Wrappers
  import opened Tables
  import opened Commission
  import CollectionAddress
  import C = Contract

  datatype Index = Index(asks: seq<Ask>, trades: seq<Trade>)

  // ---------------------------------------------------------------- collection ids and addresses

  /** The sixteen bytes every collection address starts with, as a number. */
  const PREFIX_VALUE: nat := 0x17c4_e645_3cc4_9aaa_aeac_a894_e6d9_683e

  /** The contract address of a collection, as a number. */
  function AddressOf(id: nat): Address {
    PREFIX_VALUE * 0x1_0000_0000 + id
  }

  /** The collection id that the daemon reads from an address: its last four bytes. */
  function IdOf(address: Address): nat {
    address % 0x1_0000_0000
  }

  lemma PrefixValue()
    ensures CollectionAddress.BytesValue(CollectionAddress.PREFIX, 0) == PREFIX_VALUE
  {
    var p := CollectionAddress.PREFIX;
    var first, second := p[..8], p[8..];
    assert p == first + second;
    CollectionAddress.BytesValueAppend(first, second, 0);
    assert first == [0x17, 0xc4, 0xe6, 0x45, 0x3c, 0xc4, 0x9a, 0xaa];
    assert second == [0xae, 0xac, 0xa8, 0x94, 0xe6, 0xd9, 0x68, 0x3e];
    EightBytes(first, 0);
    EightBytes(second, CollectionAddress.BytesValue(first, 0));
  }

  lemma EightBytes(b: seq<int>, value: int)
    requires |b| == 8
    ensures CollectionAddress.BytesValue(b, value)
         == (value * 0x1_0000_0000 + CollectionAddress.BytesValue(b[..4], 0)) * 0x1_0000_0000 + CollectionAddress.BytesValue(b[4..], 0)
    ensures CollectionAddress.BytesValue(b[..4], 0) == b[0] * 0x100_0000 + b[1] * 0x1_0000 + b[2] * 0x100 + b[3]
    ensures CollectionAddress.BytesValue(b[4..], 0) == b[4] * 0x100_0000 + b[5] * 0x1_0000 + b[6] * 0x100 + b[7]
  {
    assert b == b[..4] + b[4..];
    CollectionAddress.BytesValueAppend(b[..4], b[4..], value);
    CollectionAddress.FourBytesFrom(b[..4], value);
    CollectionAddress.FourBytesFrom(b[4..], CollectionAddress.BytesValue(b[..4], value));
    CollectionAddress.FourBytes(b[..4]);
    CollectionAddress.FourBytes(b[4..]);
  }

  /** That number is what the bytes of the address spell, and the id is read back from it. */
  lemma IdRoundTrip(id: nat)
    requires id < 0xffff_ffff
    ensures CollectionAddress.BytesValue(CollectionAddress.AddressBytes(id), 0) == AddressOf(id)
    ensures IdOf(AddressOf(id)) == id
  {
    CollectionAddress.AddressValue(id);
    PrefixValue();
    LowPart(PREFIX_VALUE, id);
  }

  lemma LowPart(high: int, low: nat)
    requires low < 0x1_0000_0000
    ensures (high * 0x1_0000_0000 + low) % 0x1_0000_0000 == low
  {
  }

  // ---------------------------------------------------------------- the table operations

  /** getActiveAsk */
  function FindLive(asks: seq<Ask>, collection: nat, token: nat): (r: Option<nat>)
    ensures r.Some? ==> r.value < |asks| && IsLive(asks[r.value], collection, token)
    ensures r.None? ==> !HasLive(asks, collection, token)
  {
    if asks == [] then None
    else
      var n := |asks| - 1;
      if IsLive(asks[n], collection, token) then Some(n) else FindLive(asks[..n], collection, token)
  }

  /** cancelAsk: every live row of the token. */
  function CancelLive(asks: seq<Ask>, collection: nat, token: nat): (r: seq<Ask>)
    ensures |r| == |asks|
    ensures forall i :: 0 <= i < |asks| ==>
      r[i] == if IsLive(asks[i], collection, token) then asks[i].(status := AskCancelled) else asks[i]
  {
    seq(|asks|, i requires 0 <= i < |asks| =>
      if IsLive(asks[i], collection, token) then asks[i].(status := AskCancelled) else asks[i])
  }

  predicate IsActive(ask: Ask, collection: nat, token: nat) {
    ask.collection == collection && ask.token == token && ask.status == AskActive
  }

  /** buyKSM: every active row of the token; a row removed by the administrator is left as it is. */
  function MarkBought(asks: seq<Ask>, collection: nat, token: nat, block: nat): (r: seq<Ask>)
    ensures |r| == |asks|
    ensures forall i :: 0 <= i < |asks| ==>
      r[i] == if IsActive(asks[i], collection, token) then asks[i].(status := AskBought, blockBuy := Some(block)) else asks[i]
  {
    seq(|asks|, i requires 0 <= i < |asks| =>
      if IsActive(asks[i], collection, token) then asks[i].(status := AskBought, blockBuy := Some(block)) else asks[i])
  }

  /** massFixPriceCancel */
  function RemoveByAdmin(asks: seq<Ask>, admin: Address): (r: seq<Ask>)
    ensures |r| == |asks|
    ensures forall i :: 0 <= i < |asks| ==>
      r[i] == if asks[i].status == AskActive && asks[i].seller != admin then asks[i].(status := AskRemoved) else asks[i]
  {
    seq(|asks|, i requires 0 <= i < |asks| =>
      if asks[i].status == AskActive && asks[i].seller != admin then asks[i].(status := AskRemoved) else asks[i])
  }

  /** How many rows that removes. */
  function RemovedCount(asks: seq<Ask>, admin: Address): nat {
    if asks == [] then 0
    else
      var n := |asks| - 1;
      RemovedCount(asks[..n], admin) + (if asks[n].status == AskActive && asks[n].seller != admin then 1 else 0)
  }

  function FixedPriceTrade(ask: Ask, buyer: Address, commission: nat): Trade {
    var price := PriceWithoutCommission(ask.price, commission);
    Trade(ask.collection, ask.token, price, ask.seller, buyer, ask.price, ask.price - price, FixedPrice)
  }

  // ---------------------------------------------------------------- what they are for

  /** A cancellation leaves the token without a live row, and whatever another token had. */
  lemma CancelLeavesNone(asks: seq<Ask>, collection: nat, token: nat)
    ensures FindLive(CancelLive(asks, collection, token), collection, token).None?
    ensures forall c, t :: c != collection || t != token ==>
      (HasLive(CancelLive(asks, collection, token), c, t) <==> HasLive(asks, c, t))
  {
    var asks' := CancelLive(asks, collection, token);
    forall c, t | c != collection || t != token ensures HasLive(asks', c, t) <==> HasLive(asks, c, t) {
      if HasLive(asks, c, t) {
        var i :| 0 <= i < |asks| && IsLive(asks[i], c, t);
        assert asks'[i] == asks[i];
      }
      if HasLive(asks', c, t) {
        var i :| 0 <= i < |asks| && IsLive(asks'[i], c, t);
        assert asks'[i] == asks[i];
      }
    }
  }

  /** A purchase leaves the token without a live row exactly when the administrator had removed none of its rows. */
  lemma BoughtLeavesNoneIff(asks: seq<Ask>, collection: nat, token: nat, block: nat)
    ensures FindLive(MarkBought(asks, collection, token, block), collection, token).None?
            <==> forall i :: 0 <= i < |asks| && IsLive(asks[i], collection, token) ==> asks[i].status == AskActive
  {
    var asks' := MarkBought(asks, collection, token, block);
    if exists i :: 0 <= i < |asks| && IsLive(asks[i], collection, token) && asks[i].status != AskActive {
      var i :| 0 <= i < |asks| && IsLive(asks[i], collection, token) && asks[i].status != AskActive;
      assert IsLive(asks'[i], collection, token);
    }
  }

  /** A mass removal leaves only the administrator's offers active, but frees no token for a new offer: each keeps
      its live row. Repeating it changes nothing. */
  lemma RemovalKeepsTokensTaken(asks: seq<Ask>, admin: Address)
    ensures forall i :: 0 <= i < |asks| && RemoveByAdmin(asks, admin)[i].status == AskActive ==> asks[i].seller == admin
    ensures forall c, t :: HasLive(RemoveByAdmin(asks, admin), c, t) <==> HasLive(asks, c, t)
    ensures RemoveByAdmin(RemoveByAdmin(asks, admin), admin) == RemoveByAdmin(asks, admin)
  {
    var asks' := RemoveByAdmin(asks, admin);
    forall c, t ensures HasLive(asks', c, t) <==> HasLive(asks, c, t) {
      if HasLive(asks, c, t) {
        var i :| 0 <= i < |asks| && IsLive(asks[i], c, t);
        assert IsLive(asks'[i], c, t);
      }
      if HasLive(asks', c, t) {
        var i :| 0 <= i < |asks| && IsLive(asks'[i], c, t);
        assert IsLive(asks[i], c, t);
      }
    }
  }

  // ---------------------------------------------------------------- the calls

  datatype Config = Config(managed: set<nat>, market: Address, commission: nat)

  /** A decoded call of an extrinsic that did not fail. */
  datatype Entry = Entry(signer: Address, target: Address, block: nat, call: C.Call)

  function IndexAddAsk(ix: Index, cfg: Config, e: Entry): Index
    requires e.call.AddAsk?
  {
    var collection, token := IdOf(e.call.nft.collection), e.call.nft.id;
    if collection !in cfg.managed then ix
    else
      var asks := if FindLive(ix.asks, collection, token).Some? then CancelLive(ix.asks, collection, token) else ix.asks;
      if e.target != cfg.market then ix.(asks := asks)
      else ix.(asks := asks + [Ask(AskActive, collection, token, e.call.price, e.signer, e.target, None)])
  }

  function IndexBuyKSM(ix: Index, cfg: Config, e: Entry): Index
    requires e.call.BuyKSM?
  {
    var collection, token := IdOf(e.call.nft.collection), e.call.nft.id;
    match FindLive(ix.asks, collection, token)
    case None => ix
    case Some(i) =>
      ix.(trades := ix.trades + [FixedPriceTrade(ix.asks[i], e.call.buyer, cfg.commission)],
          asks := MarkBought(ix.asks, collection, token, e.block))
  }

  function IndexCancelAsk(ix: Index, cfg: Config, e: Entry): Index
    requires e.call.CancelAsk?
  {
    var collection, token := IdOf(e.call.nft.collection), e.call.nft.id;
    if collection !in cfg.managed || FindLive(ix.asks, collection, token).None? then ix
    else ix.(asks := CancelLive(ix.asks, collection, token))
  }

  /** processCall; the methods it does not know leave the tables alone. */
  function IndexCall(ix: Index, cfg: Config, e: Entry): Index {
    match e.call
    case AddAsk(_, _, _, _) => IndexAddAsk(ix, cfg, e)
    case BuyKSM(_, _, _) => IndexBuyKSM(ix, cfg, e)
    case CancelAsk(_) => IndexCancelAsk(ix, cfg, e)
    case _ => ix
  }

  // ---------------------------------------------------------------- one live row per token

  datatype IndexEvent = Processed(entry: Entry) | MassRemoval(admin: Address)

  function NextIndex(ix: Index, cfg: Config, e: IndexEvent): Index {
    match e
    case Processed(entry) => IndexCall(ix, cfg, entry)
    case MassRemoval(admin) => ix.(asks := RemoveByAdmin(ix.asks, admin))
  }

  function RunIndex(ix: Index, cfg: Config, events: seq<IndexEvent>): Index {
    if events == [] then ix
    else NextIndex(RunIndex(ix, cfg, events[..|events| - 1]), cfg, events[|events| - 1])
  }

  lemma LiveRowIsUnique(asks: seq<Ask>, i: nat, collection: nat, token: nat)
    requires OneLivePerToken(asks) && i < |asks| && IsLive(asks[i], collection, token)
    ensures forall j :: 0 <= j < |asks| && j != i ==> !IsLive(asks[j], collection, token)
  {
    assert IsLive(asks[i], asks[i].collection, asks[i].token);
    forall j | 0 <= j < |asks| && IsLive(asks[j], asks[j].collection, asks[j].token) && j != i
      ensures !IsLive(asks[j], collection, token)
    {}
  }

  lemma OneLiveKept(ix: Index, cfg: Config, e: IndexEvent)
    requires OneLivePerToken(ix.asks)
    ensures OneLivePerToken(NextIndex(ix, cfg, e).asks)
  {
    match e
    case MassRemoval(admin) => OneLiveShrinks(ix.asks, RemoveByAdmin(ix.asks, admin));
    case Processed(entry) =>
      match entry.call {
        case AddAsk(_, _, nft, _) =>
          var collection, token := IdOf(nft.collection), nft.id;
          var asks := if FindLive(ix.asks, collection, token).Some? then CancelLive(ix.asks, collection, token) else ix.asks;
          OneLiveShrinks(ix.asks, asks);
          assert !HasLive(asks, collection, token);
          OneLiveGrows(asks, Ask(AskActive, collection, token, entry.call.price, entry.signer, entry.target, None));
        case BuyKSM(nft, _, _) => OneLiveShrinks(ix.asks, MarkBought(ix.asks, IdOf(nft.collection), nft.id, entry.block));
        case CancelAsk(nft) => OneLiveShrinks(ix.asks, CancelLive(ix.asks, IdOf(nft.collection), nft.id));
        case _ =>
      }
  }

  /** Whatever calls are scanned, to whatever target, and whenever the administrator removes offers, a token has
      at most one active or removed row: no insert ever meets the unique index. */
  lemma {:induction false} OneLiveRowPerToken(cfg: Config, events: seq<IndexEvent>)
    ensures OneLivePerToken(RunIndex(Index([], []), cfg, events).asks)
  {
    if events != [] {
      OneLiveRowPerToken(cfg, events[..|events| - 1]);
      OneLiveKept(RunIndex(Index([], []), cfg, events[..|events| - 1]), cfg, events[|events| - 1]);
    }
  }

  /** Scanning a sale leaves no live row exactly when the row was active: a row that the administrator had removed
      stays open, and scanning the same sale again would record it again. */
  lemma SaleClosesRowIff(ix: Index, cfg: Config, e: Entry)
    requires OneLivePerToken(ix.asks) && e.call.BuyKSM?
    requires FindLive(ix.asks, IdOf(e.call.nft.collection), e.call.nft.id).Some?
    ensures var collection, token := IdOf(e.call.nft.collection), e.call.nft.id;
            var i := FindLive(ix.asks, collection, token).value;
            FindLive(IndexCall(ix, cfg, e).asks, collection, token).None? <==> ix.asks[i].status == AskActive
  {
    var collection, token := IdOf(e.call.nft.collection), e.call.nft.id;
    var i := FindLive(ix.asks, collection, token).value;
    var asks' := MarkBought(ix.asks, collection, token, e.block);
    LiveRowIsUnique(ix.asks, i, collection, token);
    var found := FindLive(asks', collection, token);
    if ix.asks[i].status == AskActive {
      assert forall j :: 0 <= j < |asks'| ==> !IsLive(asks'[j], collection, token);
    } else {
      assert IsLive(asks'[i], collection, token);
    }
  }
}
