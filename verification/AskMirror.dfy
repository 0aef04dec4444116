/** The scanned offers against the order book of the contract: whether the daemon's table shows exactly the open
    orders of the managed collections, and which calls keep it so. */
module AskMirror {
  import opened Wrappers
  import opened Tables
  import opened Contract
  import opened ContractInvariants
  import opened EscrowIndex

  predicate ManagedIds(cfg: Config) {
    forall c :: c in cfg.managed ==> c < 0xffff_ffff
  }

  function NftOf(collection: nat, token: nat): Nft {
    Nft(AddressOf(collection), token)
  }

  // ---------------------------------------------------------------- what is shown for a token

  datatype Offer = Offer(price: int, seller: Address)

  /** The offer the table shows for a token. */
  function TableView(asks: seq<Ask>, collection: nat, token: nat): Option<Offer> {
    match FindLive(asks, collection, token)
    case None => None
    case Some(i) => Some(Offer(asks[i].price, asks[i].seller))
  }

  /** The open order of the NFT that the token stands for. */
  function BookView(m: Market, collection: nat, token: nat): Option<Offer> {
    var order := OrderOf(m, NftOf(collection, token));
    if order.active != 0 then Some(Offer(order.price, order.owner)) else None
  }

  /** One live row per token, all of them of managed collections. */
  predicate Tidy(ix: Index, cfg: Config) {
    && OneLivePerToken(ix.asks)
    && forall i :: 0 <= i < |ix.asks| && Live(ix.asks[i].status) ==> ix.asks[i].collection in cfg.managed
  }

  predicate NoneRemoved(ix: Index) {
    forall i :: 0 <= i < |ix.asks| ==> ix.asks[i].status != AskRemoved
  }

  /** And none of them removed by the administrator. */
  predicate Clean(ix: Index, cfg: Config) {
    Tidy(ix, cfg) && NoneRemoved(ix)
  }

  /** The token's live row is one that the administrator removed. */
  predicate HasRemoved(asks: seq<Ask>, collection: nat, token: nat) {
    var found := FindLive(asks, collection, token);
    found.Some? && asks[found.value].status == AskRemoved
  }

  /** A token of a managed collection has an active row exactly when its order is open, with its price and seller. */
  ghost predicate Mirrored(ix: Index, m: Market, cfg: Config) {
    && Clean(ix, cfg)
    && forall c: nat, t: nat :: c in cfg.managed ==> TableView(ix.asks, c, t) == BookView(m, c, t)
  }

  lemma {:induction false} SameRowsSameView(asks: seq<Ask>, asks': seq<Ask>, c: nat, t: nat)
    requires |asks'| == |asks|
    requires forall i :: 0 <= i < |asks| ==> asks'[i].collection == asks[i].collection && asks'[i].token == asks[i].token
    requires forall i :: 0 <= i < |asks| && asks[i].collection == c && asks[i].token == t ==> asks'[i] == asks[i]
    ensures FindLive(asks', c, t) == FindLive(asks, c, t)
    ensures TableView(asks', c, t) == TableView(asks, c, t) && HasRemoved(asks', c, t) == HasRemoved(asks, c, t)
  {
    if asks != [] {
      var n := |asks| - 1;
      SameRowsSameView(asks[..n], asks'[..n], c, t);
    }
  }

  // ---------------------------------------------------------------- a scanned call and the table

  /** The token that a call is about, among the calls that the daemon acts on. */
  predicate Touches(call: Call, c: nat, t: nat) {
    (call.AddAsk? || call.CancelAsk? || call.BuyKSM?) && IdOf(call.nft.collection) == c && call.nft.id == t
  }

  /** What the call makes the table show for its token, whatever it showed before. */
  function ShownAfter(cfg: Config, e: Entry): Option<Offer> {
    if e.call.AddAsk? && e.target == cfg.market then Some(Offer(e.call.price, e.signer)) else None
  }

  lemma AddAskView(ix: Index, cfg: Config, e: Entry, c: nat, t: nat)
    requires e.call.AddAsk? && c in cfg.managed
    ensures var asks' := IndexAddAsk(ix, cfg, e).asks;
            if Touches(e.call, c, t) then TableView(asks', c, t) == ShownAfter(cfg, e) && !HasRemoved(asks', c, t)
            else TableView(asks', c, t) == TableView(ix.asks, c, t) && HasRemoved(asks', c, t) == HasRemoved(ix.asks, c, t)
  {
    var collection, token := IdOf(e.call.nft.collection), e.call.nft.id;
    if collection in cfg.managed {
      var asks := if FindLive(ix.asks, collection, token).Some? then CancelLive(ix.asks, collection, token) else ix.asks;
      var ask := Ask(AskActive, collection, token, e.call.price, e.signer, e.target, None);
      assert (asks + [ask])[..|asks|] == asks;
      if !Touches(e.call, c, t) {
        SameRowsSameView(ix.asks, asks, c, t);
      } else {
        assert !HasLive(asks, c, t);
      }
    }
  }

  lemma CancelAskView(ix: Index, cfg: Config, e: Entry, c: nat, t: nat)
    requires e.call.CancelAsk? && c in cfg.managed
    ensures var asks' := IndexCancelAsk(ix, cfg, e).asks;
            if Touches(e.call, c, t) then TableView(asks', c, t) == None
            else TableView(asks', c, t) == TableView(ix.asks, c, t) && HasRemoved(asks', c, t) == HasRemoved(ix.asks, c, t)
  {
    if Touches(e.call, c, t) {
      CancelLeavesNone(ix.asks, c, t);
    } else {
      SameRowsSameView(ix.asks, IndexCancelAsk(ix, cfg, e).asks, c, t);
    }
  }

  lemma BuyKSMView(ix: Index, cfg: Config, e: Entry, c: nat, t: nat)
    requires OneLivePerToken(ix.asks) && e.call.BuyKSM? && c in cfg.managed
    ensures var asks' := IndexBuyKSM(ix, cfg, e).asks;
            if Touches(e.call, c, t) then HasRemoved(asks', c, t) || TableView(asks', c, t) == None
            else TableView(asks', c, t) == TableView(ix.asks, c, t) && HasRemoved(asks', c, t) == HasRemoved(ix.asks, c, t)
  {
    var asks' := IndexBuyKSM(ix, cfg, e).asks;
    if Touches(e.call, c, t) {
      var found := FindLive(asks', c, t);
      if found.Some? {
        assert asks'[found.value].status != AskActive;
      }
    } else {
      SameRowsSameView(ix.asks, asks', c, t);
    }
  }

  /** A scanned call sets what is shown for its token, unless that is left to a removed row, and leaves every other
      token alone. */
  lemma CallSetsViewOrRemoved(ix: Index, cfg: Config, e: Entry, c: nat, t: nat)
    requires OneLivePerToken(ix.asks) && c in cfg.managed
    ensures var asks' := IndexCall(ix, cfg, e).asks;
            if Touches(e.call, c, t) then HasRemoved(asks', c, t) || TableView(asks', c, t) == ShownAfter(cfg, e)
            else TableView(asks', c, t) == TableView(ix.asks, c, t) && HasRemoved(asks', c, t) == HasRemoved(ix.asks, c, t)
  {
    match e.call
    case AddAsk(_, _, _, _) => AddAskView(ix, cfg, e, c, t);
    case CancelAsk(_) => CancelAskView(ix, cfg, e, c, t);
    case BuyKSM(_, _, _) => BuyKSMView(ix, cfg, e, c, t);
    case _ =>
  }

  lemma CallKeepsClean(ix: Index, cfg: Config, e: Entry)
    requires Tidy(ix, cfg)
    ensures Tidy(IndexCall(ix, cfg, e), cfg)
    ensures NoneRemoved(ix) ==> Clean(IndexCall(ix, cfg, e), cfg)
  {
    OneLiveKept(ix, cfg, Processed(e));
  }

  /** Without removed rows, a scanned call sets what is shown for its token and leaves every other token alone. */
  lemma CallSetsView(ix: Index, cfg: Config, e: Entry, c: nat, t: nat)
    requires Clean(ix, cfg) && c in cfg.managed
    ensures TableView(IndexCall(ix, cfg, e).asks, c, t) == if Touches(e.call, c, t) then ShownAfter(cfg, e) else TableView(ix.asks, c, t)
  {
    CallSetsViewOrRemoved(ix, cfg, e, c, t);
    CallKeepsClean(ix, cfg, e);
  }

  // ---------------------------------------------------------------- a call and the order book

  /** What a successful call makes the order book show for its NFT. */
  function BookAfter(m: Market, sender: Address, call: Call): Option<Offer>
    requires call.AddAsk? || call.EditAsk? || call.CancelAsk? || call.BuyKSM? || call.Buy?
  {
    match call
    case AddAsk(price, _, _, _) => Some(Offer(price, sender))
    case EditAsk(price, _, nft, active) =>
      if active == 0 then None else Some(Offer(if price > 0 then price else OrderOf(m, nft).price, OrderOf(m, nft).owner))
    case _ => None
  }

  predicate ChangesBook(call: Call, nft: Nft) {
    (call.AddAsk? || call.EditAsk? || call.CancelAsk? || call.BuyKSM? || call.Buy?) && call.nft == nft
  }

  lemma IdsAreDistinct(m: Market, nft: Nft, other: Nft)
    requires AsksIndex(m) && OrderId(m, nft) == OrderId(m, other) && OrderId(m, nft) != 0
    ensures nft == other
  {
    assert m.orders[OrderId(m, nft)].nft == nft;
  }

  lemma RewriteChangesOne(m: Market, m': Market, nft: Nft, order: Order, other: Nft)
    requires AsksIndex(m) && Rewrites(m, nft, order) && m'.asks == m.asks && m'.orders == SetOrder(m, nft, order).orders
    ensures OrderOf(m', other) == if other == nft then order else OrderOf(m, other)
  {
    if other != nft && OrderId(m, other) == OrderId(m, nft) && OrderId(m, nft) != 0 {
      IdsAreDistinct(m, nft, other);
      assert false;
    }
  }

  lemma ListingSetsBook(m: Market, order: Order, owners: map<Nft, Address>, c: nat, t: nat)
    requires AsksIndex(m) && order.active != 0
    ensures BookView(Listed(m, order).(owners := owners), c, t)
         == if order.nft == NftOf(c, t) then Some(Offer(order.price, order.owner)) else BookView(m, c, t)
  {
    var m' := Listed(m, order).(owners := owners);
    if order.nft == NftOf(c, t) {
      assert OrderOf(m', order.nft) == m'.orders[|m.orders|];
    } else {
      assert OrderId(m', NftOf(c, t)) == OrderId(m, NftOf(c, t));
    }
  }

  lemma RewriteSetsBook(m: Market, m': Market, nft: Nft, order: Order, c: nat, t: nat)
    requires AsksIndex(m) && Rewrites(m, nft, order) && m'.asks == m.asks && m'.orders == SetOrder(m, nft, order).orders
    ensures BookView(m', c, t)
         == if nft != NftOf(c, t) then BookView(m, c, t)
            else if order.active != 0 then Some(Offer(order.price, order.owner)) else None
  {
    RewriteChangesOne(m, m', nft, order, NftOf(c, t));
  }

  lemma AddAskSetsBook(m: Market, h: Happening, c: nat, t: nat)
    requires Inv(m) && Succeeds(m, h) && h.call.AddAsk?
    ensures BookView(Next(m, h), c, t) == if ChangesBook(h.call, NftOf(c, t)) then BookAfter(m, h.sender, h.call) else BookView(m, c, t)
  {
    ListingSetsBook(m, Order(h.call.nft, h.call.currency, h.call.price, h.now, h.sender, 1), Next(m, h).owners, c, t);
  }

  lemma EditAskSetsBook(m: Market, h: Happening, c: nat, t: nat)
    requires Inv(m) && Succeeds(m, h) && h.call.EditAsk?
    ensures BookView(Next(m, h), c, t) == if ChangesBook(h.call, NftOf(c, t)) then BookAfter(m, h.sender, h.call) else BookView(m, c, t)
  {
    RewriteSetsBook(m, Next(m, h), h.call.nft, OrderOf(Next(m, h), h.call.nft), c, t);
  }

  lemma CancelAskSetsBook(m: Market, h: Happening, c: nat, t: nat)
    requires Inv(m) && Succeeds(m, h) && h.call.CancelAsk?
    ensures BookView(Next(m, h), c, t) == if ChangesBook(h.call, NftOf(c, t)) then None else BookView(m, c, t)
  {
    RewriteSetsBook(m, Next(m, h), h.call.nft, OrderOf(m, h.call.nft).(time := h.now, active := 0), c, t);
  }

  lemma SaleSetsBook(m: Market, h: Happening, c: nat, t: nat)
    requires Inv(m) && Succeeds(m, h) && (h.call.BuyKSM? || h.call.Buy?)
    ensures BookView(Next(m, h), c, t) == if ChangesBook(h.call, NftOf(c, t)) then None else BookView(m, c, t)
  {
    RewriteSetsBook(m, Next(m, h), h.call.nft, OrderOf(m, h.call.nft).(active := 0), c, t);
  }

  lemma CallSetsBook(m: Market, h: Happening, c: nat, t: nat)
    requires Inv(m) && Succeeds(m, h)
    ensures BookView(Next(m, h), c, t)
         == if ChangesBook(h.call, NftOf(c, t)) then BookAfter(m, h.sender, h.call) else BookView(m, c, t)
  {
    match h.call
    case AddAsk(_, _, _, _) => AddAskSetsBook(m, h, c, t);
    case EditAsk(_, _, _, _) => EditAskSetsBook(m, h, c, t);
    case CancelAsk(_) => CancelAskSetsBook(m, h, c, t);
    case BuyKSM(_, _, _) => SaleSetsBook(m, h, c, t);
    case Buy(_, _) => SaleSetsBook(m, h, c, t);
    case _ =>
  }

  lemma OtherwiseSameBook(m: Market, h: Happening, c: nat, t: nat)
    requires !Succeeds(m, h)
    ensures BookView(Next(m, h), c, t) == BookView(m, c, t)
  {
  }

  // ---------------------------------------------------------------- what can happen to either

  datatype Occurrence =
    | Local(h: Happening)          // around the market contract
    | Elsewhere(entry: Entry)      // a decodable call to another address
    | Removal(admin: Address)      // massFixPriceCancel

  function MarketAfter(m: Market, o: Occurrence): Market {
    if o.Local? then Next(m, o.h) else m
  }

  function EntryOf(cfg: Config, h: Happening): Entry
    requires h.Called?
  {
    Entry(h.sender, cfg.market, h.now, h.call)
  }

  /** The table after the daemon has seen it. */
  function TableAfter(ix: Index, m: Market, cfg: Config, o: Occurrence): Index {
    match o
    case Local(h) => if Succeeds(m, h) then IndexCall(ix, cfg, EntryOf(cfg, h)) else ix
    case Elsewhere(entry) => if entry.target == cfg.market then ix else IndexCall(ix, cfg, entry)
    case Removal(admin) => ix.(asks := RemoveByAdmin(ix.asks, admin))
  }

  /** The NFT's collection is not at the address of the chain's own collection with that id: its address only ends
      in the same four bytes. */
  predicate Lookalike(nft: Nft) {
    nft != NftOf(IdOf(nft.collection), nft.id)
  }

  predicate IsManaged(cfg: Config, nft: Nft) {
    IdOf(nft.collection) in cfg.managed
  }

  /** The order book's offer for the token that a daemon takes the NFT for. */
  function BookOffer(m: Market, nft: Nft): Option<Offer> {
    BookView(m, IdOf(nft.collection), nft.id)
  }

  /** Which calls on the contract keep table and book in agreement. */
  predicate CallKeepsMirror(m: Market, cfg: Config, sender: Address, call: Call) {
    match call
    case AddAsk(price, _, nft, _) => IsManaged(cfg, nft) && Lookalike(nft) ==> BookOffer(m, nft) == Some(Offer(price, sender))
    case CancelAsk(nft) => IsManaged(cfg, nft) && Lookalike(nft) ==> BookOffer(m, nft) == None
    case BuyKSM(nft, _, _) => IsManaged(cfg, nft) && Lookalike(nft) ==> BookOffer(m, nft) == None
    case EditAsk(price, _, nft, active) =>
      IsManaged(cfg, nft) && !Lookalike(nft) ==> active != 0 && (price == 0 || price == OrderOf(m, nft).price)
    case Buy(nft, _) => IsManaged(cfg, nft) && !Lookalike(nft) ==> OrderOf(m, nft).active == 0
    case _ => true
  }

  predicate KeepsMirror(ix: Index, m: Market, cfg: Config, o: Occurrence) {
    match o
    case Local(h) => Succeeds(m, h) ==> CallKeepsMirror(m, cfg, h.sender, h.call)
    case Elsewhere(entry) =>
      entry.target != cfg.market && (entry.call.AddAsk? || entry.call.CancelAsk? || entry.call.BuyKSM?) ==>
        FindLive(ix.asks, IdOf(entry.call.nft.collection), entry.call.nft.id).None?
    case Removal(admin) => forall i :: 0 <= i < |ix.asks| && ix.asks[i].status == AskActive ==> ix.asks[i].seller == admin
  }

  lemma NftOfIsInjective(c: nat, t: nat)
    requires c < 0x1_0000_0000
    ensures IdOf(NftOf(c, t).collection) == c
  {
    LowPart(PREFIX_VALUE, c);
  }

  /** The one token on which table and book may have come apart. */
  lemma MirroredIffAt(ix: Index, m: Market, cfg: Config, ix': Index, m': Market, c: nat, t: nat)
    requires Mirrored(ix, m, cfg) && Clean(ix', cfg) && c in cfg.managed
    requires forall x: nat, y: nat :: x in cfg.managed && (x != c || y != t) ==>
      TableView(ix'.asks, x, y) == TableView(ix.asks, x, y) && BookView(m', x, y) == BookView(m, x, y)
    ensures Mirrored(ix', m', cfg) <==> TableView(ix'.asks, c, t) == BookView(m', c, t)
  {
    if TableView(ix'.asks, c, t) == BookView(m', c, t) {
      forall x: nat, y: nat | x in cfg.managed ensures TableView(ix'.asks, x, y) == BookView(m', x, y) {
        if x != c || y != t {
          assert TableView(ix.asks, x, y) == BookView(m, x, y);
        }
      }
    }
  }

  lemma MirroredElsewhere(ix: Index, m: Market, cfg: Config, ix': Index, m': Market)
    requires Mirrored(ix, m, cfg) && Clean(ix', cfg)
    requires forall x: nat, y: nat :: x in cfg.managed ==>
      TableView(ix'.asks, x, y) == TableView(ix.asks, x, y) && BookView(m', x, y) == BookView(m, x, y)
    ensures Mirrored(ix', m', cfg)
  {
    forall x: nat, y: nat | x in cfg.managed ensures TableView(ix'.asks, x, y) == BookView(m', x, y) {
      assert TableView(ix.asks, x, y) == BookView(m, x, y);
    }
  }

  predicate OnNft(call: Call) {
    call.AddAsk? || call.EditAsk? || call.CancelAsk? || call.BuyKSM? || call.Buy?
  }

  lemma LocalKeepsIff(ix: Index, m: Market, cfg: Config, h: Happening)
    requires Mirrored(ix, m, cfg) && Inv(m) && ManagedIds(cfg) && Succeeds(m, h)
    ensures Mirrored(IndexCall(ix, cfg, EntryOf(cfg, h)), Next(m, h), cfg) <==> CallKeepsMirror(m, cfg, h.sender, h.call)
  {
    var e, ix', m' := EntryOf(cfg, h), IndexCall(ix, cfg, EntryOf(cfg, h)), Next(m, h);
    CallKeepsClean(ix, cfg, e);
    forall x: nat, y: nat | x in cfg.managed
      ensures TableView(ix'.asks, x, y) == if Touches(e.call, x, y) then ShownAfter(cfg, e) else TableView(ix.asks, x, y)
      ensures BookView(m', x, y) == if ChangesBook(h.call, NftOf(x, y)) then BookAfter(m, h.sender, h.call) else BookView(m, x, y)
    {
      CallSetsView(ix, cfg, e, x, y);
      CallSetsBook(m, h, x, y);
    }
    if OnNft(h.call) && IsManaged(cfg, h.call.nft) {
      OneTokenKeepsIff(ix, m, cfg, h);
    } else {
      forall x: nat, y: nat | x in cfg.managed ensures !Touches(e.call, x, y) && !ChangesBook(h.call, NftOf(x, y)) {
        NftOfIsInjective(x, y);
      }
      MirroredElsewhere(ix, m, cfg, ix', m');
    }
  }

  lemma OneTokenKeepsIff(ix: Index, m: Market, cfg: Config, h: Happening)
    requires Mirrored(ix, m, cfg) && Inv(m) && ManagedIds(cfg) && Succeeds(m, h)
    requires OnNft(h.call) && IsManaged(cfg, h.call.nft)
    ensures Mirrored(IndexCall(ix, cfg, EntryOf(cfg, h)), Next(m, h), cfg) <==> CallKeepsMirror(m, cfg, h.sender, h.call)
  {
    var e, ix', m' := EntryOf(cfg, h), IndexCall(ix, cfg, EntryOf(cfg, h)), Next(m, h);
    var c, t := IdOf(h.call.nft.collection), h.call.nft.id;
    CallKeepsClean(ix, cfg, e);
    forall x: nat, y: nat | x in cfg.managed && (x != c || y != t)
      ensures TableView(ix'.asks, x, y) == TableView(ix.asks, x, y) && BookView(m', x, y) == BookView(m, x, y)
    {
      CallSetsView(ix, cfg, e, x, y);
      CallSetsBook(m, h, x, y);
      NftOfIsInjective(x, y);
    }
    MirroredIffAt(ix, m, cfg, ix', m', c, t);
    CallSetsView(ix, cfg, e, c, t);
    CallSetsBook(m, h, c, t);
    assert TableView(ix.asks, c, t) == BookView(m, c, t);
  }

  lemma ElsewhereKeepsIff(ix: Index, m: Market, cfg: Config, e: Entry)
    requires Mirrored(ix, m, cfg) && e.target != cfg.market
    ensures Mirrored(IndexCall(ix, cfg, e), m, cfg) <==> KeepsMirror(ix, m, cfg, Elsewhere(e))
  {
    var ix' := IndexCall(ix, cfg, e);
    CallKeepsClean(ix, cfg, e);
    forall x: nat, y: nat | x in cfg.managed
      ensures TableView(ix'.asks, x, y) == if Touches(e.call, x, y) then None else TableView(ix.asks, x, y)
    {
      CallSetsView(ix, cfg, e, x, y);
    }
    if (e.call.AddAsk? || e.call.CancelAsk? || e.call.BuyKSM?) && IdOf(e.call.nft.collection) in cfg.managed {
      var c, t := IdOf(e.call.nft.collection), e.call.nft.id;
      MirroredIffAt(ix, m, cfg, ix', m, c, t);
      assert TableView(ix.asks, c, t) == BookView(m, c, t);
    } else {
      MirroredElsewhere(ix, m, cfg, ix', m);
    }
  }

  lemma RemovalKeepsIff(ix: Index, m: Market, cfg: Config, admin: Address)
    requires Mirrored(ix, m, cfg)
    ensures Mirrored(ix.(asks := RemoveByAdmin(ix.asks, admin)), m, cfg) <==> KeepsMirror(ix, m, cfg, Removal(admin))
  {
    var asks' := RemoveByAdmin(ix.asks, admin);
    if KeepsMirror(ix, m, cfg, Removal(admin)) {
      assert asks' == ix.asks;
    } else {
      var i :| 0 <= i < |ix.asks| && ix.asks[i].status == AskActive && ix.asks[i].seller != admin;
      assert asks'[i].status == AskRemoved;
    }
  }

  /** Whatever happens keeps table and book in agreement exactly under the condition stated for it. */
  lemma MirrorKeptIff(ix: Index, m: Market, cfg: Config, o: Occurrence)
    requires Mirrored(ix, m, cfg) && Inv(m) && ManagedIds(cfg)
    ensures Mirrored(TableAfter(ix, m, cfg, o), MarketAfter(m, o), cfg) <==> KeepsMirror(ix, m, cfg, o)
  {
    match o
    case Local(h) =>
      if Succeeds(m, h) {
        LocalKeepsIff(ix, m, cfg, h);
      } else {
        forall x: nat, y: nat ensures BookView(Next(m, h), x, y) == BookView(m, x, y) {
          OtherwiseSameBook(m, h, x, y);
        }
        MirroredElsewhere(ix, m, cfg, ix, Next(m, h));
      }
    case Elsewhere(e) => if e.target != cfg.market { ElsewhereKeepsIff(ix, m, cfg, e); }
    case Removal(admin) => RemovalKeepsIff(ix, m, cfg, admin);
  }

  /** An edit, which the daemon does not see, keeps them in agreement exactly when it leaves the order open at its
      price, or the collection is not one of the chain's own that the market manages. */
  lemma EditKeepsMirrorIff(ix: Index, m: Market, cfg: Config, h: Happening)
    requires Mirrored(ix, m, cfg) && Inv(m) && ManagedIds(cfg) && h.Called? && h.call.EditAsk? && Succeeds(m, h)
    ensures Mirrored(ix, Next(m, h), cfg)
            <==> (IsManaged(cfg, h.call.nft) && !Lookalike(h.call.nft) ==>
                    h.call.active != 0 && (h.call.price == 0 || h.call.price == OrderOf(m, h.call.nft).price))
  {
    MirrorKeptIff(ix, m, cfg, Local(h));
  }

  /** A sale for native coins, which it does not see either, does so exactly when the order was not open. */
  lemma NativeSaleKeepsMirrorIff(ix: Index, m: Market, cfg: Config, h: Happening)
    requires Mirrored(ix, m, cfg) && Inv(m) && ManagedIds(cfg) && h.Called? && h.call.Buy? && Succeeds(m, h)
    ensures Mirrored(ix, Next(m, h), cfg)
            <==> (IsManaged(cfg, h.call.nft) && !Lookalike(h.call.nft) ==> OrderOf(m, h.call.nft).active == 0)
  {
    MirrorKeptIff(ix, m, cfg, Local(h));
  }

  /** Buying an open order of a managed collection closes its one row as bought and records one trade, with the
      order's price split into the seller's share and the commission. */
  lemma BuyClosesRow(ix: Index, m: Market, cfg: Config, h: Happening)
    requires Mirrored(ix, m, cfg) && h.Called? && h.call.BuyKSM? && Succeeds(m, h)
    requires IsManaged(cfg, h.call.nft) && !Lookalike(h.call.nft) && OrderOf(m, h.call.nft).active != 0
    ensures var ix' := IndexCall(ix, cfg, EntryOf(cfg, h));
            var order := OrderOf(m, h.call.nft);
            && |ix'.trades| == |ix.trades| + 1 && ix'.trades[..|ix.trades|] == ix.trades
            && (var trade := ix'.trades[|ix.trades|];
                trade.originPrice == order.price && trade.price + trade.commission == order.price
                && trade.seller == order.owner && trade.buyer == h.call.buyer)
            && exists i :: 0 <= i < |ix.asks| && IsLive(ix.asks[i], IdOf(h.call.nft.collection), h.call.nft.id)
                 && ix'.asks[i] == ix.asks[i].(status := AskBought, blockBuy := Some(h.now))
                 && forall j :: 0 <= j < |ix.asks| && j != i ==> ix'.asks[j] == ix.asks[j]
  {
    var collection, token := IdOf(h.call.nft.collection), h.call.nft.id;
    var ix' := IndexCall(ix, cfg, EntryOf(cfg, h));
    assert TableView(ix.asks, collection, token) == BookView(m, collection, token);
    var i := FindLive(ix.asks, collection, token).value;
    LiveRowIsUnique(ix.asks, i, collection, token);
    forall j | 0 <= j < |ix.asks| && j != i ensures ix'.asks[j] == ix.asks[j] {
      assert !IsLive(ix.asks[j], collection, token);
    }
    assert ix'.asks[i] == ix.asks[i].(status := AskBought, blockBuy := Some(h.now));
  }

  // ---------------------------------------------------------------- runs

  function TrackMarket(m: Market, os: seq<Occurrence>): Market {
    if os == [] then m else MarketAfter(TrackMarket(m, os[..|os| - 1]), os[|os| - 1])
  }

  /** The daemon's table when it scans each call as it happens. */
  function TrackTable(m: Market, cfg: Config, os: seq<Occurrence>): Index {
    if os == [] then Index([], [])
    else
      var n := |os| - 1;
      TableAfter(TrackTable(m, cfg, os[..n]), TrackMarket(m, os[..n]), cfg, os[n])
  }

  lemma {:induction false} TrackKeepsInv(m: Market, os: seq<Occurrence>)
    requires Deployed(m)
    ensures Inv(TrackMarket(m, os))
  {
    RunKeeps(m, []);
    if os != [] {
      TrackKeepsInv(m, os[..|os| - 1]);
      if os[|os| - 1].Local? {
        NextKeeps(TrackMarket(m, os[..|os| - 1]), os[|os| - 1].h);
      }
    }
  }

  ghost predicate MirroredAfter(m: Market, cfg: Config, os: seq<Occurrence>) {
    Mirrored(TrackTable(m, cfg, os), TrackMarket(m, os), cfg)
  }

  predicate KeptAt(m: Market, cfg: Config, os: seq<Occurrence>, n: nat)
    requires n < |os|
  {
    KeepsMirror(TrackTable(m, cfg, os[..n]), TrackMarket(m, os[..n]), cfg, os[n])
  }

  lemma StartsMirrored(m: Market, cfg: Config)
    requires Deployed(m)
    ensures MirroredAfter(m, cfg, [])
  {
    assert forall nft: Nft :: OrderOf(m, nft) == NO_ORDER;
  }

  lemma MirroredStepIff(m: Market, cfg: Config, os: seq<Occurrence>, n: nat)
    requires Deployed(m) && ManagedIds(cfg) && n < |os| && MirroredAfter(m, cfg, os[..n])
    ensures MirroredAfter(m, cfg, os[..n + 1]) <==> KeptAt(m, cfg, os, n)
  {
    assert os[..n + 1][..n] == os[..n];
    TrackKeepsInv(m, os[..n]);
    MirrorKeptIff(TrackTable(m, cfg, os[..n]), TrackMarket(m, os[..n]), cfg, os[n]);
  }

  lemma {:induction false} MirroredUpTo(m: Market, cfg: Config, os: seq<Occurrence>, n: nat)
    requires Deployed(m) && ManagedIds(cfg) && n <= |os|
    requires forall k :: 0 <= k < |os| ==> KeptAt(m, cfg, os, k)
    ensures MirroredAfter(m, cfg, os[..n])
  {
    if n == 0 {
      StartsMirrored(m, cfg);
    } else {
      MirroredUpTo(m, cfg, os, n - 1);
      MirroredStepIff(m, cfg, os, n - 1);
    }
  }

  /** Table and order book agree after everything that happens, in any run whatsoever, exactly when each thing that
      happens meets its condition. */
  lemma MirroredThroughoutIff(m: Market, cfg: Config, os: seq<Occurrence>)
    requires Deployed(m) && ManagedIds(cfg)
    ensures (forall n :: 0 <= n <= |os| ==> MirroredAfter(m, cfg, os[..n])) <==> (forall n :: 0 <= n < |os| ==> KeptAt(m, cfg, os, n))
  {
    if forall n :: 0 <= n < |os| ==> KeptAt(m, cfg, os, n) {
      forall n | 0 <= n <= |os| ensures MirroredAfter(m, cfg, os[..n]) {
        MirroredUpTo(m, cfg, os, n);
      }
    }
    if forall n :: 0 <= n <= |os| ==> MirroredAfter(m, cfg, os[..n]) {
      forall n | 0 <= n < |os| ensures KeptAt(m, cfg, os, n) {
        assert MirroredAfter(m, cfg, os[..n]) && MirroredAfter(m, cfg, os[..n + 1]);
        MirroredStepIff(m, cfg, os, n);
      }
    }
  }

  /** Calls to the market contract that are indexed, on collections of the chain itself or unmanaged ones. */
  predicate Ordinary(cfg: Config, o: Occurrence) {
    o.Local? && (o.h.Called? && OnNft(o.h.call) ==>
      !o.h.call.EditAsk? && !o.h.call.Buy? && (IsManaged(cfg, o.h.call.nft) ==> !Lookalike(o.h.call.nft)))
  }

  /** In particular after every scanned call of every run of ordinary calls. */
  lemma TableMirrorsOrderBook(m: Market, cfg: Config, os: seq<Occurrence>)
    requires Deployed(m) && ManagedIds(cfg) && forall n :: 0 <= n < |os| ==> Ordinary(cfg, os[n])
    ensures MirroredAfter(m, cfg, os)
  {
    forall n | 0 <= n < |os| ensures KeptAt(m, cfg, os, n) {
      assert Ordinary(cfg, os[n]);
    }
    MirroredUpTo(m, cfg, os, |os|);
    assert os[..|os|] == os;
  }
}
