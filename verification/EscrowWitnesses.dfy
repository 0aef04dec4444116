/** Short runs that reach the failing side of the conditions in AskMirror and EscrowIndex: the daemon's table and the
    order book of the contract come apart. */
module EscrowWitnesses {
  import opened Wrappers
  import opened Tables
  import opened Contract
  import opened ContractInvariants
  import opened EscrowIndex
  import opened AskMirror

  const CFG := Config({7}, 1, 0)
  const MARKET := Market(1, [NO_ORDER], map[], map[], map[], {2}, map[])

  /** Token 1 of the managed collection 7; account 5 lists it for 10. */
  const TOKEN: Nft := NftOf(7, 1)

  const MINT: Occurrence := Local(Minted(TOKEN, 5))
  const LIST: Occurrence := Local(Called(5, 0, AddAsk(10, 0, TOKEN, true)))
  const LISTING: seq<Occurrence> := [MINT, LIST]

  lemma TokenIsOwn()
    ensures IdOf(TOKEN.collection) == 7 && !Lookalike(TOKEN)
  {
    NftOfIsInjective(7, 1);
  }

  lemma TrackPush(m: Market, cfg: Config, os: seq<Occurrence>, o: Occurrence)
    ensures TrackMarket(m, os + [o]) == MarketAfter(TrackMarket(m, os), o)
    ensures TrackTable(m, cfg, os + [o]) == TableAfter(TrackTable(m, cfg, os), TrackMarket(m, os), cfg, o)
  {
    assert (os + [o])[..|os|] == os;
  }

  lemma MintedMarket()
    ensures TrackMarket(MARKET, [MINT]) == MARKET.(owners := map[TOKEN := 5])
  {
    var none: seq<Occurrence> := [];
    TrackPush(MARKET, CFG, none, MINT);
    assert none + [MINT] == [MINT];
  }

  lemma MarketAfterListing(m: Market)
    requires m == MARKET.(owners := map[TOKEN := 5])
    ensures MarketAfter(m, LIST) == Listed(m, Order(TOKEN, 0, 10, 0, 5, 1)).(owners := map[TOKEN := 1])
  {
    assert m.owners[TOKEN := 1] == map[TOKEN := 1];
  }

  lemma ListedMarket()
    ensures var m := TrackMarket(MARKET, LISTING);
            OrderOf(m, TOKEN) == Order(TOKEN, 0, 10, 0, 5, 1) && m.owners == map[TOKEN := 1]
  {
    MintedMarket();
    TrackPush(MARKET, CFG, [MINT], LIST);
    assert [MINT] + [LIST] == LISTING;
    MarketAfterListing(TrackMarket(MARKET, [MINT]));
    var m := TrackMarket(MARKET, LISTING);
    assert m.asks[TOKEN] == 1 && m.orders[1] == Order(TOKEN, 0, 10, 0, 5, 1);
  }

  /** After the listing, table and book show the same offer. */
  lemma ListingIsMirrored()
    ensures MirroredAfter(MARKET, CFG, LISTING)
    ensures var m := TrackMarket(MARKET, LISTING);
            Inv(m) && OrderOf(m, TOKEN) == Order(TOKEN, 0, 10, 0, 5, 1) && m.owners == map[TOKEN := 1]
    ensures TableView(TrackTable(MARKET, CFG, LISTING).asks, 7, 1) == Some(Offer(10, 5))
  {
    TokenIsOwn();
    TableMirrorsOrderBook(MARKET, CFG, LISTING);
    TrackKeepsInv(MARKET, LISTING);
    ListedMarket();
    assert BookView(TrackMarket(MARKET, LISTING), 7, 1) == Some(Offer(10, 5));
  }

  lemma OneMore(os: seq<Occurrence>, o: Occurrence)
    requires MirroredAfter(MARKET, CFG, os) && !KeepsMirror(TrackTable(MARKET, CFG, os), TrackMarket(MARKET, os), CFG, o)
    ensures !MirroredAfter(MARKET, CFG, os + [o])
  {
    TrackKeepsInv(MARKET, os);
    TrackPush(MARKET, CFG, os, o);
    MirrorKeptIff(TrackTable(MARKET, CFG, os), TrackMarket(MARKET, os), CFG, o);
  }

  /** The seller raises the price: the table still shows the old one. */
  lemma EditedPriceIsMissed()
    ensures !MirroredAfter(MARKET, CFG, LISTING + [Local(Called(5, 0, EditAsk(20, 0, TOKEN, 1)))])
  {
    TokenIsOwn();
    ListingIsMirrored();
    OneMore(LISTING, Local(Called(5, 0, EditAsk(20, 0, TOKEN, 1))));
  }

  /** The token is sold for native coins: the table still offers it. */
  lemma NativeSaleIsMissed()
    ensures !MirroredAfter(MARKET, CFG, LISTING + [Local(Called(6, 0, Buy(TOKEN, 10)))])
  {
    TokenIsOwn();
    ListingIsMirrored();
    OneMore(LISTING, Local(Called(6, 0, Buy(TOKEN, 10))));
  }

  /** A cancellation addressed to another contract closes the row of the open order. */
  lemma CallElsewhereClosesRow()
    ensures !MirroredAfter(MARKET, CFG, LISTING + [Elsewhere(Entry(6, 8, 0, CancelAsk(TOKEN)))])
  {
    TokenIsOwn();
    ListingIsMirrored();
    OneMore(LISTING, Elsewhere(Entry(6, 8, 0, CancelAsk(TOKEN))));
  }

  /** The administrator removes the offer: the order stays open. */
  lemma RemovalHidesOpenOrder()
    ensures !MirroredAfter(MARKET, CFG, LISTING + [Removal(9)])
  {
    ListingIsMirrored();
    var asks := TrackTable(MARKET, CFG, LISTING).asks;
    var i := FindLive(asks, 7, 1).value;
    assert asks[i].status == AskActive && asks[i].seller == 5;
    OneMore(LISTING, Removal(9));
  }

  /** A collection at another address whose last four bytes spell 7; account 6 lists its token 1 for 3. */
  const FAKE: Nft := Nft(7, 1)

  const FAKE_MINT: Occurrence := Local(Minted(FAKE, 6))
  const FAKE_LIST: Occurrence := Local(Called(6, 0, AddAsk(3, 0, FAKE, true)))

  lemma FakeIsMinted()
    ensures MirroredAfter(MARKET, CFG, LISTING + [FAKE_MINT])
    ensures var m := TrackMarket(MARKET, LISTING + [FAKE_MINT]);
            FAKE in m.owners && m.owners[FAKE] == 6 && m.self == 1 && OrderOf(m, TOKEN) == Order(TOKEN, 0, 10, 0, 5, 1)
  {
    TokenIsOwn();
    ListedMarket();
    TrackPush(MARKET, CFG, LISTING, FAKE_MINT);
    TrackKeepsSelf(LISTING);
    TableMirrorsOrderBook(MARKET, CFG, LISTING + [FAKE_MINT]);
  }

  lemma {:induction false} TrackKeepsSelf(os: seq<Occurrence>)
    ensures TrackMarket(MARKET, os).self == 1
  {
    if os != [] {
      TrackKeepsSelf(os[..|os| - 1]);
    }
  }

  /** Its listing replaces the row of the open order of token 1 of collection 7. */
  lemma LookalikeReplacesOffer()
    ensures !MirroredAfter(MARKET, CFG, LISTING + [FAKE_MINT] + [FAKE_LIST])
  {
    FakeIsMinted();
    var m := TrackMarket(MARKET, LISTING + [FAKE_MINT]);
    assert Lookalike(FAKE) && BookOffer(m, FAKE) == Some(Offer(10, 5));
    assert Succeeds(m, FAKE_LIST.h);
    OneMore(LISTING + [FAKE_MINT], FAKE_LIST);
  }

  // ---------------------------------------------------------------- a row that outlives its sale

  const LIST_ENTRY: Entry := Entry(5, 1, 0, AddAsk(10, 0, TOKEN, true))
  const BUY_ENTRY: Entry := Entry(3, 1, 0, BuyKSM(TOKEN, 3, 3))

  /** The offer is removed by the administrator and then sold: its row stays removed, and reading the sale again
      records a second trade. */
  lemma RemovedRowOutlivesSale()
    ensures var run := [Processed(LIST_ENTRY), MassRemoval(9), Processed(BUY_ENTRY)];
            var ix := RunIndex(Index([], []), CFG, run);
            && ix.asks == [Ask(AskRemoved, 7, 1, 10, 5, 1, None)] && |ix.trades| == 1
            && |RunIndex(Index([], []), CFG, run + [Processed(BUY_ENTRY)]).trades| == 2
  {
    TokenIsOwn();
    var e1, e2, e3 := Processed(LIST_ENTRY), MassRemoval(9), Processed(BUY_ENTRY);
    var removed := Ask(AskRemoved, 7, 1, 10, 5, 1, None);
    assert [e1, e2, e3, e3][..3] == [e1, e2, e3] && [e1, e2, e3][..2] == [e1, e2] && [e1, e2][..1] == [e1];
    assert RunIndex(Index([], []), CFG, [e1]) == Index([removed.(status := AskActive)], []);
    assert RunIndex(Index([], []), CFG, [e1, e2]) == Index([removed], []);
    SoldRowStaysRemoved(Index([removed], []));
    var once := RunIndex(Index([], []), CFG, [e1, e2, e3]);
    SoldRowStaysRemoved(once);
    assert [e1, e2, e3] + [e3] == [e1, e2, e3, e3];
  }

  lemma SoldRowStaysRemoved(ix: Index)
    requires ix.asks == [Ask(AskRemoved, 7, 1, 10, 5, 1, None)]
    ensures IndexCall(ix, CFG, BUY_ENTRY).asks == ix.asks && |IndexCall(ix, CFG, BUY_ENTRY).trades| == |ix.trades| + 1
  {
    TokenIsOwn();
    assert MarkBought(ix.asks, 7, 1, 0) == ix.asks;
  }
}
