/** How often a sale on the chain is recorded as a trade and paid out, over every run of the books: restarts read calls
    again, the administrator removes offers, and a crash can end a sale half recorded. */
module SaleHistory {
  import opened Wrappers
  import opened Tables
  import opened EscrowIndex
  import opened EscrowBooks
  import opened AskMirror
  import opened BooksMirror

  // ---------------------------------------------------------------- one token's row

  /** The live row of a token. */
  function LiveRow(asks: seq<Ask>, c: nat, t: nat): Option<Ask> {
    match FindLive(asks, c, t)
    case None => None
    case Some(i) => Some(asks[i])
  }

  /** What a scanned call on the token makes of its live row. */
  function RowAfter(row: Option<Ask>, cfg: Config, e: Entry): Option<Ask>
    requires e.call.AddAsk? || e.call.CancelAsk? || e.call.BuyKSM?
  {
    match e.call
    case AddAsk(price, _, nft, _) =>
      if e.target == cfg.market then Some(Ask(AskActive, IdOf(nft.collection), nft.id, price, e.signer, e.target, None)) else None
    case BuyKSM(_, _, _) => if row.Some? && row.value.status == AskRemoved then row else None
    case _ => None
  }

  /** What a mass removal makes of it. */
  function RowRemoved(row: Option<Ask>, admin: Address): Option<Ask> {
    if row.Some? && row.value.status == AskActive && row.value.seller != admin then Some(row.value.(status := AskRemoved)) else row
  }

  lemma OtherRow(ix: Index, cfg: Config, e: Entry, c: nat, t: nat)
    requires OneLivePerToken(ix.asks) && c in cfg.managed && !Touches(e.call, c, t)
    ensures LiveRow(IndexCall(ix, cfg, e).asks, c, t) == LiveRow(ix.asks, c, t)
  {
    match e.call
    case AddAsk(_, _, nft, _) =>
      var collection, token := IdOf(nft.collection), nft.id;
      var asks := if FindLive(ix.asks, collection, token).Some? then CancelLive(ix.asks, collection, token) else ix.asks;
      var ask := Ask(AskActive, collection, token, e.call.price, e.signer, e.target, None);
      assert (asks + [ask])[..|asks|] == asks;
      SameRowsSameView(ix.asks, asks, c, t);
    case BuyKSM(nft, _, _) => SameRowsSameView(ix.asks, MarkBought(ix.asks, IdOf(nft.collection), nft.id, e.block), c, t);
    case CancelAsk(nft) => SameRowsSameView(ix.asks, CancelLive(ix.asks, IdOf(nft.collection), nft.id), c, t);
    case _ =>
  }

  lemma BoughtRow(ix: Index, cfg: Config, e: Entry, c: nat, t: nat)
    requires OneLivePerToken(ix.asks) && e.call.BuyKSM? && Touches(e.call, c, t)
    ensures LiveRow(IndexCall(ix, cfg, e).asks, c, t) == RowAfter(LiveRow(ix.asks, c, t), cfg, e)
  {
    match FindLive(ix.asks, c, t)
    case None =>
    case Some(i) =>
      LiveRowIsUnique(ix.asks, i, c, t);
      SaleClosesRowIff(ix, cfg, e);
      if ix.asks[i].status == AskRemoved {
        assert MarkBought(ix.asks, c, t, e.block) == ix.asks;
      }
  }

  lemma CallSetsRow(ix: Index, cfg: Config, e: Entry, c: nat, t: nat)
    requires OneLivePerToken(ix.asks) && c in cfg.managed
    ensures LiveRow(IndexCall(ix, cfg, e).asks, c, t)
         == if Touches(e.call, c, t) then RowAfter(LiveRow(ix.asks, c, t), cfg, e) else LiveRow(ix.asks, c, t)
  {
    if !Touches(e.call, c, t) {
      OtherRow(ix, cfg, e, c, t);
    } else if e.call.BuyKSM? {
      BoughtRow(ix, cfg, e, c, t);
    } else if e.call.CancelAsk? {
      CancelLeavesNone(ix.asks, c, t);
    } else {
      var asks := if FindLive(ix.asks, c, t).Some? then CancelLive(ix.asks, c, t) else ix.asks;
      var ask := Ask(AskActive, c, t, e.call.price, e.signer, e.target, None);
      CancelLeavesNone(ix.asks, c, t);
      assert (asks + [ask])[..|asks|] == asks;
    }
  }

  // ---------------------------------------------------------------- what the daemon read

  datatype Reading =
    | Read(position: nat, entry: Entry)   // the daemon scanned the call at that position
    | RemovedBy(admin: Address)           // massFixPriceCancel

  /** What one event adds. */
  function Noticed(b: Books, e: Event): seq<Reading> {
    match e
    case ScanCall => if b.unique == Free && b.scanned < |b.calls| then [Read(b.scanned, b.calls[b.scanned].entry)] else []
    case AdminRemoval(admin) => [RemovedBy(admin)]
    case _ => []
  }

  function History(b: Books, events: seq<Event>): seq<Reading> {
    if events == [] then []
    else
      var before := events[..|events| - 1];
      History(b, before) + Noticed(RunBooks(b, before), events[|events| - 1])
  }

  function TokenRowNext(row: Option<Ask>, cfg: Config, r: Reading, c: nat, t: nat): Option<Ask> {
    match r
    case Read(_, e) => if Touches(e.call, c, t) then RowAfter(row, cfg, e) else row
    case RemovedBy(admin) => RowRemoved(row, admin)
  }

  /** The token's live row as it follows from what was read, call after call. */
  function TokenRow(cfg: Config, history: seq<Reading>, c: nat, t: nat): Option<Ask> {
    if history == [] then None
    else TokenRowNext(TokenRow(cfg, history[..|history| - 1], c, t), cfg, history[|history| - 1], c, t)
  }

  lemma TokenRowPush(cfg: Config, history: seq<Reading>, r: Reading, c: nat, t: nat)
    ensures TokenRow(cfg, history + [r], c, t) == TokenRowNext(TokenRow(cfg, history, c, t), cfg, r, c, t)
  {
    assert (history + [r])[..|history|] == history;
  }

  /** The daemon's table holds for each token the row that follows from the readings. */
  ghost predicate RowsFollow(b: Books, history: seq<Reading>) {
    && Tidy(b.index, b.cfg)
    && forall c: nat, t: nat :: c in b.cfg.managed ==> LiveRow(b.index.asks, c, t) == TokenRow(b.cfg, history, c, t)
  }

  lemma ScanRowsFollow(b: Books, history: seq<Reading>)
    requires RowsFollow(b, history) && b.unique == Free && b.scanned < |b.calls|
    ensures RowsFollow(AfterScan(b), history + [Read(b.scanned, b.calls[b.scanned].entry)])
  {
    var e := b.calls[b.scanned].entry;
    CallKeepsClean(b.index, b.cfg, e);
    assert AfterScan(b).index == IndexCall(b.index, b.cfg, e) && AfterScan(b).cfg == b.cfg;
    forall c: nat, t: nat | c in b.cfg.managed
      ensures LiveRow(IndexCall(b.index, b.cfg, e).asks, c, t) == TokenRow(b.cfg, history + [Read(b.scanned, e)], c, t)
    {
      CallSetsRow(b.index, b.cfg, e, c, t);
      TokenRowPush(b.cfg, history, Read(b.scanned, e), c, t);
    }
  }

  lemma RemovalRowsFollow(b: Books, history: seq<Reading>, admin: Address)
    requires RowsFollow(b, history)
    ensures RowsFollow(Step(b, AdminRemoval(admin)), history + [RemovedBy(admin)])
  {
    OneLiveShrinks(b.index.asks, RemoveByAdmin(b.index.asks, admin));
    forall c: nat, t: nat | c in b.cfg.managed
      ensures LiveRow(RemoveByAdmin(b.index.asks, admin), c, t) == TokenRow(b.cfg, history + [RemovedBy(admin)], c, t)
    {
      RemovalFindsSame(b.index.asks, admin, c, t);
      TokenRowPush(b.cfg, history, RemovedBy(admin), c, t);
    }
  }

  lemma OtherwiseSameIndex(b: Books, e: Event)
    requires Noticed(b, e) == []
    ensures Step(b, e).index == b.index && Step(b, e).cfg == b.cfg
  {
  }

  lemma StepRowsFollow(b: Books, history: seq<Reading>, e: Event)
    requires RowsFollow(b, history)
    ensures RowsFollow(Step(b, e), history + Noticed(b, e))
  {
    if Noticed(b, e) == [] {
      OtherwiseSameIndex(b, e);
      assert history + [] == history;
    } else if e.ScanCall? {
      ScanRowsFollow(b, history);
    } else {
      RemovalRowsFollow(b, history, e.admin);
    }
  }

  /** In every run the daemon's live rows are those that follow from its readings alone. */
  lemma {:induction false} RunRowsFollow(b: Books, events: seq<Event>)
    requires Opened(b)
    ensures RowsFollow(RunBooks(b, events), History(b, events))
  {
    if events != [] {
      var before := events[..|events| - 1];
      RunRowsFollow(b, before);
      StepRowsFollow(RunBooks(b, before), History(b, before), events[|events| - 1]);
    }
  }

  // ---------------------------------------------------------------- trades

  /** The reading is of a sale of a managed token, and the readings before it leave the token a live row. */
  predicate FindsOffer(cfg: Config, history: seq<Reading>, j: nat)
    requires j < |history|
  {
    && history[j].Read? && history[j].entry.call.BuyKSM?
    && var nft := history[j].entry.call.nft;
       IdOf(nft.collection) in cfg.managed && TokenRow(cfg, history[..j], IdOf(nft.collection), nft.id).Some?
  }

  predicate FindsOfferAt(cfg: Config, history: seq<Reading>, p: nat, j: nat)
    requires j < |history|
  {
    history[j].Read? && history[j].position == p && FindsOffer(cfg, history, j)
  }

  function TimesFound(cfg: Config, history: seq<Reading>, p: nat): nat {
    if history == [] then 0
    else
      var n := |history| - 1;
      TimesFound(cfg, history[..n], p) + (if FindsOfferAt(cfg, history, p, n) then 1 else 0)
  }

  predicate AddsTrade(b: Books, e: Event) {
    |Step(b, e).index.trades| > |b.index.trades|
  }

  /** How often a run recorded a trade while it scanned the call at position p. */
  function TradesOf(b: Books, events: seq<Event>, p: nat): nat {
    if events == [] then 0
    else
      var before, e := events[..|events| - 1], events[|events| - 1];
      var b' := RunBooks(b, before);
      TradesOf(b, before, p) + (if AddsTrade(b', e) && b'.scanned == p then 1 else 0)
  }

  lemma ScanAddsTradeIff(b: Books, history: seq<Reading>)
    requires RowsFollow(b, history) && b.unique == Free && b.scanned < |b.calls|
    ensures AddsTrade(b, ScanCall) <==> FindsOffer(b.cfg, history + [Read(b.scanned, b.calls[b.scanned].entry)], |history|)
  {
    var e := b.calls[b.scanned].entry;
    assert (history + [Read(b.scanned, e)])[..|history|] == history;
    if e.call.BuyKSM? && IdOf(e.call.nft.collection) in b.cfg.managed {
      assert LiveRow(b.index.asks, IdOf(e.call.nft.collection), e.call.nft.id)
          == TokenRow(b.cfg, history, IdOf(e.call.nft.collection), e.call.nft.id);
    }
  }

  lemma OnlyScansAddTrades(b: Books, e: Event)
    requires !e.ScanCall? || b.unique != Free || b.scanned >= |b.calls|
    ensures !AddsTrade(b, e)
  {
  }

  lemma StepFound(b: Books, history: seq<Reading>, e: Event, p: nat)
    requires RowsFollow(b, history)
    ensures TimesFound(b.cfg, history + Noticed(b, e), p)
         == TimesFound(b.cfg, history, p) + (if AddsTrade(b, e) && b.scanned == p then 1 else 0)
  {
    var more := Noticed(b, e);
    if more == [] {
      assert history + more == history;
      OnlyScansAddTrades(b, e);
    } else {
      assert (history + more)[..|history|] == history;
      if e.ScanCall? {
        ScanAddsTradeIff(b, history);
      } else {
        OnlyScansAddTrades(b, e);
      }
    }
  }

  lemma {:induction false} RunKeepsCfg(b: Books, events: seq<Event>)
    ensures RunBooks(b, events).cfg == b.cfg
  {
    if events != [] {
      RunKeepsCfg(b, events[..|events| - 1]);
    }
  }

  /** A call is recorded as a trade as often as its readings find an offer. */
  lemma {:induction false} TradesAreFound(b: Books, events: seq<Event>, p: nat)
    requires Opened(b)
    ensures TradesOf(b, events, p) == TimesFound(b.cfg, History(b, events), p)
  {
    if events != [] {
      var before := events[..|events| - 1];
      TradesAreFound(b, before, p);
      RunRowsFollow(b, before);
      RunKeepsCfg(b, before);
      StepFound(RunBooks(b, before), History(b, before), events[|events| - 1], p);
    }
  }

  lemma FoundInPrefix(cfg: Config, history: seq<Reading>, p: nat, n: nat, j: nat)
    requires j < n <= |history|
    ensures FindsOfferAt(cfg, history[..n], p, j) <==> FindsOfferAt(cfg, history, p, j)
  {
    assert history[..n][..j] == history[..j] && history[..n][j] == history[j];
  }

  lemma {:induction false} FoundNeverIff(cfg: Config, history: seq<Reading>, p: nat)
    ensures TimesFound(cfg, history, p) == 0 <==> forall j :: 0 <= j < |history| ==> !FindsOfferAt(cfg, history, p, j)
  {
    if history != [] {
      var n := |history| - 1;
      FoundNeverIff(cfg, history[..n], p);
      forall j | 0 <= j < n ensures FindsOfferAt(cfg, history[..n], p, j) <==> FindsOfferAt(cfg, history, p, j) {
        FoundInPrefix(cfg, history, p, n, j);
      }
    }
  }

  /** No two readings of the call find an offer. */
  predicate FoundAtMostOnce(cfg: Config, history: seq<Reading>, p: nat) {
    forall i, j :: 0 <= i < j < |history| && FindsOfferAt(cfg, history, p, i) ==> !FindsOfferAt(cfg, history, p, j)
  }

  lemma {:induction false} FoundOnceIff(cfg: Config, history: seq<Reading>, p: nat)
    ensures TimesFound(cfg, history, p) <= 1 <==> FoundAtMostOnce(cfg, history, p)
  {
    if history != [] {
      var n := |history| - 1;
      var before := history[..n];
      FoundOnceIff(cfg, before, p);
      FoundNeverIff(cfg, before, p);
      forall j | 0 <= j < n ensures FindsOfferAt(cfg, before, p, j) <==> FindsOfferAt(cfg, history, p, j) {
        FoundInPrefix(cfg, history, p, n, j);
      }
    }
  }

  /** Over every run, whatever crashes and is removed, a call is recorded as a trade at most once exactly when no two
      readings of it find an offer that the readings before left. */
  lemma RecordedOnceIff(b: Books, events: seq<Event>, p: nat)
    requires Opened(b)
    ensures TradesOf(b, events, p) <= 1 <==> FoundAtMostOnce(b.cfg, History(b, events), p)
  {
    TradesAreFound(b, events, p);
    FoundOnceIff(b.cfg, History(b, events), p);
  }

  // ---------------------------------------------------------------- payouts

  /** The Unique daemon is inside processBuyKSM. */
  predicate InSale(desk: UniqueDesk) {
    match desk
    case Free => false
    case Sending(_, after) => after.Some?
    case Recording(_, _, after) => after.Some?
    case _ => true
  }

  /** The step records the payout of a sale. */
  predicate AddsPayout(b: Books, e: Event) {
    e.UniqueWork? && b.unique.Owing?
  }

  /** How often a run recorded the payout of the sale at position p: while the daemon is inside a sale, this is the
      last call it scanned. */
  function PayoutsOf(b: Books, events: seq<Event>, p: nat): nat {
    if events == [] then 0
    else
      var before, e := events[..|events| - 1], events[|events| - 1];
      var b' := RunBooks(b, before);
      PayoutsOf(b, before, p) + (if AddsPayout(b', e) && b'.scanned == p + 1 then 1 else 0)
  }

  /** How often a crash ended the sale at position p before its payout was recorded. */
  function CutOff(b: Books, events: seq<Event>, p: nat): nat {
    if events == [] then 0
    else
      var before, e := events[..|events| - 1], events[|events| - 1];
      var b' := RunBooks(b, before);
      CutOff(b, before, p) + (if e.UniqueCrash? && InSale(b'.unique) && b'.scanned == p + 1 then 1 else 0)
  }

  function AtDesk(b: Books, p: nat): nat {
    if InSale(b.unique) && b.scanned == p + 1 then 1 else 0
  }

  lemma StepHandsOn(b: Books, e: Event, p: nat)
    ensures AtDesk(b, p) + (if AddsTrade(b, e) && b.scanned == p then 1 else 0)
         == AtDesk(Step(b, e), p) + (if AddsPayout(b, e) && b.scanned == p + 1 then 1 else 0)
            + (if e.UniqueCrash? && InSale(b.unique) && b.scanned == p + 1 then 1 else 0)
  {
  }

  /** Every trade recorded for a call has led to a payout, was cut off by a crash, or is being worked on. */
  lemma {:induction false} TradesLeadToPayouts(b: Books, events: seq<Event>, p: nat)
    requires Opened(b)
    ensures TradesOf(b, events, p) == PayoutsOf(b, events, p) + CutOff(b, events, p) + AtDesk(RunBooks(b, events), p)
  {
    if events != [] {
      var before := events[..|events| - 1];
      TradesLeadToPayouts(b, before, p);
      StepHandsOn(RunBooks(b, before), events[|events| - 1], p);
    }
  }

  /** So a sale is paid out as often as its readings find an offer, less the times that a crash cut it off and the one
      that is being worked on; and at most once, without those, exactly when no two readings do. */
  lemma PaidOutOnceIff(b: Books, events: seq<Event>, p: nat)
    requires Opened(b)
    ensures PayoutsOf(b, events, p) + CutOff(b, events, p) + AtDesk(RunBooks(b, events), p) == TimesFound(b.cfg, History(b, events), p)
    ensures FoundAtMostOnce(b.cfg, History(b, events), p) ==> PayoutsOf(b, events, p) <= 1
    ensures CutOff(b, events, p) == 0 && RunBooks(b, events).unique == Free ==>
              (PayoutsOf(b, events, p) <= 1 <==> FoundAtMostOnce(b.cfg, History(b, events), p))
  {
    TradesLeadToPayouts(b, events, p);
    TradesAreFound(b, events, p);
    FoundOnceIff(b.cfg, History(b, events), p);
  }
}
