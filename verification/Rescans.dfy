/** A restart reads calls again that were already scanned: when a sale among them is recorded, and paid, twice. */
module Rescans {
  import opened Wrappers
  import opened EscrowIndex
  import opened EscrowBooks
  import opened AskMirror
  import opened BooksMirror

  /** The tables after scanning the calls from one position up to another. */
  function Rescan(ix: Index, cfg: Config, calls: seq<Scan>, from: nat, to: nat): Index
    requires from <= to <= |calls|
  {
    if to == from then ix else IndexCall(Rescan(ix, cfg, calls, from, to - 1), cfg, calls[to - 1].entry)
  }

  /** What the last of these calls that touches the token makes the table show for it. */
  function LastShown(cfg: Config, calls: seq<Scan>, from: nat, to: nat, c: nat, t: nat, start: Option<Offer>): Option<Offer>
    requires from <= to <= |calls|
  {
    if to == from then start
    else if Touches(calls[to - 1].entry.call, c, t) then ShownAfter(cfg, calls[to - 1].entry)
    else LastShown(cfg, calls, from, to - 1, c, t, start)
  }

  lemma {:induction false} RescanIsClean(ix: Index, cfg: Config, calls: seq<Scan>, from: nat, to: nat)
    requires from <= to <= |calls| && Clean(ix, cfg)
    ensures Clean(Rescan(ix, cfg, calls, from, to), cfg)
  {
    if to > from {
      RescanIsClean(ix, cfg, calls, from, to - 1);
      CallKeepsClean(Rescan(ix, cfg, calls, from, to - 1), cfg, calls[to - 1].entry);
    }
  }

  lemma {:induction false} RescanShows(ix: Index, cfg: Config, calls: seq<Scan>, from: nat, to: nat, c: nat, t: nat)
    requires from <= to <= |calls| && Clean(ix, cfg) && c in cfg.managed
    ensures TableView(Rescan(ix, cfg, calls, from, to).asks, c, t)
         == LastShown(cfg, calls, from, to, c, t, TableView(ix.asks, c, t))
  {
    if to > from {
      RescanShows(ix, cfg, calls, from, to - 1, c, t);
      RescanIsClean(ix, cfg, calls, from, to - 1);
      CallSetsView(Rescan(ix, cfg, calls, from, to - 1), cfg, calls[to - 1].entry, c, t);
    }
  }

  /** A sale of a managed token, at a position where the rescan finds an offer for the token. */
  predicate SaleFound(ix: Index, cfg: Config, calls: seq<Scan>, from: nat, k: nat)
    requires from <= k < |calls|
  {
    var call := calls[k].entry.call;
    call.BuyKSM? && IdOf(call.nft.collection) in cfg.managed
    && LastShown(cfg, calls, from, k, IdOf(call.nft.collection), call.nft.id,
                 TableView(ix.asks, IdOf(call.nft.collection), call.nft.id)).Some?
  }

  /** A scanned call records a trade exactly when it is a sale of a token that has an offer. */
  lemma CallTradesIff(ix: Index, cfg: Config, e: Entry)
    requires Clean(ix, cfg)
    ensures |IndexCall(ix, cfg, e).trades| == |ix.trades|
            + (if e.call.BuyKSM? && FindLive(ix.asks, IdOf(e.call.nft.collection), e.call.nft.id).Some? then 1 else 0)
    ensures e.call.BuyKSM? && FindLive(ix.asks, IdOf(e.call.nft.collection), e.call.nft.id).Some?
            ==> IdOf(e.call.nft.collection) in cfg.managed
  {
  }

  /** Each call scanned again adds one trade or none: one exactly when it is a sale that finds an offer. */
  lemma RescanTradesIff(ix: Index, cfg: Config, calls: seq<Scan>, from: nat, to: nat)
    requires from < to <= |calls| && Clean(ix, cfg)
    ensures |Rescan(ix, cfg, calls, from, to).trades|
         == |Rescan(ix, cfg, calls, from, to - 1).trades| + (if SaleFound(ix, cfg, calls, from, to - 1) then 1 else 0)
  {
    var before, e := Rescan(ix, cfg, calls, from, to - 1), calls[to - 1].entry;
    RescanIsClean(ix, cfg, calls, from, to - 1);
    CallTradesIff(before, cfg, e);
    if e.call.BuyKSM? && IdOf(e.call.nft.collection) in cfg.managed {
      RescanShows(ix, cfg, calls, from, to - 1, IdOf(e.call.nft.collection), e.call.nft.id);
    }
  }

  lemma {:induction false} RescanAddsNoneIff(ix: Index, cfg: Config, calls: seq<Scan>, from: nat, to: nat)
    requires from <= to <= |calls| && Clean(ix, cfg)
    ensures |Rescan(ix, cfg, calls, from, to).trades| >= |ix.trades|
    ensures |Rescan(ix, cfg, calls, from, to).trades| == |ix.trades|
            <==> forall k :: from <= k < to ==> !SaleFound(ix, cfg, calls, from, k)
  {
    if to > from {
      RescanAddsNoneIff(ix, cfg, calls, from, to - 1);
      RescanTradesIff(ix, cfg, calls, from, to);
    }
  }

  // ---------------------------------------------------------------- after the calls were scanned in order

  /** Read in a circle, the last call of the range before the sale that touches its token is a listing: the last one
      before it in the range or, if there is none, the last one of the range. */
  predicate ListedBefore(cfg: Config, calls: seq<Scan>, from: nat, to: nat, k: nat)
    requires from <= k < to <= |calls|
  {
    var call := calls[k].entry.call;
    call.BuyKSM? && IdOf(call.nft.collection) in cfg.managed
    && LastShown(cfg, calls, from, k, IdOf(call.nft.collection), call.nft.id,
                 LastShown(cfg, calls, from, to, IdOf(call.nft.collection), call.nft.id, None)).Some?
  }

  lemma {:induction false} InOrderIsRescan(cfg: Config, calls: seq<Scan>, from: nat, to: nat)
    requires from <= to <= |calls|
    ensures IndexOf(cfg, calls[..to]) == Rescan(IndexOf(cfg, calls[..from]), cfg, calls, from, to)
  {
    if to > from {
      InOrderIsRescan(cfg, calls, from, to - 1);
      assert calls[..to] == calls[..to - 1] + [calls[to - 1]];
      IndexOneMore(cfg, calls[..to - 1], calls[to - 1]);
    }
  }

  /** Once the range holds a call for the token, what was shown before the range does not matter. */
  lemma {:induction false} TouchDecides(cfg: Config, calls: seq<Scan>, from: nat, to: nat, k: nat, c: nat, t: nat, start: Option<Offer>)
    requires from <= k < to <= |calls| && Touches(calls[k].entry.call, c, t)
    ensures LastShown(cfg, calls, from, to, c, t, start) == LastShown(cfg, calls, from, to, c, t, None)
  {
    if k < to - 1 && !Touches(calls[to - 1].entry.call, c, t) {
      TouchDecides(cfg, calls, from, to - 1, k, c, t, start);
    }
  }

  /** A restart that reads a range of calls again, after all of them were scanned in order, records no sale a second
      time exactly when no sale of the range has a listing of its token as the call before it in the range, read in
      a circle. */
  lemma RescanRepeatsNoSaleIff(cfg: Config, calls: seq<Scan>, from: nat, to: nat)
    requires from <= to <= |calls|
    ensures var ix := IndexOf(cfg, calls[..to]);
            |Rescan(ix, cfg, calls, from, to).trades| == |ix.trades| <==> forall k :: from <= k < to ==> !ListedBefore(cfg, calls, from, to, k)
  {
    var first, ix := IndexOf(cfg, calls[..from]), IndexOf(cfg, calls[..to]);
    IndexOfIsClean(cfg, calls[..from]);
    IndexOfIsClean(cfg, calls[..to]);
    RescanAddsNoneIff(ix, cfg, calls, from, to);
    InOrderIsRescan(cfg, calls, from, to);
    forall k | from <= k < to ensures SaleFound(ix, cfg, calls, from, k) <==> ListedBefore(cfg, calls, from, to, k) {
      var call := calls[k].entry.call;
      if call.BuyKSM? && IdOf(call.nft.collection) in cfg.managed {
        var c, t := IdOf(call.nft.collection), call.nft.id;
        RescanShows(first, cfg, calls, from, to, c, t);
        TouchDecides(cfg, calls, from, to, k, c, t, TableView(first.asks, c, t));
      }
    }
  }

  /** A scanned call leads to a payout exactly when it records a trade. */
  lemma PayoutIffTrade(b: Books)
    requires b.unique == Free && b.scanned < |b.calls|
    ensures AfterScan(b).unique.Sold? <==> |AfterScan(b).index.trades| == |b.index.trades| + 1
    ensures |AfterScan(b).index.trades| <= |b.index.trades| + 1
  {
  }
}
